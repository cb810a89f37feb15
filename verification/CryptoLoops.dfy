/** The byte loops of the cryptography helpers. */
module CryptoLoops {
  import opened Common
  import opened CryptoFraming

  lemma XorIsZero(a: bv8, b: bv8)
    ensures a ^ b == 0 <==> a == b
  {
  }

  lemma OrIsZero(a: bv8, b: bv8)
    ensures a | b == 0 <==> a == 0 && b == 0
  {
  }

  /** `verifyHmacSha256`, given our MAC. */
  method VerifyHmacSha256(ourMac: Bytes, theirMac: Bytes, length: nat) returns (r: Result<(), string>)
    ensures r.Ok? <==> MacAccepted(ourMac, theirMac, length)
    ensures r == Err("Bad MAC length") <==> |theirMac| != length || |ourMac| < length
  {
    if |theirMac| != length || |ourMac| < length {
      return Err("Bad MAC length");
    }
    var result: bv8 := 0;
    for i := 0 to |theirMac|
      invariant result == 0 <==> theirMac[..i] == ourMac[..i]
    {
      XorIsZero(ourMac[i], theirMac[i]);
      OrIsZero(result, ourMac[i] ^ theirMac[i]);
      assert theirMac[..i + 1] == theirMac[..i] + [theirMac[i]];
      assert ourMac[..i + 1] == ourMac[..i] + [ourMac[i]];
      result := result | (ourMac[i] ^ theirMac[i]);
    }
    assert theirMac[..|theirMac|] == theirMac;
    if result != 0 {
      return Err("Bad MAC");
    }
    return Ok(());
  }

  /** `verifyDigest`, given our digest. */
  method VerifyDigest(ourDigest: Bytes, theirDigest: Bytes) returns (r: Result<(), string>)
    ensures r.Ok? <==> DigestAccepted(ourDigest, theirDigest)
  {
    var result: bv8 := 0;
    for i := 0 to |theirDigest|
      invariant result == 0 <==> DigestAccepted(ourDigest, theirDigest[..i])
    {
      // An index past the end gives undefined, which counts as zero.
      var ours := if i < |ourDigest| then ourDigest[i] else 0;
      XorIsZero(ours, theirDigest[i]);
      OrIsZero(result, ours ^ theirDigest[i]);
      ghost var next := theirDigest[..i + 1];
      assert next[i] == theirDigest[i] && next[..i] == theirDigest[..i];
      result := result | (ours ^ theirDigest[i]);
    }
    assert theirDigest[..|theirDigest|] == theirDigest;
    if result != 0 {
      return Err("Bad digest");
    }
    return Ok(());
  }

  method TrimForDisplay(padded: Bytes) returns (trimmed: Bytes)
    ensures trimmed == padded[..FirstZero(padded, 0)]
    ensures ZeroFree(trimmed) && (|trimmed| < |padded| ==> padded[|trimmed|] == 0)
  {
    var paddingEnd := 0;
    while paddingEnd < |padded| && padded[paddingEnd] != 0
      invariant paddingEnd <= |padded| && ZeroFree(padded[..paddingEnd])
    {
      assert padded[..paddingEnd + 1] == padded[..paddingEnd] + [padded[paddingEnd]];
      paddingEnd := paddingEnd + 1;
    }
    assert padded[0..paddingEnd] == padded[..paddingEnd];
    FirstZeroIs(padded, 0, paddingEnd);
    trimmed := padded[..paddingEnd];
  }

  /** The two loops of `decryptProfileName`, on the decrypted bytes. */
  method SplitName(padded: Bytes) returns (name: Name)
    ensures name == ParseName(padded)
  {
    var givenEnd := 0;
    while givenEnd < |padded| && padded[givenEnd] != 0
      invariant givenEnd <= |padded| && FirstZero(padded, givenEnd) == FirstZero(padded, 0)
    {
      givenEnd := givenEnd + 1;
    }
    var familyEnd := givenEnd + 1;
    while familyEnd < |padded| && padded[familyEnd] != 0
      invariant givenEnd + 1 <= familyEnd
      invariant familyEnd <= |padded| || familyEnd == givenEnd + 1
      invariant givenEnd + 1 <= |padded| ==> FirstZero(padded, familyEnd) == FirstZero(padded, givenEnd + 1)
    {
      familyEnd := familyEnd + 1;
    }
    var foundFamilyName := familyEnd > givenEnd + 1;
    name := Name(padded[..givenEnd], if foundFamilyName then Some(padded[givenEnd + 1..familyEnd]) else None);
  }

  /** The search for a padded length, and the buffer that is filled. */
  method PadItem(item: Bytes, paddedLengths: seq<nat>) returns (r: Option<Bytes>)
    ensures r == Padded(item, paddedLengths)
  {
    var i := 0;
    while i < |paddedLengths| && paddedLengths[i] < |item|
      invariant i <= |paddedLengths|
      invariant FindLength(paddedLengths[i..], |item|) == FindLength(paddedLengths, |item|)
    {
      assert paddedLengths[i..][1..] == paddedLengths[i + 1..];
      i := i + 1;
    }
    if i == |paddedLengths| || paddedLengths[i] == 0 {
      return None;
    }
    var padded := new bv8[paddedLengths[i]](_ => 0);
    for j := 0 to |item|
      invariant padded[..j] == item[..j]
      invariant forall k :: j <= k < padded.Length ==> padded[k] == 0
    {
      padded[j] := item[j];
      assert padded[..j + 1] == padded[..j] + [item[j]];
    }
    assert padded[..] == item + Zeroes(padded.Length - |item|);
    return Some(padded[..]);
  }
}
