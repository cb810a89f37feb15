/** How ciphertexts, nonces, MACs and padding are put together and taken apart.
    The primitives are functions about which only their lengths are known, and that
    decryption undoes encryption. */
module CryptoFraming {
  import opened Common

  /** `cbc` and `gcm` take a key, a text and an initialization vector. */
  datatype Primitives = Primitives(
    hmac: (Bytes, Bytes) -> Bytes,
    sha256: Bytes -> Bytes,
    encryptCbc: (Bytes, Bytes, Bytes) -> Bytes,
    decryptCbc: (Bytes, Bytes, Bytes) -> Option<Bytes>,
    encryptGcm: (Bytes, Bytes, Bytes) -> Bytes,
    decryptGcm: (Bytes, Bytes, Bytes) -> Option<Bytes>)

  ghost predicate Sound(c: Primitives) {
    && (forall key, data :: |c.hmac(key, data)| == 32)
    && (forall data :: |c.sha256(data)| == 32)
    && (forall key, p, iv :: |key| == 32 && |iv| == 16 ==> c.decryptCbc(key, c.encryptCbc(key, p, iv), iv) == Some(p))
    && (forall key, p, iv :: |key| == 32 && |iv| == 12 ==>
          |c.encryptGcm(key, p, iv)| == |p| + 16 && c.decryptGcm(key, c.encryptGcm(key, p, iv), iv) == Some(p))
  }

  function Zeroes(n: nat): (b: Bytes)
    ensures |b| == n && forall i :: 0 <= i < n ==> b[i] == 0
  {
    seq(n, _ => 0)
  }

  // ------------------------------------------------------------- subarrays

  /** Where a relative index lands: negative ones count from the end. */
  function Relative(i: int, length: nat): (n: nat)
    ensures n <= length
  {
    if i < 0 then (if length + i < 0 then 0 else length + i) else if i > length then length else i
  }

  function Subarray(data: Bytes, begin: int, end: int): Bytes {
    var b, e := Relative(begin, |data|), Relative(end, |data|);
    if b < e then data[b..e] else []
  }

  /** `n` bytes from `start`; both may be negative when the data are short. */
  function GetBytesSubarray(data: Bytes, start: int, n: int): Bytes {
    Subarray(data, start, start + n)
  }

  // -------------------------------------------------- symmetric encryption

  const NONCE_LENGTH := 16
  const SYMMETRIC_MAC_LENGTH := 16

  function SymmetricMac(c: Primitives, key: Bytes, nonce: Bytes, ciphertext: Bytes): Bytes {
    var cipherKey := c.hmac(key, nonce);
    Subarray(c.hmac(c.hmac(key, cipherKey), ciphertext), 0, SYMMETRIC_MAC_LENGTH)
  }

  function EncryptSymmetric(c: Primitives, key: Bytes, plaintext: Bytes, nonce: Bytes): Bytes {
    var ciphertext := c.encryptCbc(c.hmac(key, nonce), plaintext, Zeroes(16));
    nonce + ciphertext + SymmetricMac(c, key, nonce, ciphertext)
  }

  function DecryptSymmetric(c: Primitives, key: Bytes, data: Bytes): Result<Bytes, string> {
    var nonce := Subarray(data, 0, NONCE_LENGTH);
    var ciphertext := GetBytesSubarray(data, NONCE_LENGTH, |data| - NONCE_LENGTH - SYMMETRIC_MAC_LENGTH);
    var theirMac := GetBytesSubarray(data, |data| - SYMMETRIC_MAC_LENGTH, SYMMETRIC_MAC_LENGTH);
    if theirMac != SymmetricMac(c, key, nonce, ciphertext) then Err("MAC verification failed")
    else
      var plaintext := c.decryptCbc(c.hmac(key, nonce), ciphertext, Zeroes(16));
      if plaintext.None? then Err("decryption failed") else Ok(plaintext.value)
  }

  /** The three parts are found again whenever they are all there. */
  lemma SymmetricParts(nonce: Bytes, ciphertext: Bytes, mac: Bytes)
    requires |nonce| == NONCE_LENGTH && |mac| == SYMMETRIC_MAC_LENGTH
    ensures var data := nonce + ciphertext + mac;
            && Subarray(data, 0, NONCE_LENGTH) == nonce
            && GetBytesSubarray(data, NONCE_LENGTH, |data| - NONCE_LENGTH - SYMMETRIC_MAC_LENGTH) == ciphertext
            && GetBytesSubarray(data, |data| - SYMMETRIC_MAC_LENGTH, SYMMETRIC_MAC_LENGTH) == mac
  {
  }

  lemma SymmetricRoundTrip(c: Primitives, key: Bytes, plaintext: Bytes, nonce: Bytes)
    requires Sound(c) && |nonce| == NONCE_LENGTH
    ensures DecryptSymmetric(c, key, EncryptSymmetric(c, key, plaintext, nonce)) == Ok(plaintext)
  {
    var ciphertext := c.encryptCbc(c.hmac(key, nonce), plaintext, Zeroes(16));
    SymmetricParts(nonce, ciphertext, SymmetricMac(c, key, nonce, ciphertext));
  }

  /** Data is accepted only if its last 16 bytes are the MAC of what is before them;
      data that does not even have room for a MAC is refused. */
  lemma SymmetricAcceptsOnlyMacced(c: Primitives, key: Bytes, data: Bytes)
    requires Sound(c) && DecryptSymmetric(c, key, data).Ok?
    ensures |data| >= SYMMETRIC_MAC_LENGTH
    ensures |data| >= NONCE_LENGTH + SYMMETRIC_MAC_LENGTH ==>
              var n := |data| - SYMMETRIC_MAC_LENGTH;
              data == data[..n] + SymmetricMac(c, key, data[..NONCE_LENGTH], data[NONCE_LENGTH..n])
  {
    var theirMac := GetBytesSubarray(data, |data| - SYMMETRIC_MAC_LENGTH, SYMMETRIC_MAC_LENGTH);
    assert |theirMac| == 16;
    if |data| >= 32 {
      assert theirMac == data[|data| - 16..];
    }
  }

  /** The MAC of `nonce` and `ciphertext`, under a key made from that of the cipher. */
  ghost predicate IsSymmetricMac(c: Primitives, key: Bytes, nonce: Bytes, ciphertext: Bytes, mac: Bytes) {
    var macKey := c.hmac(key, c.hmac(key, nonce));
    |mac| == 16 && mac <= c.hmac(macKey, ciphertext)
  }

  /** What is encrypted: the nonce, the ciphertext under a key made from it, and their
      MAC. */
  lemma SymmetricFormat(c: Primitives, key: Bytes, plaintext: Bytes, nonce: Bytes)
    requires Sound(c) && |nonce| == 16
    ensures var data := EncryptSymmetric(c, key, plaintext, nonce);
            var ciphertext := c.encryptCbc(c.hmac(key, nonce), plaintext, Zeroes(16));
            && |data| == 32 + |ciphertext| && nonce + ciphertext <= data
            && IsSymmetricMac(c, key, nonce, ciphertext, data[|data| - 16..])
  {
  }

  /** The three parts of any data with room for a MAC; with less there is no MAC. */
  lemma PartsOfData(data: Bytes)
    ensures var nonce := Subarray(data, 0, NONCE_LENGTH);
            var ciphertext := GetBytesSubarray(data, NONCE_LENGTH, |data| - NONCE_LENGTH - SYMMETRIC_MAC_LENGTH);
            var theirMac := GetBytesSubarray(data, |data| - SYMMETRIC_MAC_LENGTH, SYMMETRIC_MAC_LENGTH);
            if |data| < 16 then |theirMac| < 16
            else
              var n := |data| - 16;
              nonce == data[..16] && theirMac == data[n..] && ciphertext == if n >= 16 then data[16..n] else []
  {
  }

  /** Which data is accepted, and as what: the last 16 bytes are the MAC of the first 16
      and of those between, none if the two overlap, and these decrypt. */
  lemma SymmetricAcceptedExactlyWhen(c: Primitives, key: Bytes, data: Bytes, plaintext: Bytes)
    requires Sound(c)
    ensures DecryptSymmetric(c, key, data) == Ok(plaintext) <==>
              && |data| >= 16
              && var n := |data| - 16;
              && var ciphertext := if n >= 16 then data[16..n] else [];
              && IsSymmetricMac(c, key, data[..16], ciphertext, data[n..])
              && c.decryptCbc(c.hmac(key, data[..16]), ciphertext, Zeroes(16)) == Some(plaintext)
  {
    var nonce := Subarray(data, 0, NONCE_LENGTH);
    var ciphertext := GetBytesSubarray(data, NONCE_LENGTH, |data| - NONCE_LENGTH - SYMMETRIC_MAC_LENGTH);
    var theirMac := GetBytesSubarray(data, |data| - SYMMETRIC_MAC_LENGTH, SYMMETRIC_MAC_LENGTH);
    PartsOfData(data);
    MacIs(c, key, nonce, ciphertext, theirMac);
    hide Subarray, GetBytesSubarray, SymmetricMac, IsSymmetricMac, Zeroes, Sound;
  }

  lemma MacIs(c: Primitives, key: Bytes, nonce: Bytes, ciphertext: Bytes, mac: Bytes)
    requires Sound(c)
    ensures mac == SymmetricMac(c, key, nonce, ciphertext) <==> IsSymmetricMac(c, key, nonce, ciphertext, mac)
    ensures |SymmetricMac(c, key, nonce, ciphertext)| == 16
  {
  }

  // ----------------------------------------------------------- attachments

  /** The first `length` bytes of our MAC, or nothing else, are accepted. */
  predicate MacAccepted(ourMac: Bytes, theirMac: Bytes, length: nat) {
    |theirMac| == length && length <= |ourMac| && theirMac == ourMac[..length]
  }

  /** A digest is compared over its own length; our digest counts as zero beyond its end. */
  predicate DigestAccepted(ourDigest: Bytes, theirDigest: Bytes) {
    forall i :: 0 <= i < |theirDigest| ==> theirDigest[i] == if i < |ourDigest| then ourDigest[i] else 0
  }

  /** The digests accepted are the right one, what is left when it is cut short, and
      either with zeros behind the full digest. */
  lemma AcceptedDigests(ourDigest: Bytes, theirDigest: Bytes)
    ensures DigestAccepted(ourDigest, theirDigest) <==>
              if |theirDigest| <= |ourDigest| then theirDigest == ourDigest[..|theirDigest|]
              else theirDigest == ourDigest + Zeroes(|theirDigest| - |ourDigest|)
  {
    if DigestAccepted(ourDigest, theirDigest) && |theirDigest| > |ourDigest| {
      assert theirDigest == ourDigest + Zeroes(|theirDigest| - |ourDigest|);
    }
  }

  /** Our digest cut short anywhere, so also to nothing, is accepted. */
  lemma CutDigestAccepted(ourDigest: Bytes, n: nat)
    requires n <= |ourDigest|
    ensures DigestAccepted(ourDigest, ourDigest[..n])
  {
  }

  function EncryptAttachment(c: Primitives, plaintext: Bytes, keys: Bytes, iv: Bytes): Result<Bytes, string> {
    if |keys| != 64 then Err("invalid length attachment keys")
    else
      var ivAndCiphertext := iv + c.encryptCbc(keys[..32], plaintext, iv);
      Ok(ivAndCiphertext + c.hmac(keys[32..], ivAndCiphertext))
  }

  function DecryptAttachmentV1(c: Primitives, bin: Bytes, keys: Bytes, theirDigest: Option<Bytes>): Result<Bytes, string> {
    if |keys| != 64 then Err("Got invalid length attachment keys")
    else if |bin| < 16 + 32 then Err("Got invalid length attachment")
    else
      var n := |bin| - 32;
      if !MacAccepted(c.hmac(keys[32..], bin[..n]), bin[n..], 32) then Err("Bad MAC")
      else if theirDigest.Some? && !DigestAccepted(c.sha256(bin), theirDigest.value) then Err("Bad digest")
      else
        var plaintext := c.decryptCbc(keys[..32], bin[16..n], bin[..16]);
        if plaintext.None? then Err("decryption failed") else Ok(plaintext.value)
  }

  lemma AttachmentRoundTrip(c: Primitives, plaintext: Bytes, keys: Bytes, iv: Bytes, theirDigest: Option<Bytes>)
    requires Sound(c) && |keys| == 64 && |iv| == 16
    ensures var bin := EncryptAttachment(c, plaintext, keys, iv).value;
            DecryptAttachmentV1(c, bin, keys, theirDigest) == Ok(plaintext) <==>
              theirDigest.None? || DigestAccepted(c.sha256(bin), theirDigest.value)
  {
    var ciphertext := c.encryptCbc(keys[..32], plaintext, iv);
    var bin := EncryptAttachment(c, plaintext, keys, iv).value;
    if theirDigest.None? || DigestAccepted(c.sha256(bin), theirDigest.value) {
      AttachmentIsAccepted(c, bin, keys, theirDigest, plaintext, iv, ciphertext);
    }
  }

  ghost predicate IsAttachment(c: Primitives, bin: Bytes, keys: Bytes, theirDigest: Option<Bytes>, plaintext: Bytes,
                               iv: Bytes, ciphertext: Bytes)
    requires |keys| == 64
  {
    && |iv| == 16 && c.decryptCbc(keys[..32], ciphertext, iv) == Some(plaintext)
    && bin == iv + ciphertext + c.hmac(keys[32..], iv + ciphertext)
    && (theirDigest.Some? ==> DigestAccepted(c.sha256(bin), theirDigest.value))
  }

  /** An attachment is accepted exactly when it is an initialization vector and a
      ciphertext that decrypts, followed by their MAC, and the digest is accepted. */
  lemma AttachmentAcceptedExactlyWhen(c: Primitives, bin: Bytes, keys: Bytes, theirDigest: Option<Bytes>, plaintext: Bytes)
    requires Sound(c) && |keys| == 64
    ensures DecryptAttachmentV1(c, bin, keys, theirDigest) == Ok(plaintext) <==>
              exists iv, ciphertext :: IsAttachment(c, bin, keys, theirDigest, plaintext, iv, ciphertext)
  {
    if DecryptAttachmentV1(c, bin, keys, theirDigest) == Ok(plaintext) {
      AcceptedIsAttachment(c, bin, keys, theirDigest, plaintext);
    }
    if iv, ciphertext :| IsAttachment(c, bin, keys, theirDigest, plaintext, iv, ciphertext) {
      AttachmentIsAccepted(c, bin, keys, theirDigest, plaintext, iv, ciphertext);
    }
  }

  lemma AcceptedIsAttachment(c: Primitives, bin: Bytes, keys: Bytes, theirDigest: Option<Bytes>, plaintext: Bytes)
    requires Sound(c) && |keys| == 64 && DecryptAttachmentV1(c, bin, keys, theirDigest) == Ok(plaintext)
    ensures |bin| >= 48
    ensures IsAttachment(c, bin, keys, theirDigest, plaintext, bin[..16], bin[16..|bin| - 32])
  {
    var n := |bin| - 32;
    assert bin[..16] + bin[16..n] == bin[..n];
    var ourMac := c.hmac(keys[32..], bin[..n]);
    assert ourMac[..32] == ourMac;
    assert bin == bin[..n] + bin[n..];
  }

  lemma AttachmentIsAccepted(c: Primitives, bin: Bytes, keys: Bytes, theirDigest: Option<Bytes>, plaintext: Bytes,
                             iv: Bytes, ciphertext: Bytes)
    requires Sound(c) && |keys| == 64 && IsAttachment(c, bin, keys, theirDigest, plaintext, iv, ciphertext)
    ensures DecryptAttachmentV1(c, bin, keys, theirDigest) == Ok(plaintext)
  {
    var both := iv + ciphertext;
    var mac := c.hmac(keys[32..], both);
    var n := |bin| - 32;
    assert |mac| == 32 && mac[..32] == mac;
    assert bin == both + mac && bin[..n] == both && bin[n..] == mac;
    assert bin[..16] == iv && bin[16..n] == ciphertext;
  }

  /** What is encrypted, and that either way needs a key for the cipher and one for
      the MAC. */
  lemma AttachmentFormat(c: Primitives, plaintext: Bytes, keys: Bytes, iv: Bytes, bin: Bytes, theirDigest: Option<Bytes>)
    ensures EncryptAttachment(c, plaintext, keys, iv) == Ok(bin) <==>
              && |keys| == 64
              && var ciphertext := c.encryptCbc(keys[..32], plaintext, iv);
              bin == iv + ciphertext + c.hmac(keys[32..], iv + ciphertext)
    ensures |keys| != 64 ==> DecryptAttachmentV1(c, bin, keys, theirDigest).Err?
  {
  }

  // --------------------------------------------------------------- profiles

  const PROFILE_IV_LENGTH := 12
  const PROFILE_KEY_LENGTH := 32

  function EncryptProfile(c: Primitives, data: Bytes, key: Bytes, iv: Bytes): Result<Bytes, string> {
    if |key| != PROFILE_KEY_LENGTH then Err("Got invalid length profile key")
    else if |iv| != PROFILE_IV_LENGTH then Err("Got invalid length profile iv")
    else Ok(iv + c.encryptGcm(key, data, iv))
  }

  function DecryptProfile(c: Primitives, data: Bytes, key: Bytes): Result<Bytes, string> {
    if |data| < 12 + 16 + 1 then Err("Got too short input")
    else if |key| != PROFILE_KEY_LENGTH then Err("Got invalid length profile key")
    else
      var plaintext := c.decryptGcm(key, data[PROFILE_IV_LENGTH..], data[..PROFILE_IV_LENGTH]);
      if plaintext.None? then Err("Failed to decrypt profile data") else Ok(plaintext.value)
  }

  /** Profile data comes back exactly when it is not empty. */
  lemma ProfileRoundTripExactlyWhen(c: Primitives, data: Bytes, key: Bytes, iv: Bytes)
    requires Sound(c) && |key| == PROFILE_KEY_LENGTH && |iv| == PROFILE_IV_LENGTH
    ensures EncryptProfile(c, data, key, iv).Ok?
    ensures DecryptProfile(c, EncryptProfile(c, data, key, iv).value, key) == Ok(data) <==> data != []
  {
    var ciphertext := c.encryptGcm(key, data, iv);
    var all := iv + ciphertext;
    assert |ciphertext| == |data| + 16 && c.decryptGcm(key, ciphertext, iv) == Some(data);
    assert all[..PROFILE_IV_LENGTH] == iv && all[PROFILE_IV_LENGTH..] == ciphertext;
  }

  /** What is encrypted, and which data is accepted, exactly. */
  lemma ProfileAcceptedExactlyWhen(c: Primitives, data: Bytes, key: Bytes, iv: Bytes, result: Bytes)
    ensures EncryptProfile(c, data, key, iv) == Ok(result) <==>
              |key| == 32 && |iv| == 12 && result == iv + c.encryptGcm(key, data, iv)
    ensures DecryptProfile(c, data, key) == Ok(result) <==>
              |key| == 32 && |data| > 28 && c.decryptGcm(key, data[12..], data[..12]) == Some(result)
  {
  }

  /** The first length that is long enough. */
  function FindLength(lengths: seq<nat>, n: nat): Option<nat> {
    if lengths == [] then None
    else if n <= lengths[0] then Some(lengths[0])
    else FindLength(lengths[1..], n)
  }

  function Padded(item: Bytes, lengths: seq<nat>): Option<Bytes> {
    var length := FindLength(lengths, |item|);
    if length.None? || length.value == 0 then None
    else if |item| <= length.value then Some(item + Zeroes(length.value - |item|))
    else None
  }

  /** Position `i` has the first length that is enough for `n` bytes. */
  ghost predicate FirstFit(lengths: seq<nat>, n: nat, i: nat) {
    i < |lengths| && n <= lengths[i] && forall j :: 0 <= j < i ==> lengths[j] < n
  }

  lemma {:induction false} FindLengthFits(lengths: seq<nat>, n: nat)
    ensures FindLength(lengths, n).Some? <==> exists l :: l in lengths && n <= l
    ensures FindLength(lengths, n).Some? ==> FindLength(lengths, n).value in lengths && n <= FindLength(lengths, n).value
  {
    if lengths != [] {
      FindLengthFits(lengths[1..], n);
      assert lengths == [lengths[0]] + lengths[1..];
      if FindLength(lengths, n).Some? {
        var l := FindLength(lengths, n).value;
        assert l in lengths && n <= l;
      }
    }
  }

  lemma {:induction false} FindLengthIsFirst(lengths: seq<nat>, n: nat)
    requires FindLength(lengths, n).Some?
    ensures exists i: nat :: FirstFit(lengths, n, i) && FindLength(lengths, n).value == lengths[i]
  {
    if n <= lengths[0] {
      assert FirstFit(lengths, n, 0);
    } else {
      var rest := lengths[1..];
      FindLengthIsFirst(rest, n);
      var i: nat :| FirstFit(rest, n, i) && FindLength(rest, n).value == rest[i];
      assert forall j :: 0 < j < |lengths| ==> lengths[j] == rest[j - 1];
      assert FirstFit(lengths, n, i + 1);
    }
  }

  /** An item is padded with zeros to the first length that is enough for it, and never
      to nothing. */
  lemma PaddedExactlyWhen(item: Bytes, lengths: seq<nat>, padded: Bytes)
    ensures Padded(item, lengths) == Some(padded) <==>
              && padded != [] && |item| <= |padded| && padded[..|item|] == item
              && (forall k :: |item| <= k < |padded| ==> padded[k] == 0)
              && exists i: nat :: FirstFit(lengths, |item|, i) && lengths[i] == |padded|
  {
    FindLengthFits(lengths, |item|);
    assert forall i: nat :: FirstFit(lengths, |item|, i) ==> lengths[i] in lengths;
    var length := FindLength(lengths, |item|);
    if length.Some? {
      FindLengthIsFirst(lengths, |item|);
      var i: nat :| FirstFit(lengths, |item|, i) && length.value == lengths[i];
      assert forall j: nat :: FirstFit(lengths, |item|, j) ==> j == i;
      var whole := item + Zeroes(length.value - |item|);
      assert whole[..|item|] == item;
      if |padded| == |whole| && padded[..|item|] == item && (forall k :: |item| <= k < |padded| ==> padded[k] == 0) {
        assert padded == whole;
      }
    }
  }

  // ------------------------------------------------------------ profile names

  predicate ZeroFree(b: Bytes) {
    forall i :: 0 <= i < |b| ==> b[i] != 0
  }

  /** The position of the first zero from `i` on, or the end. */
  function FirstZero(b: Bytes, i: nat): (n: nat)
    requires i <= |b|
    ensures i <= n <= |b| && ZeroFree(b[i..n]) && (n < |b| ==> b[n] == 0)
    decreases |b| - i
  {
    if i < |b| && b[i] != 0 then
      var n := FirstZero(b, i + 1);
      assert b[i..n] == [b[i]] + b[i + 1..n];
      n
    else i
  }

  lemma FirstZeroIs(b: Bytes, i: nat, n: nat)
    requires i <= n <= |b| && ZeroFree(b[i..n]) && (n < |b| ==> b[n] == 0)
    ensures FirstZero(b, i) == n
  {
    var m := FirstZero(b, i);
    assert forall k :: i <= k < n ==> b[k] == b[i..n][k - i] && b[k] != 0;
    assert forall k :: i <= k < m ==> b[k] == b[i..m][k - i] && b[k] != 0;
  }

  datatype Name = Name(given: Bytes, family: Option<Bytes>)

  function ParseName(padded: Bytes): Name {
    var givenEnd := FirstZero(padded, 0);
    var familyStart := givenEnd + 1;
    var familyEnd := if familyStart <= |padded| then FirstZero(padded, familyStart) else familyStart;
    Name(padded[..givenEnd], if familyEnd > familyStart then Some(padded[familyStart..familyEnd]) else None)
  }

  /** The non-empty names, joined by a zero. */
  function FullName(given: Bytes, family: Bytes): Bytes {
    if given == [] then family
    else if family == [] then given
    else given + [0] + family
  }

  function AsName(given: Bytes, family: Bytes): Name {
    Name(given, if family == [] then None else Some(family))
  }

  lemma ParseGivenOnly(given: Bytes, zeros: nat)
    requires ZeroFree(given)
    ensures ParseName(given + Zeroes(zeros)) == Name(given, None)
  {
    var padded := given + Zeroes(zeros);
    assert padded[0..|given|] == given;
    FirstZeroIs(padded, 0, |given|);
    if |given| + 1 <= |padded| {
      assert padded[|given| + 1..|given| + 1] == [];
      FirstZeroIs(padded, |given| + 1, |given| + 1);
    }
  }

  lemma ParseBoth(given: Bytes, family: Bytes, zeros: nat)
    requires ZeroFree(given) && ZeroFree(family) && family != []
    ensures ParseName(given + [0] + family + Zeroes(zeros)) == Name(given, Some(family))
  {
    var padded := given + [0] + family + Zeroes(zeros);
    var start := |given| + 1;
    assert padded[0..|given|] == given;
    FirstZeroIs(padded, 0, |given|);
    assert padded[start..start + |family|] == family;
    FirstZeroIs(padded, start, start + |family|);
  }

  /** What the two names are, whatever is behind them: up to the first zero, and from
      there up to the next; every string of bytes is of this form, or has no zero. */
  lemma NamesExactly(given: Bytes, family: Bytes, rest: Bytes)
    requires ZeroFree(given) && ZeroFree(family) && (rest == [] || rest[0] == 0)
    ensures ParseName(given + [0] + family + rest) == Name(given, if family == [] then None else Some(family))
    ensures ParseName(given) == Name(given, None)
  {
    assert given[0..|given|] == given;
    FirstZeroIs(given, 0, |given|);
    var padded := given + [0] + family + rest;
    var start := |given| + 1;
    assert padded[0..|given|] == given;
    FirstZeroIs(padded, 0, |given|);
    assert padded[start..start + |family|] == family;
    FirstZeroIs(padded, start, start + |family|);
  }

  /** Names without zeros, padded to any length, come back exactly when there is a
      given name, or none at all: a family name alone comes back as the given name. */
  lemma NameComesBackExactlyWhen(given: Bytes, family: Bytes, zeros: nat)
    requires ZeroFree(given) && ZeroFree(family)
    ensures ParseName(FullName(given, family) + Zeroes(zeros)) == AsName(given, family) <==> given != [] || family == []
    ensures given == [] ==> ParseName(FullName(given, family) + Zeroes(zeros)) == Name(family, None)
  {
    if given == [] || family == [] {
      ParseGivenOnly(if given == [] then family else given, zeros);
    } else {
      ParseBoth(given, family, zeros);
    }
  }

  /** From the encrypted name to the two names. */
  function DecryptProfileName(c: Primitives, data: Bytes, key: Bytes): Result<Name, string> {
    var padded := DecryptProfile(c, data, key);
    if padded.Err? then Err(padded.error) else Ok(ParseName(padded.value))
  }

  function EncryptItem(c: Primitives, item: Bytes, key: Bytes, lengths: seq<nat>, iv: Bytes): Result<Bytes, string> {
    var padded := Padded(item, lengths);
    if padded.None? then Err("Oversized value") else EncryptProfile(c, padded.value, key, iv)
  }

  /** A profile name that fits one of the lengths comes back from its encrypted form,
      again exactly when it has a given name or is empty. */
  lemma ProfileNameRoundTrip(c: Primitives, given: Bytes, family: Bytes, key: Bytes, lengths: seq<nat>, iv: Bytes)
    requires Sound(c) && |key| == PROFILE_KEY_LENGTH && |iv| == PROFILE_IV_LENGTH
    requires ZeroFree(given) && ZeroFree(family)
    requires 0 !in lengths && exists l :: l in lengths && |FullName(given, family)| <= l
    ensures var data := EncryptItem(c, FullName(given, family), key, lengths, iv);
            && data.Ok?
            && (DecryptProfileName(c, data.value, key) == Ok(AsName(given, family)) <==> given != [] || family == [])
  {
    var name := FullName(given, family);
    FindLengthFits(lengths, |name|);
    var zeros := FindLength(lengths, |name|).value - |name|;
    assert Padded(name, lengths) == Some(name + Zeroes(zeros));
    ProfileRoundTripExactlyWhen(c, name + Zeroes(zeros), key, iv);
    NameComesBackExactlyWhen(given, family, zeros);
  }
}
