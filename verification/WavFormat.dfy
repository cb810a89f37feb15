/** The WAV file that a recording is exported to: 16-bit PCM, two channels, little
    endian ('Waveform Audio File Format (WAVE)', IBM/Microsoft Multimedia
    Programming Interface and Data Specifications 1.0).  Samples are real numbers. */
module WavFormat {
  import opened Common

  type Octet = x: int | 0 <= x < 256

  // ---------------------------------------------------------------- writing

  function Clamp(x: real): (s: real)
    ensures -1.0 <= s <= 1.0
  {
    if x > 1.0 then 1.0 else if x < -1.0 then -1.0 else x
  }

  /** The 16-bit value of a sample. */
  function Pcm16(x: real): (n: int)
    ensures -32768 <= n <= 32767
  {
    var s := Clamp(x);
    Trunc(if s < 0.0 then s * 32768.0 else s * 32767.0)
  }

  function LE16(n: int): (b: seq<Octet>)
    ensures |b| == 2
  {
    var u := n % 0x1_0000;
    [u % 256, u / 256]
  }

  function LE32(n: int): (b: seq<Octet>)
    ensures |b| == 4
  {
    var u := n % 0x1_0000_0000;
    [u % 256, u / 0x100 % 256, u / 0x1_0000 % 256, u / 0x100_0000]
  }

  function Ascii(text: string): (b: seq<Octet>)
    requires forall i :: 0 <= i < |text| ==> text[i] < 128 as char
    ensures |b| == |text|
    ensures forall i :: 0 <= i < |text| ==> b[i] == text[i] as int
  {
    if text == [] then [] else Ascii(text[..|text| - 1]) + [text[|text| - 1] as int]
  }

  function PcmBytes(samples: seq<real>): (b: seq<Octet>)
    ensures |b| == 2 * |samples|
  {
    if samples == [] then []
    else PcmBytes(samples[..|samples| - 1]) + LE16(Pcm16(samples[|samples| - 1]))
  }

  function RiffHeader(n: nat): (b: seq<Octet>)
    ensures |b| == 12
  {
    Ascii("RIFF") + LE32(36 + n * 2) + Ascii("WAVE")
  }

  function FormatChunk(sampleRate: nat): (b: seq<Octet>)
    ensures |b| == 24
  {
    Ascii("fmt ") + LE32(16) + LE16(1) + LE16(2) + LE32(sampleRate) + LE32(sampleRate * 4) + LE16(4) + LE16(16)
  }

  function DataHeader(n: nat): (b: seq<Octet>)
    ensures |b| == 8
  {
    Ascii("data") + LE32(n * 2)
  }

  function Header(sampleRate: nat, n: nat): (b: seq<Octet>)
    ensures |b| == 44
  {
    RiffHeader(n) + FormatChunk(sampleRate) + DataHeader(n)
  }

  function Wav(sampleRate: nat, samples: seq<real>): (b: seq<Octet>)
    ensures |b| == 44 + 2 * |samples|
  {
    Header(sampleRate, |samples|) + PcmBytes(samples)
  }

  function Interleaved(left: seq<real>, right: seq<real>): (s: seq<real>)
    requires |left| == |right|
    ensures |s| == 2 * |left|
  {
    if left == [] then []
    else
      var k := |left| - 1;
      Interleaved(left[..k], right[..k]) + [left[k], right[k]]
  }

  /** The 16-bit value of a sample: the 15-bit fraction, cut off towards zero; full scale
      on either side is the end of the range, as is everything beyond. */
  lemma Pcm16Exactly(x: real)
    ensures 0.0 <= x <= 1.0 ==> Pcm16(x) as real <= x * 32767.0 < Pcm16(x) as real + 1.0
    ensures -1.0 <= x <= 0.0 ==> Pcm16(x) as real - 1.0 < x * 32768.0 <= Pcm16(x) as real
    ensures x >= 1.0 ==> Pcm16(x) == 32767
    ensures x <= -1.0 ==> Pcm16(x) == -32768
  {
  }

  // ---------------------------------------------------------------- reading

  function ReadU32(b: seq<Octet>, at: nat): int
    requires at + 4 <= |b|
  {
    var b0: int, b1: int, b2: int, b3: int := b[at], b[at + 1], b[at + 2], b[at + 3];
    b0 + 0x100 * b1 + 0x1_0000 * b2 + 0x100_0000 * b3
  }

  function ReadU16(b: seq<Octet>, at: nat): int
    requires at + 2 <= |b|
  {
    var b0: int, b1: int := b[at], b[at + 1];
    b0 + 0x100 * b1
  }

  function ReadI16(b: seq<Octet>, at: nat): int
    requires at + 2 <= |b|
  {
    var u := ReadU16(b, at);
    if u < 0x8000 then u else u - 0x1_0000
  }

  /** The bytes `field` are in `b` at position `at`. */
  predicate Has(b: seq<Octet>, at: nat, field: seq<Octet>) {
    at + |field| <= |b| && b[at..at + |field|] == field
  }

  lemma ReadsU32(b: seq<Octet>, at: nat, n: int)
    requires Has(b, at, LE32(n))
    ensures ReadU32(b, at) == n % 0x1_0000_0000
  {
    var f, u := LE32(n), n % 0x1_0000_0000;
    assert b[at..at + 4][0] == f[0] && b[at..at + 4][1] == f[1] && b[at..at + 4][2] == f[2] && b[at..at + 4][3] == f[3];
    assert f == [u % 256, u / 0x100 % 256, u / 0x1_0000 % 256, u / 0x100_0000];
    hide LE32, Has;
    FourBytes(u);
  }

  lemma FourBytes(u: int)
    requires 0 <= u < 0x1_0000_0000
    ensures u % 256 + 0x100 * (u / 0x100 % 256) + 0x1_0000 * (u / 0x1_0000 % 256) + 0x100_0000 * (u / 0x100_0000) == u
  {
    var a, b := u / 0x100, u / 0x1_0000;
    assert u == 256 * a + u % 256;
    assert a == 256 * b + a % 256;
  }

  lemma ReadsI16(b: seq<Octet>, at: nat, n: int)
    requires Has(b, at, LE16(n))
    ensures ReadU16(b, at) == n % 0x1_0000
    ensures -0x8000 <= n < 0x8000 ==> ReadI16(b, at) == n
  {
    var f := LE16(n);
    assert forall i :: 0 <= i < 2 ==> b[at + i] == f[i];
    assert b[at] == f[0] && b[at + 1] == f[1];
  }

  lemma {:induction false} PcmBytesAt(samples: seq<real>, k: nat)
    requires k < |samples|
    ensures Has(PcmBytes(samples), 2 * k, LE16(Pcm16(samples[k])))
  {
    var last := |samples| - 1;
    if k < last {
      PcmBytesAt(samples[..last], k);
    }
  }

  lemma {:induction false} InterleavedAt(left: seq<real>, right: seq<real>, k: nat)
    requires |left| == |right| && k < |left|
    ensures Interleaved(left, right)[2 * k] == left[k] && Interleaved(left, right)[2 * k + 1] == right[k]
  {
    var last := |left| - 1;
    if k < last {
      InterleavedAt(left[..last], right[..last], k);
    }
  }

  lemma WavParts(sampleRate: nat, samples: seq<real>)
    ensures Wav(sampleRate, samples)[..44] == Header(sampleRate, |samples|)
    ensures Wav(sampleRate, samples)[44..] == PcmBytes(samples)
  {
    hide Header, PcmBytes;
  }

  lemma SampleReadsBack(sampleRate: nat, samples: seq<real>, k: nat)
    requires k < |samples|
    ensures ReadI16(Wav(sampleRate, samples), 44 + 2 * k) == Pcm16(samples[k])
  {
    hide *;
    var b := Wav(sampleRate, samples);
    PcmBytesAt(samples, k);
    WavParts(sampleRate, samples);
    assert b[44..44 + |PcmBytes(samples)|] == b[44..];
    HasWithin(b, 44, PcmBytes(samples), 2 * k, LE16(Pcm16(samples[k])));
    ReadsI16(b, 44 + 2 * k, Pcm16(samples[k]));
  }

  /** The file read back: frame `k` has the two samples recorded in that place. */
  lemma FrameReadsBack(sampleRate: nat, left: seq<real>, right: seq<real>, k: nat)
    requires |left| == |right| && k < |left|
    ensures var b := Wav(sampleRate, Interleaved(left, right));
            && |b| == 44 + 4 * |left|
            && ReadI16(b, 44 + 4 * k) == Pcm16(left[k])
            && ReadI16(b, 44 + 4 * k + 2) == Pcm16(right[k])
  {
    hide *;
    var samples := Interleaved(left, right);
    InterleavedAt(left, right, k);
    SampleReadsBack(sampleRate, samples, 2 * k);
    SampleReadsBack(sampleRate, samples, 2 * k + 1);
    assert 44 + 2 * (2 * k) == 44 + 4 * k && 44 + 2 * (2 * k + 1) == 44 + 4 * k + 2;
  }

  /** A field of the header, read in the file. */
  lemma FieldInFile(sampleRate: nat, samples: seq<real>, at: nat, chunk: seq<Octet>, inChunk: nat, field: seq<Octet>)
    requires at + |chunk| <= 44 && Header(sampleRate, |samples|)[at..at + |chunk|] == chunk
    requires Has(chunk, inChunk, field)
    ensures Has(Wav(sampleRate, samples), at + inChunk, field)
  {
    WavParts(sampleRate, samples);
    HasWithin(Header(sampleRate, |samples|), at, chunk, inChunk, field);
    HasWithin(Wav(sampleRate, samples), 0, Header(sampleRate, |samples|), at + inChunk, field);
  }

  lemma HasWithin(b: seq<Octet>, at: nat, part: seq<Octet>, i: nat, field: seq<Octet>)
    requires at + |part| <= |b| && b[at..at + |part|] == part && Has(part, i, field)
    ensures Has(b, at + i, field)
  {
    var slice := b[at + i..at + i + |field|];
    forall j | 0 <= j < |field|
      ensures slice[j] == field[j]
    {
      assert slice[j] == b[at + (i + j)] == b[at..at + |part|][i + j] == part[i + j];
      assert part[i..i + |field|][j] == part[i + j];
    }
  }

  lemma ChunksInHeader(sampleRate: nat, n: nat)
    ensures var h := Header(sampleRate, n);
            h[0..12] == RiffHeader(n) && h[12..36] == FormatChunk(sampleRate) && h[36..44] == DataHeader(n)
  {
    hide RiffHeader, FormatChunk, DataHeader;
  }

  lemma FieldsInChunks(sampleRate: nat, n: nat)
    ensures Has(RiffHeader(n), 4, LE32(36 + n * 2)) && Has(DataHeader(n), 4, LE32(n * 2))
    ensures var f := FormatChunk(sampleRate);
            && Has(f, 8, LE16(1)) && Has(f, 10, LE16(2)) && Has(f, 12, LE32(sampleRate))
            && Has(f, 16, LE32(sampleRate * 4)) && Has(f, 20, LE16(4)) && Has(f, 22, LE16(16))
  {
    hide LE16, LE32, Ascii;
  }

  lemma SizesRead(sampleRate: nat, samples: seq<real>)
    ensures var b, n := Wav(sampleRate, samples), |samples|;
            ReadU32(b, 4) == (36 + n * 2) % 0x1_0000_0000 && ReadU32(b, 40) == n * 2 % 0x1_0000_0000
  {
    var b, n := Wav(sampleRate, samples), |samples|;
    ChunksInHeader(sampleRate, n);
    FieldsInChunks(sampleRate, n);
    hide *;
    FieldInFile(sampleRate, samples, 0, RiffHeader(n), 4, LE32(36 + n * 2));
    FieldInFile(sampleRate, samples, 36, DataHeader(n), 4, LE32(n * 2));
    ReadsU32(b, 4, 36 + n * 2);
    ReadsU32(b, 40, n * 2);
  }

  lemma FormatReads(sampleRate: nat, samples: seq<real>)
    ensures var b := Wav(sampleRate, samples);
            && ReadU16(b, 20) == 1 && ReadU16(b, 22) == 2 && ReadU16(b, 32) == 4 && ReadU16(b, 34) == 16
            && ReadU32(b, 24) == sampleRate % 0x1_0000_0000 && ReadU32(b, 28) == sampleRate * 4 % 0x1_0000_0000
  {
    var b, f := Wav(sampleRate, samples), FormatChunk(sampleRate);
    ChunksInHeader(sampleRate, |samples|);
    FieldsInChunks(sampleRate, |samples|);
    hide *;
    FieldInFile(sampleRate, samples, 12, f, 8, LE16(1));
    FieldInFile(sampleRate, samples, 12, f, 10, LE16(2));
    FieldInFile(sampleRate, samples, 12, f, 12, LE32(sampleRate));
    FieldInFile(sampleRate, samples, 12, f, 16, LE32(sampleRate * 4));
    FieldInFile(sampleRate, samples, 12, f, 20, LE16(4));
    FieldInFile(sampleRate, samples, 12, f, 22, LE16(16));
    ReadsI16(b, 20, 1);
    ReadsI16(b, 22, 2);
    ReadsU32(b, 24, sampleRate);
    ReadsU32(b, 28, sampleRate * 4);
    ReadsI16(b, 32, 4);
    ReadsI16(b, 34, 16);
  }

  /** The text stands in the file from position `at` on. */
  ghost predicate Spells(b: seq<Octet>, at: nat, text: string) {
    at + |text| <= |b| && forall i {:trigger text[i]} :: 0 <= i < |text| ==> b[at + i] == text[i] as int
  }

  lemma FieldSpells(sampleRate: nat, samples: seq<real>, at: nat, chunk: seq<Octet>, inChunk: nat, text: string)
    requires at + |chunk| <= 44 && Header(sampleRate, |samples|)[at..at + |chunk|] == chunk
    requires (forall i :: 0 <= i < |text| ==> text[i] < 128 as char) && Has(chunk, inChunk, Ascii(text))
    ensures Spells(Wav(sampleRate, samples), at + inChunk, text)
  {
    hide Header, Wav, Ascii;
    FieldInFile(sampleRate, samples, at, chunk, inChunk, Ascii(text));
    var b, start := Wav(sampleRate, samples), at + inChunk;
    forall i | 0 <= i < |text|
      ensures b[start + i] == text[i] as int
    {
      assert b[start + i] == b[start..start + |text|][i] == Ascii(text)[i];
    }
  }

  lemma NamesInRiff(sampleRate: nat, samples: seq<real>)
    ensures Spells(Wav(sampleRate, samples), 0, "RIFF") && Spells(Wav(sampleRate, samples), 8, "WAVE")
  {
    var n := |samples|;
    ChunksInHeader(sampleRate, n);
    hide Header, Wav, LE32, Ascii, Spells;
    assert Has(RiffHeader(n), 0, Ascii("RIFF")) && Has(RiffHeader(n), 8, Ascii("WAVE"));
    FieldSpells(sampleRate, samples, 0, RiffHeader(n), 0, "RIFF");
    FieldSpells(sampleRate, samples, 0, RiffHeader(n), 8, "WAVE");
  }

  lemma NamesOfChunks(sampleRate: nat, samples: seq<real>)
    ensures Spells(Wav(sampleRate, samples), 12, "fmt ") && Spells(Wav(sampleRate, samples), 36, "data")
  {
    var n := |samples|;
    ChunksInHeader(sampleRate, n);
    hide Header, Wav, LE32, LE16, Ascii, Spells;
    assert Has(FormatChunk(sampleRate), 0, Ascii("fmt ")) && Has(DataHeader(n), 0, Ascii("data"));
    FieldSpells(sampleRate, samples, 12, FormatChunk(sampleRate), 0, "fmt ");
    FieldSpells(sampleRate, samples, 36, DataHeader(n), 0, "data");
  }

  lemma FormatSize(sampleRate: nat, samples: seq<real>)
    ensures ReadU32(Wav(sampleRate, samples), 16) == 16
  {
    ChunksInHeader(sampleRate, |samples|);
    hide Header, Wav, LE32, LE16, Ascii, ReadU32;
    assert Has(FormatChunk(sampleRate), 4, LE32(16));
    FieldInFile(sampleRate, samples, 12, FormatChunk(sampleRate), 4, LE32(16));
    ReadsU32(Wav(sampleRate, samples), 16, 16);
  }

  /** The names of the chunks, each in its place, and the size of the format chunk. */
  lemma ChunkNames(sampleRate: nat, samples: seq<real>)
    ensures var b := Wav(sampleRate, samples);
            && Spells(b, 0, "RIFF") && Spells(b, 8, "WAVE") && Spells(b, 12, "fmt ") && Spells(b, 36, "data")
            && ReadU32(b, 16) == 16
  {
    hide *;
    NamesInRiff(sampleRate, samples);
    NamesOfChunks(sampleRate, samples);
    FormatSize(sampleRate, samples);
  }

  /** The declared sizes are those of the file. */
  predicate SizesAgree(b: seq<Octet>)
    requires |b| >= 44
  {
    ReadU32(b, 4) == |b| - 8 && ReadU32(b, 40) == |b| - 44
  }

  predicate RatesAgree(b: seq<Octet>, sampleRate: nat)
    requires |b| >= 44
  {
    ReadU32(b, 24) == sampleRate && ReadU32(b, 28) == sampleRate * ReadU16(b, 32)
  }

  /** Sizes and rates in the file are right exactly as long as they fit in 32 bits;
      the format is always 16-bit PCM with two channels. */
  lemma SizesRightExactlyWhen(sampleRate: nat, samples: seq<real>)
    ensures var b := Wav(sampleRate, samples);
            && (SizesAgree(b) <==> |b| - 8 < 0x1_0000_0000)
            && (RatesAgree(b, sampleRate) <==> sampleRate * 4 < 0x1_0000_0000)
            && ReadU16(b, 20) == 1 && ReadU16(b, 22) == 2 && ReadU16(b, 32) == 4 && ReadU16(b, 34) == 16
  {
    SizesRead(sampleRate, samples);
    FormatReads(sampleRate, samples);
    hide Wav, ReadU32, ReadU16;
    FitsExactlyWhen(36 + |samples| * 2);
    FitsExactlyWhen(|samples| * 2);
    FitsExactlyWhen(sampleRate);
    FitsExactlyWhen(sampleRate * 4);
  }

  lemma FitsExactlyWhen(n: nat)
    ensures n % 0x1_0000_0000 == n <==> n < 0x1_0000_0000
  {
  }

  /** Every frame of the file decodes to the samples of the two channels. */
  ghost predicate Plays(b: seq<Octet>, left: seq<real>, right: seq<real>) {
    && |left| == |right| && |b| == 44 + 4 * |left|
    && forall k :: 0 <= k < |left| ==>
         ReadI16(b, 44 + 4 * k) == Pcm16(left[k]) && ReadI16(b, 44 + 4 * k + 2) == Pcm16(right[k])
  }

  lemma FilePlays(sampleRate: nat, left: seq<real>, right: seq<real>)
    requires |left| == |right|
    ensures Plays(Wav(sampleRate, Interleaved(left, right)), left, right)
  {
    hide Wav, Interleaved, ReadI16, Pcm16;
    forall k | 0 <= k < |left|
      ensures var b := Wav(sampleRate, Interleaved(left, right));
              ReadI16(b, 44 + 4 * k) == Pcm16(left[k]) && ReadI16(b, 44 + 4 * k + 2) == Pcm16(right[k])
    {
      FrameReadsBack(sampleRate, left, right, k);
    }
  }
}
