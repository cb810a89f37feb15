/** The recorder worker: channel buffers, and the export of a WAV file. */
module Recorders {
  import opened Common
  import opened WavFormat

  function Concat(buffers: seq<seq<real>>): seq<real> {
    if buffers == [] then [] else Concat(buffers[..|buffers| - 1]) + buffers[|buffers| - 1]
  }

  class Recorder {
    var recLength: nat
    var recBuffersL: seq<seq<real>>
    var recBuffersR: seq<seq<real>>
    var sampleRate: nat

    /** What was recorded in each channel since the last `clear`. */
    ghost function Left(): seq<real>
      reads this
    {
      Concat(recBuffersL)
    }

    ghost function Right(): seq<real>
      reads this
    {
      Concat(recBuffersR)
    }

    ghost predicate Valid()
      reads this
    {
      recLength == |Left()|
    }

    constructor (sampleRate: nat)
      ensures Valid() && Left() == [] && Right() == [] && this.sampleRate == sampleRate
    {
      recLength, recBuffersL, recBuffersR := 0, [], [];
      this.sampleRate := sampleRate;
    }

    /** The length counted is that of the left channel. */
    method Record(left: seq<real>, right: seq<real>)
      requires Valid()
      modifies this`recLength, this`recBuffersL, this`recBuffersR
      ensures Valid() && Left() == old(Left()) + left && Right() == old(Right()) + right
    {
      recBuffersL := recBuffersL + [left];
      recBuffersR := recBuffersR + [right];
      recLength := recLength + |left|;
      assert recBuffersL[..|recBuffersL| - 1] == old(recBuffersL);
      assert recBuffersR[..|recBuffersR| - 1] == old(recBuffersR);
    }

    method Clear()
      modifies this`recLength, this`recBuffersL, this`recBuffersR
      ensures Valid() && Left() == [] && Right() == []
    {
      recLength, recBuffersL, recBuffersR := 0, [], [];
    }

    /** The file of all that was recorded since the last `clear`.  A right channel
        that is too short is filled up with silence; one that is too long throws. */
    method ExportWAV() returns (file: Option<array<Octet>>)
      requires Valid()
      ensures file.None? <==> |Right()| > |Left()|
      ensures file.Some? ==>
                && file.value[..] == Wav(sampleRate, Interleaved(Left(), FilledUp(Right(), |Left()|)))
                && Plays(file.value[..], Left(), FilledUp(Right(), |Left()|))
                && (SizesAgree(file.value[..]) <==> file.value.Length - 8 < 0x1_0000_0000)
                && (RatesAgree(file.value[..], sampleRate) <==> sampleRate * 4 < 0x1_0000_0000)
    {
      hide Wav, Interleaved, Plays, SizesAgree, RatesAgree;
      var bufferL := MergeBuffers(recBuffersL, recLength);
      if bufferL.None? {
        return None;
      }
      var bufferR := MergeBuffers(recBuffersR, recLength);
      if bufferR.None? {
        return None;
      }
      NothingToFill(Left());
      var interleaved := Interleave(bufferL.value, bufferR.value);
      var view := EncodeWAV(interleaved, sampleRate);
      FilePlays(sampleRate, bufferL.value[..], bufferR.value[..]);
      SizesRightExactlyWhen(sampleRate, interleaved[..]);
      return Some(view);
    }
  }

  function FilledUp(samples: seq<real>, length: nat): (s: seq<real>)
    ensures |samples| <= length ==> |s| == length
  {
    if |samples| <= length then samples + seq(length - |samples|, _ => 0.0) else samples
  }

  lemma NothingToFill(samples: seq<real>)
    ensures FilledUp(samples, |samples|) == samples
  {
  }

  /** The buffers one after the other, in an array of the given length; when they do
      not fit, `set` throws. */
  method MergeBuffers(recBuffers: seq<seq<real>>, recLength: nat) returns (merged: Option<array<real>>)
    ensures merged.None? <==> |Concat(recBuffers)| > recLength
    ensures merged.Some? ==> merged.value[..] == FilledUp(Concat(recBuffers), recLength) && fresh(merged.value)
  {
    var result := new real[recLength](_ => 0.0);
    var offset := 0;
    for i := 0 to |recBuffers|
      invariant offset == |Concat(recBuffers[..i])| <= recLength
      invariant result[..offset] == Concat(recBuffers[..i])
      invariant forall j :: offset <= j < recLength ==> result[j] == 0.0
    {
      ConcatPrefix(recBuffers, i + 1);
      assert recBuffers[..i + 1][..i] == recBuffers[..i];
      if offset + |recBuffers[i]| > recLength {
        return None;
      }
      SetAt(result, recBuffers[i], offset);
      offset := offset + |recBuffers[i]|;
    }
    assert recBuffers[..|recBuffers|] == recBuffers;
    assert result[..] == result[..offset] + seq(recLength - offset, _ => 0.0);
    return Some(result);
  }

  /** `result.set(buffer, offset)` */
  method SetAt(result: array<real>, buffer: seq<real>, offset: nat)
    requires offset + |buffer| <= result.Length
    modifies result
    ensures result[..offset + |buffer|] == old(result[..offset]) + buffer
    ensures forall k :: offset + |buffer| <= k < result.Length ==> result[k] == old(result[k])
  {
    for j := 0 to |buffer|
      invariant forall k :: offset + j <= k < result.Length ==> result[k] == old(result[k])
      invariant result[..offset + j] == old(result[..offset]) + buffer[..j]
    {
      result[offset + j] := buffer[j];
      assert result[..offset + (j + 1)] == result[..offset + j] + [buffer[j]];
      assert buffer[..j + 1] == buffer[..j] + [buffer[j]];
    }
    assert buffer[..|buffer|] == buffer;
  }

  lemma {:induction false} ConcatPrefix(buffers: seq<seq<real>>, k: nat)
    requires k <= |buffers|
    ensures |Concat(buffers[..k])| <= |Concat(buffers)|
  {
    if k < |buffers| {
      ConcatPrefix(buffers[..|buffers| - 1], k);
      assert buffers[..|buffers| - 1][..k] == buffers[..k];
    } else {
      assert buffers[..k] == buffers;
    }
  }

  method Interleave(inputL: array<real>, inputR: array<real>) returns (result: array<real>)
    requires inputL.Length == inputR.Length
    ensures result[..] == Interleaved(inputL[..], inputR[..])
  {
    var length := inputL.Length + inputR.Length;
    result := new real[length](_ => 0.0);
    var index, inputIndex := 0, 0;
    while index < length
      invariant index == 2 * inputIndex <= length
      invariant result[..index] == Interleaved(inputL[..inputIndex], inputR[..inputIndex])
    {
      result[index] := inputL[inputIndex];
      index := index + 1;
      result[index] := inputR[inputIndex];
      index := index + 1;
      assert result[..index] == result[..index - 2] + [inputL[inputIndex], inputR[inputIndex]];
      assert inputL[..inputIndex + 1][..inputIndex] == inputL[..inputIndex];
      assert inputR[..inputIndex + 1][..inputIndex] == inputR[..inputIndex];
      inputIndex := inputIndex + 1;
    }
    assert inputL[..inputIndex] == inputL[..] && inputR[..inputIndex] == inputR[..];
  }

  // Writers of a field behind the part of the view that is already written.

  method SetUint16(view: array<Octet>, offset: nat, value: int)
    requires offset + 2 <= view.Length
    modifies view
    ensures view[..offset + 2] == old(view[..offset]) + LE16(value)
    ensures forall k :: offset + 2 <= k < view.Length ==> view[k] == old(view[k])
  {
    var u := value % 0x1_0000;
    view[offset], view[offset + 1] := u % 256, u / 256;
  }

  method SetUint32(view: array<Octet>, offset: nat, value: int)
    requires offset + 4 <= view.Length
    modifies view
    ensures view[..offset + 4] == old(view[..offset]) + LE32(value)
  {
    var u := value % 0x1_0000_0000;
    view[offset], view[offset + 1] := u % 256, u / 0x100 % 256;
    view[offset + 2], view[offset + 3] := u / 0x1_0000 % 256, u / 0x100_0000;
  }

  method WriteString(view: array<Octet>, offset: nat, text: string)
    requires offset + |text| <= view.Length
    requires forall i :: 0 <= i < |text| ==> text[i] < 128 as char
    modifies view
    ensures view[..offset + |text|] == old(view[..offset]) + Ascii(text)
  {
    for i := 0 to |text|
      invariant view[..offset + i] == old(view[..offset]) + Ascii(text[..i])
    {
      view[offset + i] := text[i] as int;
      assert text[..i + 1][..i] == text[..i];
      assert view[..offset + (i + 1)] == view[..offset + i] + [text[i] as int];
    }
    assert text[..|text|] == text;
  }

  method FloatTo16BitPCM(output: array<Octet>, offset: nat, input: array<real>)
    requires offset + 2 * input.Length <= output.Length
    modifies output
    ensures output[..offset + 2 * input.Length] == old(output[..offset]) + PcmBytes(input[..])
    ensures output[offset + 2 * input.Length..] == old(output[offset + 2 * input.Length..])
  {
    for i := 0 to input.Length
      invariant output[..offset + 2 * i] == old(output[..offset]) + PcmBytes(input[..i])
      invariant forall k :: offset + 2 * i <= k < output.Length ==> output[k] == old(output[k])
    {
      var s := Clamp(input[i]);
      SetUint16(output, offset + 2 * i, Trunc(if s < 0.0 then s * 32768.0 else s * 32767.0));
      assert input[..i + 1][..i] == input[..i];
    }
    assert input[..input.Length] == input[..];
  }

  method EncodeWAV(samples: array<real>, sampleRate: nat) returns (view: array<Octet>)
    ensures fresh(view)
    ensures view[..] == Wav(sampleRate, samples[..])
  {
    view := new Octet[44 + samples.Length * 2](_ => 0);
    WriteHeader(view, samples.Length, sampleRate);
    FloatTo16BitPCM(view, 44, samples);
    assert view[..44 + 2 * samples.Length] == view[..];
  }

  method WriteHeader(view: array<Octet>, n: nat, sampleRate: nat)
    requires view.Length == 44 + n * 2
    modifies view
    ensures view[..44] == Header(sampleRate, n)
  {
    hide RiffHeader, FormatChunk, DataHeader;
    WriteRiffHeader(view, n);
    WriteFormatChunk(view, sampleRate);
    WriteDataHeader(view, n);
  }

  method WriteRiffHeader(view: array<Octet>, n: nat)
    requires view.Length >= 44
    modifies view
    ensures view[..12] == RiffHeader(n)
  {
    hide LE32, Ascii;
    WriteString(view, 0, "RIFF");
    SetUint32(view, 4, 36 + n * 2);
    WriteString(view, 8, "WAVE");
  }

  method WriteFormatChunk(view: array<Octet>, sampleRate: nat)
    requires view.Length >= 44
    modifies view
    ensures view[..36] == old(view[..12]) + FormatChunk(sampleRate)
  {
    hide LE16, LE32, Ascii;
    WriteString(view, 12, "fmt ");
    SetUint32(view, 16, 16);
    SetUint16(view, 20, 1);
    SetUint16(view, 22, 2);
    SetUint32(view, 24, sampleRate);
    SetUint32(view, 28, sampleRate * 4);
    SetUint16(view, 32, 4);
    SetUint16(view, 34, 16);
  }

  method WriteDataHeader(view: array<Octet>, n: nat)
    requires view.Length >= 44
    modifies view
    ensures view[..44] == old(view[..36]) + DataHeader(n)
  {
    hide LE32, Ascii;
    WriteString(view, 36, "data");
    SetUint32(view, 40, n * 2);
  }
}
