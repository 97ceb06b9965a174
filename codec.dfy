/** The byte-level helpers of the chat panel (components/ChatInterface.tsx):
    copying a binary string into bytes, reassembling 16-bit PCM samples for
    playback, and cutting the base64 payload out of a data URL. */
module MediaCodec {
  import opened Types
  import opened JsString
  import GeminiService

  newtype byte = x: int | 0 <= x < 256

  /** Speech audio is mono 16-bit PCM. */
  const NumChannels: nat := 1

  // ---------------------------------------------------------------------
  // decodeBase64

  /** Storing a char code into a `Uint8Array` keeps it modulo 256. */
  function ByteOf(c: char): byte {
    ((c as int) % 256) as byte
  }

  /** The bytes of a binary string, one per character. */
  function Bytes(binary: string): (r: seq<byte>)
    ensures |r| == |binary|
  {
    seq(|binary|, i requires 0 <= i < |binary| => ByteOf(binary[i]))
  }

  /** The binary string of a byte sequence, as `atob` produces it: one
      character per byte, with that byte as its code. */
  function BinaryString(b: seq<byte>): (s: string)
    ensures |s| == |b|
    ensures forall i :: 0 <= i < |s| ==> s[i] as int < 256
  {
    seq(|b|, i requires 0 <= i < |b| => (b[i] as int) as char)
  }

  /** Copying back the binary string of some bytes gives those bytes. */
  lemma BytesOfBinaryString(b: seq<byte>)
    ensures Bytes(BinaryString(b)) == b
  {
    var s := BinaryString(b);
    forall i | 0 <= i < |b| ensures Bytes(s)[i] == b[i] {
      assert s[i] as int == b[i] as int;
    }
  }

  /** A binary string (every code below 256) is the binary string of its
      bytes: no character is lost by the copy. */
  lemma BinaryStringOfBytes(s: string)
    requires forall i :: 0 <= i < |s| ==> s[i] as int < 256
    ensures BinaryString(Bytes(s)) == s
  {
    var r := BinaryString(Bytes(s));
    forall i | 0 <= i < |s| ensures r[i] == s[i] {
      assert Bytes(s)[i] as int == s[i] as int;
    }
  }

  /** `decodeBase64` after `atob`: a fresh byte array of the binary string's
      length, byte `i` holding the code of character `i`. */
  method DecodeBase64(binary: string) returns (bytes: array<byte>)
    ensures fresh(bytes)
    ensures bytes[..] == Bytes(binary)
  {
    bytes := new byte[|binary|];
    for i := 0 to |binary|
      invariant forall k :: 0 <= k < i ==> bytes[k] == ByteOf(binary[k])
    {
      bytes[i] := ByteOf(binary[i]);
    }
  }

  // ---------------------------------------------------------------------
  // 16-bit little-endian PCM

  /** The signed 16-bit sample stored little-endian in a byte pair. */
  function Sample16(lo: byte, hi: byte): (v: int)
    ensures -32768 <= v <= 32767
  {
    var u := lo as int + 256 * hi as int;
    if u >= 32768 then u - 65536 else u
  }

  predicate IsSample(v: int) {
    -32768 <= v <= 32767
  }

  /** The low byte of a sample's two's-complement encoding. */
  function LowByte(v: int): byte
    requires IsSample(v)
  {
    ((v + 65536) % 256) as byte
  }

  /** The high byte of a sample's two's-complement encoding. */
  function HighByte(v: int): byte
    requires IsSample(v)
  {
    (((v + 65536) % 65536) / 256) as byte
  }

  /** Encoding a sample and reading it back gives the sample. */
  lemma SampleRoundTrip(v: int)
    requires IsSample(v)
    ensures Sample16(LowByte(v), HighByte(v)) == v
  {
    var u := (v + 65536) % 65536;
    assert u == (v + 65536) % 256 + 256 * (u / 256);
    assert u == LowByte(v) as int + 256 * HighByte(v) as int;
    assert u >= 32768 <==> v < 0;
  }

  /** Reading a byte pair and encoding the sample gives the pair back. */
  lemma PairRoundTrip(lo: byte, hi: byte)
    ensures LowByte(Sample16(lo, hi)) == lo && HighByte(Sample16(lo, hi)) == hi
  {
    var u := lo as int + 256 * hi as int;
    var v := Sample16(lo, hi);
    assert (v + 65536) % 65536 == u;
    assert (v + 65536) % 256 == u % 256 == lo as int;
    assert u / 256 == hi as int;
  }

  /** The samples of an even-length byte sequence: sample `i` is made of
      bytes `2i` (low) and `2i + 1` (high). */
  function Samples(b: seq<byte>): (r: seq<int>)
    requires |b| % 2 == 0
    ensures |r| == |b| / 2
    ensures forall i :: 0 <= i < |r| ==> IsSample(r[i])
  {
    seq(|b| / 2, i requires 0 <= i < |b| / 2 => Sample16(b[2 * i], b[2 * i + 1]))
  }

  /** The little-endian encoding of a sample sequence. */
  function EncodePcm(s: seq<int>): (b: seq<byte>)
    requires forall i :: 0 <= i < |s| ==> IsSample(s[i])
    ensures |b| == 2 * |s|
  {
    if s == [] then []
    else [LowByte(s[0]), HighByte(s[0])] + EncodePcm(s[1..])
  }

  lemma {:induction false} EncodePcmAt(s: seq<int>, i: nat)
    requires forall k :: 0 <= k < |s| ==> IsSample(s[k])
    requires i < |s|
    ensures EncodePcm(s)[2 * i] == LowByte(s[i]) && EncodePcm(s)[2 * i + 1] == HighByte(s[i])
  {
    var tail := EncodePcm(s[1..]);
    assert EncodePcm(s) == [LowByte(s[0]), HighByte(s[0])] + tail;
    if i > 0 {
      EncodePcmAt(s[1..], i - 1);
      assert s[1..][i - 1] == s[i];
      assert 2 * i == 2 * (i - 1) + 2;
      assert EncodePcm(s)[2 * i] == tail[2 * (i - 1)];
      assert EncodePcm(s)[2 * i + 1] == tail[2 * (i - 1) + 1];
    }
  }

  lemma SampleOfPair(b: seq<byte>, i: nat)
    requires |b| % 2 == 0 && i < |b| / 2
    ensures 2 * i + 1 < |b| && Samples(b)[i] == Sample16(b[2 * i], b[2 * i + 1])
  {
  }

  lemma PcmRoundTripAt(s: seq<int>, i: nat)
    requires forall k :: 0 <= k < |s| ==> IsSample(s[k])
    requires i < |s|
    ensures Samples(EncodePcm(s))[i] == s[i]
  {
    var b := EncodePcm(s);
    assert |b| % 2 == 0 && |b| / 2 == |s|;
    EncodePcmAt(s, i);
    var lo, hi := b[2 * i], b[2 * i + 1];
    SampleRoundTrip(s[i]);
    assert Sample16(lo, hi) == s[i];
    SampleOfPair(b, i);
  }

  /** Decoding the encoding of a sample sequence gives the samples back. */
  lemma PcmRoundTrip(s: seq<int>)
    requires forall i :: 0 <= i < |s| ==> IsSample(s[i])
    ensures Samples(EncodePcm(s)) == s
  {
    assert |EncodePcm(s)| / 2 == |s|;
    forall i | 0 <= i < |s| ensures Samples(EncodePcm(s))[i] == s[i] {
      PcmRoundTripAt(s, i);
    }
  }

  /** The sample loop of `playPCMAudio`: an odd number of bytes cannot be
      viewed as 16-bit samples, the error is caught and nothing plays
      (`None`); otherwise the mono channel receives one sample per byte pair,
      `frameCount == bytes.Length / 2` of them. */
  method DecodePcm(bytes: array<byte>) returns (frames: Option<array<int>>)
    ensures frames.None? <==> bytes.Length % 2 != 0
    ensures frames.Some? ==> fresh(frames.value) && frames.value[..] == Samples(bytes[..])
  {
    if bytes.Length % 2 != 0 {
      return None;
    }
    var frameCount := bytes.Length / NumChannels / 2;
    var channelData := new int[frameCount];
    for i := 0 to frameCount
      invariant forall k :: 0 <= k < i ==> channelData[k] == Sample16(bytes[2 * k], bytes[2 * k + 1])
    {
      channelData[i] := Sample16(bytes[2 * i], bytes[2 * i + 1]);
    }
    return Some(channelData);
  }

  // ---------------------------------------------------------------------
  // Data URL payload

  /** The first position of `c` in `s`. */
  function IndexOf(s: string, c: char): (r: Option<nat>)
    ensures r.None? <==> c !in s
    ensures r.Some? ==> r.value < |s| && s[r.value] == c && c !in s[..r.value]
  {
    if s == [] then None
    else if s[0] == c then Some(0)
    else
      match IndexOf(s[1..], c)
      case None => None
      case Some(j) =>
        assert s[..j + 1] == [s[0]] + s[1..][..j];
        Some(j + 1)
  }

  /** `f` starts right after the first comma of `url`, at `i`, and runs to the
      next comma or the end. */
  predicate FieldAfterFirstComma(url: string, i: int, f: string) {
    && 0 <= i < |url| && url[i] == ',' && ',' !in url[..i]
    && i + 1 + |f| <= |url| && url[i + 1..i + 1 + |f|] == f
    && (i + 1 + |f| == |url| || url[i + 1 + |f|] == ',')
  }

  /** `url.split(',')[1]`: the text between the first and the second comma
      (or the end), undefined when there is no comma. */
  function SecondField(url: string): (r: Option<string>)
    ensures r.None? <==> ',' !in url
    ensures r.Some? ==> ',' !in r.value
    ensures r.Some? ==> exists i :: FieldAfterFirstComma(url, i, r.value)
  {
    match IndexOf(url, ',')
    case None => None
    case Some(i) =>
      var rest := url[i + 1..];
      match IndexOf(rest, ',')
      case None =>
        assert FieldAfterFirstComma(url, i, rest);
        Some(rest)
      case Some(j) =>
        assert url[i + 1..i + 1 + j] == rest[..j];
        assert url[i + 1 + j] == rest[j];
        assert FieldAfterFirstComma(url, i, rest[..j]);
        Some(rest[..j])
  }

  /** The base64 alphabet of section 4 of RFC 4648, with its padding. */
  predicate IsBase64Char(c: char) {
    'A' <= c <= 'Z' || 'a' <= c <= 'z' || '0' <= c <= '9' || c == '+' || c == '/' || c == '='
  }

  /** Cutting the payload out of a data URL the router built gives the
      payload back, whenever the MIME type has no comma and the payload is
      base64. */
  lemma PayloadRoundTrip(mimeType: string, data: string)
    requires ',' !in mimeType
    requires forall k :: 0 <= k < |data| ==> IsBase64Char(data[k])
    ensures SecondField(GeminiService.DataUri(GeminiService.InlineData(mimeType, data))) == Some(data)
  {
    var head := "data:" + mimeType + ";base64";
    var url := GeminiService.DataUri(GeminiService.InlineData(mimeType, data));
    assert url == head + "," + data;
    assert ',' !in head by {
      assert head == "data:" + mimeType + ";base64";
      assert ',' !in "data:" && ',' !in ";base64";
    }
    assert ',' !in data by {
      forall k | 0 <= k < |data| ensures data[k] != ',' {
        assert IsBase64Char(data[k]);
      }
    }
    assert IndexOf(url, ',') == Some(|head|) by {
      assert url[..|head|] == head;
    }
    assert url[|head| + 1..] == data;
  }
}
