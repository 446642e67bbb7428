/** `TextTranscoder` of features/transcoder.py: re-encodes an uploaded buffer as UTF-8
    after sniffing for binary data and guessing its encoding, preferring Japanese
    encodings. */
module Transcoding {
  import opened Base
  import opened Streams

  /** How many leading bytes `detect_binary` examines. */
  const SniffSize: nat := 1024

  /** `known_encode`, in the order they are tried. */
  const KnownEncodings: seq<string> := ["ASCII", "Shift_JIS", "EUC-JP", "ISO-2022-JP", "utf-8"]

  /** The libraries the class calls, as functions: `chardet.detect(...)["encoding"]`,
      `bytes.decode(encoding)` (None for a `UnicodeDecodeError` or an unknown codec)
      and `str.encode(encoding)` (None for an unknown codec). */
  datatype Codecs = Codecs(
    detect: Bytes -> Option<string>,
    decode: (Bytes, string) -> Option<string>,
    encode: (string, string) -> Option<Bytes>)

  function Prefix(data: Bytes, n: nat): (r: Bytes)
    ensures |r| == if |data| <= n then |data| else n
    ensures forall i :: 0 <= i < |r| ==> r[i] == data[i]
  {
    if |data| <= n then data else data[..n]
  }

  /** `detect_binary` on a buffer: a NUL byte among the first 1024. */
  predicate IsBinary(data: Bytes) {
    NUL in Prefix(data, SniffSize)
  }

  /** Only the first 1024 bytes are examined: whatever follows them does not matter. */
  lemma BinaryIgnoresTail(head: Bytes, tail: Bytes)
    requires |head| >= SniffSize
    ensures IsBinary(head + tail) == IsBinary(head)
  {
    assert Prefix(head + tail, SniffSize) == Prefix(head, SniffSize);
  }

  /** A NUL byte past the first 1024 is not seen. */
  lemma LateNulNotBinary(head: Bytes, tail: Bytes)
    requires |head| == SniffSize && NUL !in head
    ensures !IsBinary(head + tail)
  {
    BinaryIgnoresTail(head, tail);
    assert Prefix(head, SniffSize) == head;
  }

  /** One step of the fallback loop: the encoding, if the data decodes with it. */
  function TryEncoding(data: Bytes, decode: (Bytes, string) -> Option<string>): string -> Option<string> {
    enc => if decode(data, enc).Some? then Some(enc) else None
  }

  /** The fallback loop: the first known encoding the data decodes with. */
  function FallbackEncoding(data: Bytes, decode: (Bytes, string) -> Option<string>): Option<string> {
    FirstSome(KnownEncodings, TryEncoding(data, decode))
  }

  /** `detect_encoding` on a buffer. */
  function EncodingOf(data: Bytes, c: Codecs): Option<string> {
    if IsBinary(data) then None
    else
      var guess := c.detect(data);
      if guess.Some? && guess.value in KnownEncodings then guess
      else match FallbackEncoding(data, c.decode)
        case Some(enc) => Some(enc)
        case None => guess
  }

  /** Binary input has no encoding. */
  lemma BinaryHasNoEncoding(data: Bytes, c: Codecs)
    requires IsBinary(data)
    ensures EncodingOf(data, c).None?
  {
  }

  /** When the detector's guess is not a known encoding, the answer is the first known
      encoding that decodes the data: every earlier one fails to. */
  lemma PreferenceOrder(data: Bytes, c: Codecs)
    requires !IsBinary(data)
    requires c.detect(data).None? || c.detect(data).value !in KnownEncodings
    requires FallbackEncoding(data, c.decode).Some?
    ensures var enc := EncodingOf(data, c).value;
      exists i :: 0 <= i < |KnownEncodings| && enc == KnownEncodings[i]
        && c.decode(data, enc).Some?
        && forall j :: 0 <= j < i ==> c.decode(data, KnownEncodings[j]).None?
  {
    var f := TryEncoding(data, c.decode);
    FirstSomeWitness(KnownEncodings, f);
    var i :| 0 <= i < |KnownEncodings| && FirstSome(KnownEncodings, f) == f(KnownEncodings[i])
             && forall j :: 0 <= j < i ==> f(KnownEncodings[j]).None?;
    assert EncodingOf(data, c).value == KnownEncodings[i];
  }

  /** With neither a known guess nor a known encoding that decodes, the raw guess is
      returned. */
  lemma RawGuessLast(data: Bytes, c: Codecs)
    requires !IsBinary(data)
    requires c.detect(data).None? || c.detect(data).value !in KnownEncodings
    requires forall j :: 0 <= j < |KnownEncodings| ==> c.decode(data, KnownEncodings[j]).None?
    ensures EncodingOf(data, c) == c.detect(data)
  {
    FirstSomeNone(KnownEncodings, TryEncoding(data, c.decode));
  }

  /** `convert(encode)` on a buffer: the re-encoded bytes and the name they carry. */
  function ConvertOf(data: Bytes, name: Option<string>, c: Codecs, target: string): Option<(Bytes, Option<string>)> {
    match EncodingOf(data, c)
    case None => None
    case Some(enc) =>
      if enc == "" then None
      else match c.decode(data, enc)
        case None => None
        case Some(text) =>
          match c.encode(text, target)
          case None => None
          case Some(b) => Some((b, name))
  }

  /** A converted buffer carries the input's name and holds the decoded text written
      in the target encoding. */
  lemma ConvertKeepsName(data: Bytes, name: Option<string>, c: Codecs, target: string)
    requires ConvertOf(data, name, c, target).Some?
    ensures var enc := EncodingOf(data, c);
      && !IsBinary(data) && enc.Some? && enc.value != "" && c.decode(data, enc.value).Some?
      && ConvertOf(data, name, c, target).value.1 == name
      && Some(ConvertOf(data, name, c, target).value.0) == c.encode(c.decode(data, enc.value).value, target)
  {
  }

  /** Where `convert` leaves the read position of the input. */
  function PositionAfterConvert(data: Bytes, pos: nat, c: Codecs): nat {
    if IsBinary(data) then pos
    else match EncodingOf(data, c)
      case None => 0
      case Some(enc) => if enc == "" then 0 else |data|
  }

  class TextTranscoder {
    const inputData: ByteStream
    const filename: Option<string>
    const codecs: Codecs

    /** `TextTranscoder(input_data)`: the name is kept only if the buffer has one. */
    constructor (inputData: ByteStream, codecs: Codecs)
      ensures this.inputData == inputData && filename == inputData.name && this.codecs == codecs
    {
      this.inputData := inputData;
      filename := inputData.name;
      this.codecs := codecs;
    }

    /** `detect_binary`: reads the first 1024 bytes from the start and puts the
        position back. */
    method DetectBinary(input: ByteStream) returns (b: bool)
      modifies input
      ensures b == IsBinary(input.data)
      ensures input.data == old(input.data) && input.pos == old(input.pos) && input.name == old(input.name)
    {
      var current := input.Tell();
      input.Seek(0);
      var chunk := input.ReadAtMost(SniffSize);
      input.Seek(current);
      assert chunk == Prefix(input.data, SniffSize);
      b := NUL in chunk;
    }

    /** `detect_encoding`: leaves the position at the start unless the input is binary. */
    method DetectEncoding(input: ByteStream) returns (enc: Option<string>)
      modifies input
      ensures enc == EncodingOf(input.data, codecs)
      ensures input.data == old(input.data) && input.name == old(input.name)
      ensures input.pos == if IsBinary(input.data) then old(input.pos) else 0
    {
      var binary := DetectBinary(input);
      if binary {
        return None;
      }
      input.Seek(0);
      var raw := input.data;
      var guess := codecs.detect(raw);
      if guess.Some? && guess.value in KnownEncodings {
        return guess;
      }
      var i := 0;
      while i < |KnownEncodings|
        invariant i <= |KnownEncodings|
        invariant FallbackEncoding(raw, codecs.decode) == FirstSome(KnownEncodings[i..], TryEncoding(raw, codecs.decode))
      {
        assert KnownEncodings[i..][0] == KnownEncodings[i] && KnownEncodings[i..][1..] == KnownEncodings[i + 1..];
        if codecs.decode(raw, KnownEncodings[i]).Some? {
          return Some(KnownEncodings[i]);
        }
        i := i + 1;
      }
      assert KnownEncodings[i..] == [];
      return guess;
    }

    /** `convert(encode)`: a fresh buffer holding the text in the target encoding, or
        None when no encoding is found, decoding fails or the target is unknown. */
    method Convert(target: string) returns (out: Option<ByteStream>)
      modifies inputData
      ensures inputData.data == old(inputData.data) && inputData.name == old(inputData.name)
      ensures inputData.pos == PositionAfterConvert(inputData.data, old(inputData.pos), codecs)
      ensures match ConvertOf(inputData.data, filename, codecs, target)
        case None => out.None?
        case Some((b, n)) => out.Some? && fresh(out.value) && out.value.data == b && out.value.pos == 0 && out.value.name == n
    {
      var encoding := DetectEncoding(inputData);
      if encoding.None? || encoding.value == "" {
        return None;
      }
      inputData.Seek(0);
      var raw := inputData.Read();
      var content := codecs.decode(raw, encoding.value);
      if content.None? {
        return None;
      }
      var encoded := codecs.encode(content.value, target);
      if encoded.None? {
        return None;
      }
      var output := new ByteStream(encoded.value, None);
      output.name := filename;
      return Some(output);
    }

    /** `challenge_to_utf8`: the UTF-8 copy, or the input itself when there is none. */
    method ChallengeToUtf8() returns (s: ByteStream)
      modifies inputData
      ensures inputData.data == old(inputData.data) && inputData.name == old(inputData.name)
      ensures inputData.pos == PositionAfterConvert(inputData.data, old(inputData.pos), codecs)
      ensures match ConvertOf(inputData.data, filename, codecs, "utf-8")
        case None => s == inputData
        case Some((b, n)) => fresh(s) && s.data == b && s.pos == 0 && s.name == n
    {
      var result := Convert("utf-8");
      s := if result.Some? then result.value else inputData;
    }
  }
}
