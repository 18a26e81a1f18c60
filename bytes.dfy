/** Bytes and the conversions between byte buffers and text that the core relies on. */
module Bytes {
  import opened Results
  import opened Errors

  type byte = x: int | 0 <= x < 256

  predicate IsAscii(b: seq<byte>) {
    forall i :: 0 <= i < |b| ==> b[i] < 128
  }

  predicate IsAsciiText(s: string) {
    forall i :: 0 <= i < |s| ==> s[i] as int < 128
  }

  /** The bytes of ASCII text: its UTF-8 encoding, one byte per character (`String::into_bytes`, `b"..."`). */
  function AsciiBytes(s: string): (b: seq<byte>)
    requires IsAsciiText(s)
    ensures |b| == |s| && IsAscii(b)
    ensures forall i :: 0 <= i < |s| ==> b[i] == s[i] as int
  {
    seq(|s|, i requires 0 <= i < |s| => s[i] as int)
  }

  /**
   * A byte buffer read one character per byte. The base64 decoder is modelled on text; it sees a
   * byte buffer this way, which accepts and rejects exactly what a byte-level decoder does, because
   * every symbol of either alphabet is ASCII.
   */
  function Latin1(b: seq<byte>): (s: string)
    ensures |s| == |b|
    ensures forall i :: 0 <= i < |b| ==> s[i] as int == b[i]
  {
    seq(|b|, i requires 0 <= i < |b| => b[i] as char)
  }

  /** `String::from_utf8`, for the ASCII bytes that reach it in this core. */
  function FromUtf8(b: seq<byte>): (r: Result<string, Error>)
    ensures r.Ok? <==> IsAscii(b)
    ensures r.Ok? ==> IsAsciiText(r.value) && AsciiBytes(r.value) == b
  {
    if IsAscii(b) then Ok(Latin1(b)) else Err(InvalidUtf8)
  }

  lemma {:induction false} Latin1OfAsciiBytes(s: string)
    requires IsAsciiText(s)
    ensures Latin1(AsciiBytes(s)) == s
  {
  }
}
