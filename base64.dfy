/**
 * Base64 as RFC 4648 defines it: the standard alphabet of section 4, the URL- and
 * filename-safe alphabet of section 5, each with or without the `=` padding of
 * section 3.2. Decoding is canonical, as the `base64` crate's engines are by
 * default: padding must be exactly as the encoder writes it (or absent, for the
 * unpadded engines) and the unused low bits of the last symbol must be zero, so
 * that the decoder accepts exactly the encoder's outputs.
 */
module Base64 {
  import opened Results
  import opened Errors
  import opened Bytes

  datatype Alphabet = Standard | UrlSafe

  /** One of the four codecs: an alphabet, and whether `=` padding is written and required. */
  datatype Engine = Engine(alphabet: Alphabet, padded: bool)

  type sextet = v: int | 0 <= v < 64

  const PAD: char := '='

  function Symbol62(a: Alphabet): char {
    if a == Standard then '+' else '-'
  }

  function Symbol63(a: Alphabet): char {
    if a == Standard then '/' else '_'
  }

  predicate IsSymbol(a: Alphabet, c: char) {
    ('A' <= c <= 'Z') || ('a' <= c <= 'z') || ('0' <= c <= '9') || c == Symbol62(a) || c == Symbol63(a)
  }

  /** The symbol for a six-bit value (table 1 in section 4 of RFC 4648, table 2 in section 5 of RFC 4648). */
  function SymbolOf(a: Alphabet, v: sextet): (c: char)
    ensures IsSymbol(a, c) && c as int < 128
  {
    if v < 26 then ('A' as int + v) as char
    else if v < 52 then ('a' as int + (v - 26)) as char
    else if v < 62 then ('0' as int + (v - 52)) as char
    else if v == 62 then Symbol62(a)
    else Symbol63(a)
  }

  /** The six-bit value of a symbol: the inverse of the table. */
  function ValueOf(a: Alphabet, c: char): (v: sextet)
    requires IsSymbol(a, c)
    ensures SymbolOf(a, v) == c
  {
    if 'A' <= c <= 'Z' then c as int - 'A' as int
    else if 'a' <= c <= 'z' then c as int - 'a' as int + 26
    else if '0' <= c <= '9' then c as int - '0' as int + 52
    else if c == Symbol62(a) then 62
    else 63
  }

  lemma ValueOfSymbolOf(a: Alphabet, v: sextet)
    ensures ValueOf(a, SymbolOf(a, v)) == v
  {
  }

  // ---------------------------------------------------------------- encoding

  /** Three bytes, 24 bits, become four symbols of six bits each, most significant first. */
  function EncodeGroup(a: Alphabet, b0: byte, b1: byte, b2: byte): seq<char> {
    [SymbolOf(a, b0 / 4), SymbolOf(a, (b0 % 4) * 16 + b1 / 16),
     SymbolOf(a, (b1 % 16) * 4 + b2 / 64), SymbolOf(a, b2 % 64)]
  }

  /** The symbols without padding: a final one or two bytes give two or three symbols, zero-filled. */
  function EncodeSymbols(a: Alphabet, b: seq<byte>): (s: string)
    ensures |s| == (4 * |b| + 2) / 3
    decreases |b|
  {
    if |b| == 0 then []
    else if |b| == 1 then [SymbolOf(a, b[0] / 4), SymbolOf(a, (b[0] % 4) * 16)]
    else if |b| == 2 then [SymbolOf(a, b[0] / 4), SymbolOf(a, (b[0] % 4) * 16 + b[1] / 16), SymbolOf(a, (b[1] % 16) * 4)]
    else EncodeGroup(a, b[0], b[1], b[2]) + EncodeSymbols(a, b[3..])
  }

  /** The `=` characters that complete a final group of one or two bytes (section 3.2 of RFC 4648). */
  function Padding(n: nat): string {
    if n % 3 == 1 then "==" else if n % 3 == 2 then "=" else ""
  }

  function Encode(e: Engine, b: seq<byte>): (s: string)
    ensures e.padded ==> |s| == 4 * ((|b| + 2) / 3)
    ensures !e.padded ==> |s| == (4 * |b| + 2) / 3
  {
    PaddedLength(|b|);
    EncodeSymbols(e.alphabet, b) + (if e.padded then Padding(|b|) else "")
  }

  /** The symbols and the padding of `n` bytes fill whole groups of four. */
  lemma {:induction false} PaddedLength(n: nat)
    ensures (4 * n + 2) / 3 + |Padding(n)| == 4 * ((n + 2) / 3)
  {
    var k := n / 3;
    DivMod3(n, k, n % 3);
    if n % 3 == 0 {
      DivMod3(4 * n + 2, 4 * k, 2);
      DivMod3(n + 2, k, 2);
    } else if n % 3 == 1 {
      DivMod3(4 * n + 2, 4 * k + 2, 0);
      DivMod3(n + 2, k + 1, 0);
    } else {
      DivMod3(4 * n + 2, 4 * k + 3, 1);
      DivMod3(n + 2, k + 1, 1);
    }
  }

  // ---------------------------------------------------------------- decoding

  function DecodeGroup(v0: sextet, v1: sextet, v2: sextet, v3: sextet): seq<byte> {
    [v0 * 4 + v1 / 16, (v1 % 16) * 16 + v2 / 4, (v2 % 4) * 64 + v3]
  }

  /**
   * Unpadded symbols back to bytes. Fails on a character outside the alphabet, on a
   * final group of a single symbol, and on a final symbol whose unused bits are not zero.
   */
  function DecodeSymbols(a: Alphabet, s: string): (r: Option<seq<byte>>)
    ensures r.Some? ==> |r.value| == (3 * |s|) / 4
    decreases |s|
  {
    if |s| == 0 then Some([])
    else if |s| == 1 || !IsSymbol(a, s[0]) || !IsSymbol(a, s[1]) then None
    else if |s| == 2 then
      var v0, v1 := ValueOf(a, s[0]), ValueOf(a, s[1]);
      if v1 % 16 != 0 then None else Some([v0 * 4 + v1 / 16])
    else if !IsSymbol(a, s[2]) then None
    else if |s| == 3 then
      var v0, v1, v2 := ValueOf(a, s[0]), ValueOf(a, s[1]), ValueOf(a, s[2]);
      if v2 % 4 != 0 then None else Some([v0 * 4 + v1 / 16, (v1 % 16) * 16 + v2 / 4])
    else if !IsSymbol(a, s[3]) then None
    else
      match DecodeSymbols(a, s[4..])
      case None => None
      case Some(rest) =>
        Some(DecodeGroup(ValueOf(a, s[0]), ValueOf(a, s[1]), ValueOf(a, s[2]), ValueOf(a, s[3])) + rest)
  }

  /** Canonical padding: a length that is a multiple of four, ending in `==`, `=` or a symbol. */
  function Unpad(s: string): Option<string> {
    if |s| % 4 != 0 then None
    else if |s| >= 2 && s[|s| - 2] == PAD && s[|s| - 1] == PAD then Some(s[..|s| - 2])
    else if |s| >= 1 && s[|s| - 1] == PAD then Some(s[..|s| - 1])
    else Some(s)
  }

  /**
   * Decoding is canonical, as the crate's default engines are: padding must be present
   * exactly when the engine pads, and the unused bits of a final symbol must be zero, so
   * the only text that decodes to `b` is the encoding of `b`.
   */
  function Decode(e: Engine, s: string): (r: Result<seq<byte>, Error>)
    ensures r.Ok? ==> Encode(e, r.value) == s
    ensures r.Err? ==> r.error == InvalidBase64
  {
    var body := if e.padded then Unpad(s) else Some(s);
    if body.None? then Err(InvalidBase64)
    else
      match DecodeSymbols(e.alphabet, body.value)
      case None => Err(InvalidBase64)
      case Some(b) =>
        EncodeDecodeSymbols(e.alphabet, body.value, b);
        if e.padded then
          UnpadThenPad(e.alphabet, s, body.value, b);
          Ok(b)
        else
          Ok(b)
  }

  // ---------------------------------------------------------------- round trips

  // Euclidean division by the constants of the bit layout, stated by quotient and remainder.

  lemma DivMod4(x: int, q: int, r: int)
    requires 0 <= r < 4 && x == q * 4 + r
    ensures x / 4 == q && x % 4 == r
  {
  }

  lemma DivMod16(x: int, q: int, r: int)
    requires 0 <= r < 16 && x == q * 16 + r
    ensures x / 16 == q && x % 16 == r
  {
  }

  lemma DivMod64(x: int, q: int, r: int)
    requires 0 <= r < 64 && x == q * 64 + r
    ensures x / 64 == q && x % 64 == r
  {
  }

  lemma DivMod3(x: int, q: int, r: int)
    requires 0 <= r < 3 && x == q * 3 + r
    ensures x / 3 == q && x % 3 == r
  {
  }

  lemma GroupRoundTrip(a: Alphabet, b0: byte, b1: byte, b2: byte)
    ensures var g := EncodeGroup(a, b0, b1, b2);
      && IsSymbol(a, g[0]) && IsSymbol(a, g[1]) && IsSymbol(a, g[2]) && IsSymbol(a, g[3])
      && DecodeGroup(ValueOf(a, g[0]), ValueOf(a, g[1]), ValueOf(a, g[2]), ValueOf(a, g[3])) == [b0, b1, b2]
  {
    var v0, v1, v2, v3 := b0 / 4, (b0 % 4) * 16 + b1 / 16, (b1 % 16) * 4 + b2 / 64, b2 % 64;
    ValueOfSymbolOf(a, v0);
    ValueOfSymbolOf(a, v1);
    ValueOfSymbolOf(a, v2);
    ValueOfSymbolOf(a, v3);
    DivMod16(v1, b0 % 4, b1 / 16);
    DivMod4(v2, b1 % 16, b2 / 64);
  }

  lemma GroupOfDecoded(a: Alphabet, v0: sextet, v1: sextet, v2: sextet, v3: sextet)
    ensures var d := DecodeGroup(v0, v1, v2, v3);
      EncodeGroup(a, d[0], d[1], d[2]) == [SymbolOf(a, v0), SymbolOf(a, v1), SymbolOf(a, v2), SymbolOf(a, v3)]
  {
    var d := DecodeGroup(v0, v1, v2, v3);
    DivMod4(d[0], v0, v1 / 16);
    DivMod16(d[1], v1 % 16, v2 / 4);
    DivMod64(d[2], v2 % 4, v3);
    assert (d[0] % 4) * 16 + d[1] / 16 == v1;
    assert (d[1] % 16) * 4 + d[2] / 64 == v2;
  }

  lemma TailOneRoundTrip(a: Alphabet, b0: byte)
    ensures DecodeSymbols(a, [SymbolOf(a, b0 / 4), SymbolOf(a, (b0 % 4) * 16)]) == Some([b0])
  {
    ValueOfSymbolOf(a, b0 / 4);
    ValueOfSymbolOf(a, (b0 % 4) * 16);
    DivMod16((b0 % 4) * 16, b0 % 4, 0);
  }

  lemma TailTwoRoundTrip(a: Alphabet, b0: byte, b1: byte)
    ensures DecodeSymbols(a, [SymbolOf(a, b0 / 4), SymbolOf(a, (b0 % 4) * 16 + b1 / 16), SymbolOf(a, (b1 % 16) * 4)])
         == Some([b0, b1])
  {
    var v0, v1, v2 := b0 / 4, (b0 % 4) * 16 + b1 / 16, (b1 % 16) * 4;
    ValueOfSymbolOf(a, v0);
    ValueOfSymbolOf(a, v1);
    ValueOfSymbolOf(a, v2);
    DivMod16(v1, b0 % 4, b1 / 16);
    DivMod4(v2, b1 % 16, 0);
  }

  lemma {:induction false} DecodeEncodeSymbols(a: Alphabet, b: seq<byte>)
    ensures DecodeSymbols(a, EncodeSymbols(a, b)) == Some(b)
    decreases |b|
  {
    if |b| == 1 || |b| == 2 {
      DecodeEncodeTail(a, b);
    } else if |b| >= 3 {
      DecodeEncodeSymbols(a, b[3..]);
      DecodeEncodeStep(a, b);
    }
  }

  /** A final one or two bytes: the two or three symbols they become decode back to them. */
  lemma DecodeEncodeTail(a: Alphabet, b: seq<byte>)
    requires |b| == 1 || |b| == 2
    ensures DecodeSymbols(a, EncodeSymbols(a, b)) == Some(b)
  {
    if |b| == 1 {
      TailOneRoundTrip(a, b[0]);
      assert [b[0]] == b;
    } else {
      TailTwoRoundTrip(a, b[0], b[1]);
      assert [b[0], b[1]] == b;
    }
  }

  /** The inductive step: a first group of three bytes in front of bytes that round-trip. */
  lemma {:induction false} DecodeEncodeStep(a: Alphabet, b: seq<byte>)
    requires |b| >= 3 && DecodeSymbols(a, EncodeSymbols(a, b[3..])) == Some(b[3..])
    ensures DecodeSymbols(a, EncodeSymbols(a, b)) == Some(b)
  {
    GroupRoundTrip(a, b[0], b[1], b[2]);
    assert EncodeSymbols(a, b) == EncodeGroup(a, b[0], b[1], b[2]) + EncodeSymbols(a, b[3..]);
    DecodeGroupStep(a, EncodeGroup(a, b[0], b[1], b[2]), EncodeSymbols(a, b[3..]), [b[0], b[1], b[2]], b[3..]);
    assert b == [b[0], b[1], b[2]] + b[3..];
  }

  /** Four symbols that decode to a group, followed by symbols that decode to the rest. */
  lemma {:induction false} DecodeGroupStep(a: Alphabet, g: string, rest: string, d: seq<byte>, restBytes: seq<byte>)
    requires |g| == 4 && IsSymbol(a, g[0]) && IsSymbol(a, g[1]) && IsSymbol(a, g[2]) && IsSymbol(a, g[3])
    requires DecodeGroup(ValueOf(a, g[0]), ValueOf(a, g[1]), ValueOf(a, g[2]), ValueOf(a, g[3])) == d
    requires DecodeSymbols(a, rest) == Some(restBytes)
    ensures DecodeSymbols(a, g + rest) == Some(d + restBytes)
  {
    var s := g + rest;
    assert s[4..] == rest;
    assert s[0] == g[0] && s[1] == g[1] && s[2] == g[2] && s[3] == g[3];
  }

  lemma {:induction false} TailTwoOfDecoded(a: Alphabet, s: string, b: seq<byte>)
    requires |s| == 2 && DecodeSymbols(a, s) == Some(b)
    ensures EncodeSymbols(a, b) == s
  {
    var v0: int, v1: int := ValueOf(a, s[0]), ValueOf(a, s[1]);
    var d0: int := v0 * 4 + v1 / 16;
    DivMod4(d0, v0, v1 / 16);
    DivMod16(v1, v1 / 16, 0);
  }

  lemma {:induction false} TailThreeOfDecoded(a: Alphabet, s: string, b: seq<byte>)
    requires |s| == 3 && DecodeSymbols(a, s) == Some(b)
    ensures EncodeSymbols(a, b) == s
  {
    var v0: int, v1: int, v2: int := ValueOf(a, s[0]), ValueOf(a, s[1]), ValueOf(a, s[2]);
    var d0: int, d1: int := v0 * 4 + v1 / 16, (v1 % 16) * 16 + v2 / 4;
    assert v2 % 4 == 0 && b == [d0, d1];
    DivMod4(d0, v0, v1 / 16);
    DivMod16(d1, v1 % 16, v2 / 4);
    DivMod4(v2, v2 / 4, 0);
    DivMod16(v1, v1 / 16, v1 % 16);
    assert (d0 % 4) * 16 + d1 / 16 == v1;
    assert (d1 % 16) * 4 == v2;
    assert EncodeSymbols(a, b) == [SymbolOf(a, v0), SymbolOf(a, v1), SymbolOf(a, v2)];
  }

  lemma {:induction false} GroupStepOfDecoded(a: Alphabet, s: string, b: seq<byte>, rest: seq<byte>)
    requires |s| >= 4 && DecodeSymbols(a, s) == Some(b)
    requires DecodeSymbols(a, s[4..]) == Some(rest) && EncodeSymbols(a, rest) == s[4..]
    ensures EncodeSymbols(a, b) == s
  {
    DecodedGroupSplit(a, s, b, rest);
    var v0, v1, v2, v3 := ValueOf(a, s[0]), ValueOf(a, s[1]), ValueOf(a, s[2]), ValueOf(a, s[3]);
    var d := DecodeGroup(v0, v1, v2, v3);
    GroupOfDecoded(a, v0, v1, v2, v3);
    SymbolsOfValues(a, s);
    EncodeSymbolsPrepend(a, d, rest);
    assert s == s[..4] + s[4..];
  }

  /** A decoded text of four or more symbols: its first group, then the decoding of the rest. */
  lemma {:induction false} DecodedGroupSplit(a: Alphabet, s: string, b: seq<byte>, rest: seq<byte>)
    requires |s| >= 4 && DecodeSymbols(a, s) == Some(b) && DecodeSymbols(a, s[4..]) == Some(rest)
    ensures IsSymbol(a, s[0]) && IsSymbol(a, s[1]) && IsSymbol(a, s[2]) && IsSymbol(a, s[3])
    ensures b == DecodeGroup(ValueOf(a, s[0]), ValueOf(a, s[1]), ValueOf(a, s[2]), ValueOf(a, s[3])) + rest
  {
  }

  /** The symbols of the values of four symbols are those symbols. */
  lemma SymbolsOfValues(a: Alphabet, s: string)
    requires |s| >= 4 && IsSymbol(a, s[0]) && IsSymbol(a, s[1]) && IsSymbol(a, s[2]) && IsSymbol(a, s[3])
    ensures [SymbolOf(a, ValueOf(a, s[0])), SymbolOf(a, ValueOf(a, s[1])),
             SymbolOf(a, ValueOf(a, s[2])), SymbolOf(a, ValueOf(a, s[3]))] == s[..4]
  {
  }

  /** Three bytes in front of more bytes: their group in front of the symbols of the rest. */
  lemma EncodeSymbolsPrepend(a: Alphabet, d: seq<byte>, rest: seq<byte>)
    requires |d| == 3
    ensures EncodeSymbols(a, d + rest) == EncodeGroup(a, d[0], d[1], d[2]) + EncodeSymbols(a, rest)
  {
    assert (d + rest)[3..] == rest;
  }

  lemma {:induction false} EncodeDecodeSymbols(a: Alphabet, s: string, b: seq<byte>)
    requires DecodeSymbols(a, s) == Some(b)
    ensures EncodeSymbols(a, b) == s
    decreases |s|
  {
    if |s| == 2 {
      TailTwoOfDecoded(a, s, b);
    } else if |s| == 3 {
      TailThreeOfDecoded(a, s, b);
    } else if |s| >= 4 {
      var rest := DecodeSymbols(a, s[4..]).value;
      EncodeDecodeSymbols(a, s[4..], rest);
      GroupStepOfDecoded(a, s, b, rest);
    }
  }

  lemma {:induction false} UnpadOfPadded(t: string, p: string)
    requires (|t| % 4 == 0 && p == "") || (|t| % 4 == 2 && p == "==") || (|t| % 4 == 3 && p == "=")
    requires t == [] || t[|t| - 1] != PAD
    ensures Unpad(t + p) == Some(t)
  {
    var s := t + p;
    var k := |t| / 4;
    if p == "" {
      assert s == t;
    } else if p == "==" {
      DivMod4(|s|, k + 1, 0);
      assert s[..|s| - 2] == t;
    } else {
      DivMod4(|s|, k + 1, 0);
      assert s[|s| - 1] == PAD;
      assert |s| >= 2 && s[|s| - 2] != PAD;
      assert s[..|s| - 1] == t;
    }
  }

  /** How many symbols a final partial group leaves, read off the byte count. */
  lemma {:induction false} SymbolCountMod4(n: nat)
    ensures n % 3 == 0 ==> ((4 * n + 2) / 3) % 4 == 0
    ensures n % 3 == 1 ==> ((4 * n + 2) / 3) % 4 == 2
    ensures n % 3 == 2 ==> ((4 * n + 2) / 3) % 4 == 3
  {
    var k := n / 3;
    DivMod3(n, k, n % 3);
    if n % 3 == 0 {
      DivMod3(4 * n + 2, 4 * k, 2);
      DivMod4(4 * k, k, 0);
    } else if n % 3 == 1 {
      DivMod3(4 * n + 2, 4 * k + 2, 0);
      DivMod4(4 * k + 2, k, 2);
    } else {
      DivMod3(4 * n + 2, 4 * k + 3, 1);
      DivMod4(4 * k + 3, k, 3);
    }
  }

  lemma {:induction false} PaddedEncoding(a: Alphabet, b: seq<byte>)
    ensures Unpad(Encode(Engine(a, true), b)) == Some(EncodeSymbols(a, b))
  {
    var t := EncodeSymbols(a, b);
    assert Encode(Engine(a, true), b) == t + Padding(|b|);
    EncodeSymbolsAlphabet(a, b);
    if |t| > 0 {
      assert IsSymbol(a, t[|t| - 1]);
    }
    SymbolCountMod4(|b|);
    UnpadOfPadded(t, Padding(|b|));
  }

  /** Decoding inverts encoding, for each of the four engines. */
  lemma {:induction false} DecodeEncode(e: Engine, b: seq<byte>)
    ensures Decode(e, Encode(e, b)) == Ok(b)
  {
    if e.padded {
      PaddedEncoding(e.alphabet, b);
    } else {
      assert Encode(e, b) == EncodeSymbols(e.alphabet, b);
    }
    DecodeEncodeSymbols(e.alphabet, b);
  }

  /** The three shapes canonical padding can have. */
  lemma {:induction false} UnpadCases(s: string, t: string)
    requires Unpad(s) == Some(t)
    ensures |s| % 4 == 0
    ensures s == t || s == t + "=" || s == t + "=="
    ensures s == t ==> |t| % 4 == 0
    ensures s == t + "=" ==> |t| % 4 == 3
    ensures s == t + "==" ==> |t| % 4 == 2
  {
    var k := |s| / 4;
    DivMod4(|s|, k, 0);
    if |s| >= 2 && s[|s| - 2] == PAD && s[|s| - 1] == PAD {
      assert s == s[..|s| - 2] + "==";
      DivMod4(|t|, k - 1, 2);
    } else if |s| >= 1 && s[|s| - 1] == PAD {
      assert s == s[..|s| - 1] + "=";
      DivMod4(|t|, k - 1, 3);
    }
  }

  /** The padding the encoder writes after the symbols that decode to `b`. */
  lemma {:induction false} PaddingOfDecoded(t: string, b: seq<byte>, a: Alphabet)
    requires DecodeSymbols(a, t) == Some(b)
    ensures |t| % 4 == 0 ==> Padding(|b|) == ""
    ensures |t| % 4 == 2 ==> Padding(|b|) == "=="
    ensures |t| % 4 == 3 ==> Padding(|b|) == "="
  {
    var k := |t| / 4;
    DivMod4(|t|, k, |t| % 4);
    if |t| % 4 == 0 {
      DivMod4(3 * |t|, 3 * k, 0);
      DivMod3(|b|, k, 0);
    } else if |t| % 4 == 2 {
      DivMod4(3 * |t|, 3 * k + 1, 2);
      DivMod3(|b|, k, 1);
    } else if |t| % 4 == 3 {
      DivMod4(3 * |t|, 3 * k + 2, 1);
      DivMod3(|b|, k, 2);
    }
  }

  lemma {:induction false} UnpadThenPad(a: Alphabet, s: string, t: string, b: seq<byte>)
    requires Unpad(s) == Some(t) && DecodeSymbols(a, t) == Some(b)
    ensures t + Padding(|b|) == s
  {
    UnpadCases(s, t);
    PaddingOfDecoded(t, b, a);
    if s == t {
      assert t + "" == t;
    }
  }

  /** The decoder accepts exactly the encoder's outputs, and returns what was encoded. */
  lemma {:induction false} DecodeIsInverse(e: Engine, s: string, b: seq<byte>)
    ensures Decode(e, s) == Ok(b) <==> s == Encode(e, b)
  {
    if s == Encode(e, b) {
      DecodeEncode(e, b);
    }
  }

  // ---------------------------------------------------------------- shape of the output

  /** Every character written is a symbol of the engine's alphabet, or `=` when it pads. */
  lemma {:induction false} EncodeSymbolsAlphabet(a: Alphabet, b: seq<byte>)
    ensures forall i :: 0 <= i < |EncodeSymbols(a, b)| ==> IsSymbol(a, EncodeSymbols(a, b)[i])
    decreases |b|
  {
    if |b| >= 3 {
      EncodeSymbolsAlphabet(a, b[3..]);
    }
  }

  lemma {:induction false} EncodeAlphabet(e: Engine, b: seq<byte>)
    ensures forall i :: 0 <= i < |Encode(e, b)| ==>
      IsSymbol(e.alphabet, Encode(e, b)[i]) || (e.padded && Encode(e, b)[i] == PAD)
  {
    EncodeSymbolsAlphabet(e.alphabet, b);
  }

  lemma {:induction false} EncodeIsAscii(e: Engine, b: seq<byte>)
    ensures IsAsciiText(Encode(e, b))
  {
    EncodeAlphabet(e, b);
  }

  /** A character that is not in the alphabet (and not padding, where padding is allowed) makes decoding fail. */
  lemma {:induction false} DecodeRejectsForeign(e: Engine, s: string, i: nat)
    requires i < |s| && !IsSymbol(e.alphabet, s[i]) && !(e.padded && s[i] == PAD)
    ensures Decode(e, s).Err?
  {
    if Decode(e, s).Ok? {
      EncodeAlphabet(e, Decode(e, s).value);
    }
  }

  /** `str::trim_end_matches('=')`. */
  function TrimPadding(s: string): (r: string)
    decreases |s|
  {
    if |s| > 0 && s[|s| - 1] == PAD then TrimPadding(s[..|s| - 1]) else s
  }

  lemma {:induction false} TrimPaddingOf(t: string, n: nat)
    requires t == [] || t[|t| - 1] != PAD
    ensures TrimPadding(t + seq(n, _ => PAD)) == t
    decreases n
  {
    if n > 0 {
      assert (t + seq(n, _ => PAD))[..|t| + n - 1] == t + seq(n - 1, _ => PAD);
      TrimPaddingOf(t, n - 1);
    } else {
      assert t + seq(n, _ => PAD) == t;
    }
  }

  /** The unpadded output is the padded output with its trailing `=` removed (section 3.2 of RFC 4648). */
  lemma {:induction false} UnpaddedIsTrimmedPadded(a: Alphabet, b: seq<byte>)
    ensures Encode(Engine(a, false), b) == TrimPadding(Encode(Engine(a, true), b))
  {
    var t := EncodeSymbols(a, b);
    EncodeSymbolsAlphabet(a, b);
    var n := |Padding(|b|)|;
    assert Padding(|b|) == seq(n, _ => PAD);
    TrimPaddingOf(t, n);
  }

  /** The substitution that turns a symbol of the alphabet in section 4 of RFC 4648 into its counterpart in section 5 of RFC 4648. */
  function UrlSafeChar(c: char): char {
    if c == '+' then '-' else if c == '/' then '_' else c
  }

  function ToUrlSafe(s: string): (r: string)
    ensures |r| == |s|
    decreases |s|
  {
    if s == [] then [] else [UrlSafeChar(s[0])] + ToUrlSafe(s[1..])
  }

  lemma {:induction false} ToUrlSafeAppend(x: string, y: string)
    ensures ToUrlSafe(x + y) == ToUrlSafe(x) + ToUrlSafe(y)
    decreases |x|
  {
    if x != [] {
      assert (x + y)[1..] == x[1..] + y;
      ToUrlSafeAppend(x[1..], y);
    } else {
      assert x + y == y;
    }
  }

  lemma {:induction false} ToUrlSafeAt(s: string)
    ensures forall i :: 0 <= i < |s| ==> ToUrlSafe(s)[i] == UrlSafeChar(s[i])
    decreases |s|
  {
    if s != [] {
      ToUrlSafeAt(s[1..]);
    }
  }

  /** Each symbol of the URL-safe table is the substituted symbol of the standard table. */
  lemma UrlSafeSymbol(v: sextet)
    ensures UrlSafeChar(SymbolOf(Standard, v)) == SymbolOf(UrlSafe, v)
  {
  }

  lemma UrlSafeGroup(b0: byte, b1: byte, b2: byte)
    ensures ToUrlSafe(EncodeGroup(Standard, b0, b1, b2)) == EncodeGroup(UrlSafe, b0, b1, b2)
  {
    var g := EncodeGroup(Standard, b0, b1, b2);
    var h := EncodeGroup(UrlSafe, b0, b1, b2);
    ToUrlSafeAt(g);
    UrlSafeSymbol(b0 / 4);
    UrlSafeSymbol((b0 % 4) * 16 + b1 / 16);
    UrlSafeSymbol((b1 % 16) * 4 + b2 / 64);
    UrlSafeSymbol(b2 % 64);
    assert ToUrlSafe(g)[0] == h[0] && ToUrlSafe(g)[1] == h[1] && ToUrlSafe(g)[2] == h[2] && ToUrlSafe(g)[3] == h[3];
  }

  lemma {:induction false} UrlSafeSymbols(b: seq<byte>)
    ensures EncodeSymbols(UrlSafe, b) == ToUrlSafe(EncodeSymbols(Standard, b))
    decreases |b|
  {
    var s := EncodeSymbols(Standard, b);
    if |b| == 1 || |b| == 2 {
      ToUrlSafeAt(s);
    } else if |b| >= 3 {
      UrlSafeGroup(b[0], b[1], b[2]);
      UrlSafeSymbols(b[3..]);
      ToUrlSafeAppend(EncodeGroup(Standard, b[0], b[1], b[2]), EncodeSymbols(Standard, b[3..]));
    }
  }

  /** The URL-safe output is the standard output with `+` replaced by `-` and `/` by `_` (section 5 of RFC 4648). */
  lemma {:induction false} UrlSafeIsTranslatedStandard(padded: bool, b: seq<byte>)
    ensures Encode(Engine(UrlSafe, padded), b) == ToUrlSafe(Encode(Engine(Standard, padded), b))
  {
    UrlSafeSymbols(b);
    var p := if padded then Padding(|b|) else "";
    ToUrlSafeAppend(EncodeSymbols(Standard, b), p);
    assert ToUrlSafe(p) == p;
  }
}
