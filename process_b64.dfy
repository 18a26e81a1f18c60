/**
 * The base64 subcommands (src/process/b64.rs): pick one of the four engines from the
 * `--format` tag and the `--no-padding` flag, then encode the bytes read, or decode the
 * text read once the surrounding whitespace is trimmed.
 */
module ProcessB64 {
  import opened Results
  import opened Errors
  import opened Bytes
  import opened RustStr
  import opened Base64
  import CliB64

  /** The engine for a tag and flag: the tag picks the alphabet, the flag drops the padding. */
  function EngineFor(format: CliB64.Base64Format, noPadding: bool): (e: Engine)
    ensures e.padded == !noPadding
    ensures e.alphabet == Standard <==> format == CliB64.Standard
  {
    match format
    case Standard => if noPadding then Engine(Alphabet.Standard, false) else Engine(Alphabet.Standard, true)
    case UrlSafe => if noPadding then Engine(Alphabet.UrlSafe, false) else Engine(Alphabet.UrlSafe, true)
  }

  /** The four combinations of tag and flag select four different engines, and every engine is selected. */
  lemma EngineForIsBijective(f: CliB64.Base64Format, n: bool, g: CliB64.Base64Format, m: bool, e: Engine)
    ensures EngineFor(f, n) == EngineFor(g, m) ==> f == g && n == m
    ensures exists h: CliB64.Base64Format, k: bool :: EngineFor(h, k) == e
  {
    var h := if e.alphabet == Standard then CliB64.Standard else CliB64.UrlSafe;
    assert EngineFor(h, !e.padded) == e;
  }

  /** `process_encode` on the bytes already read: every character is a symbol of the alphabet or padding. */
  function ProcessEncode(input: seq<byte>, format: CliB64.Base64Format, noPadding: bool): (r: string)
    ensures noPadding ==> |r| == (4 * |input| + 2) / 3
    ensures !noPadding ==> |r| == 4 * ((|input| + 2) / 3)
    ensures forall i :: 0 <= i < |r| ==>
      IsSymbol(EngineFor(format, noPadding).alphabet, r[i]) || (!noPadding && r[i] == PAD)
  {
    var e := EngineFor(format, noPadding);
    EncodeAlphabet(e, input);
    Encode(e, input)
  }

  /**
   * `process_decode` on the text already read: it is trimmed, then decoded; only the
   * exact encoding of some bytes is accepted, and those bytes are returned.
   */
  function ProcessDecode(input: string, format: CliB64.Base64Format, noPadding: bool): (r: Result<seq<byte>, Error>)
    ensures r.Ok? ==> Encode(EngineFor(format, noPadding), r.value) == Trim(input)
    ensures r.Err? ==> r.error == InvalidBase64
  {
    Decode(EngineFor(format, noPadding), Trim(input))
  }

  /** The decoder accepts the trimmed input exactly when it is the encoding of the bytes returned. */
  lemma {:induction false} ProcessDecodeIsInverse(input: string, format: CliB64.Base64Format, noPadding: bool, b: seq<byte>)
    ensures ProcessDecode(input, format, noPadding) == Ok(b) <==> Trim(input) == ProcessEncode(b, format, noPadding)
  {
    DecodeIsInverse(EngineFor(format, noPadding), Trim(input), b);
  }

  /** No symbol of either alphabet, and not the padding character, is whitespace. */
  lemma SymbolIsNotWhitespace(a: Alphabet, c: char)
    requires IsSymbol(a, c) || c == PAD
    ensures !IsWhitespace(c)
  {
  }

  /** An encoding neither starts nor ends with whitespace, so trimming leaves it alone. */
  lemma {:induction false} EncodingIsTrimmed(input: seq<byte>, format: CliB64.Base64Format, noPadding: bool)
    ensures Trimmed(ProcessEncode(input, format, noPadding))
  {
    var s := ProcessEncode(input, format, noPadding);
    if s != [] {
      SymbolIsNotWhitespace(EngineFor(format, noPadding).alphabet, s[0]);
      SymbolIsNotWhitespace(EngineFor(format, noPadding).alphabet, s[|s| - 1]);
    }
  }

  /**
   * Encoding then decoding with the same tag and flag gives the bytes back, even when the
   * encoded text is surrounded by whitespace such as the newline an editor appends to a file.
   */
  lemma {:induction false} EncodeThenDecode(input: seq<byte>, format: CliB64.Base64Format, noPadding: bool, before: string, after: string)
    requires AllWhitespace(before) && AllWhitespace(after)
    ensures ProcessDecode(before + ProcessEncode(input, format, noPadding) + after, format, noPadding) == Ok(input)
  {
    var s := ProcessEncode(input, format, noPadding);
    EncodingIsTrimmed(input, format, noPadding);
    TrimOfPadded(before, s, after);
    ProcessDecodeIsInverse(before + s + after, format, noPadding, input);
  }

  /** A character of the trimmed text outside the alphabet, other than allowed padding, makes decoding fail. */
  lemma {:induction false} ProcessDecodeRejectsForeign(input: string, format: CliB64.Base64Format, noPadding: bool, i: nat)
    requires i < |Trim(input)|
    requires !IsSymbol(EngineFor(format, noPadding).alphabet, Trim(input)[i])
    requires noPadding || Trim(input)[i] != PAD
    ensures ProcessDecode(input, format, noPadding) == Err(InvalidBase64)
  {
    DecodeRejectsForeign(EngineFor(format, noPadding), Trim(input), i);
  }

  /** `--format urlsafe` writes the standard text with `+` replaced by `-` and `/` by `_`. */
  lemma {:induction false} UrlSafeEncoding(input: seq<byte>, noPadding: bool)
    ensures ProcessEncode(input, CliB64.UrlSafe, noPadding) == ToUrlSafe(ProcessEncode(input, CliB64.Standard, noPadding))
  {
    UrlSafeIsTranslatedStandard(!noPadding, input);
  }

  /** `--no-padding` writes the padded text without its trailing `=`. */
  lemma {:induction false} NoPaddingEncoding(input: seq<byte>, format: CliB64.Base64Format)
    ensures ProcessEncode(input, format, true) == TrimPadding(ProcessEncode(input, format, false))
  {
    UnpaddedIsTrimmedPadded(EngineFor(format, true).alphabet, input);
  }

  /** The bytes of "hello,world\n". */
  const HELLO_WORLD: seq<byte> := [104, 101, 108, 108, 111, 44, 119, 111, 114, 108, 100, 10]

  /** Three bytes of the fixture and the four symbols they become. */
  lemma {:induction false} FixtureGroup(b0: byte, b1: byte, b2: byte, v0: sextet, v1: sextet, v2: sextet, v3: sextet, group: string)
    requires v0 == b0 / 4 && v1 == (b0 % 4) * 16 + b1 / 16 && v2 == (b1 % 16) * 4 + b2 / 64 && v3 == b2 % 64
    requires group == [SymbolOf(Alphabet.Standard, v0), SymbolOf(Alphabet.Standard, v1),
                       SymbolOf(Alphabet.Standard, v2), SymbolOf(Alphabet.Standard, v3)]
    ensures EncodeGroup(Alphabet.Standard, b0, b1, b2) == group
  {
  }

  /** A group of three bytes in front of more bytes is encoded in front of their symbols. */
  lemma {:induction false} PrependGroup(b0: byte, b1: byte, b2: byte, rest: seq<byte>, group: string)
    requires EncodeGroup(Alphabet.Standard, b0, b1, b2) == group
    ensures EncodeSymbols(Alphabet.Standard, [b0, b1, b2] + rest) == group + EncodeSymbols(Alphabet.Standard, rest)
  {
    EncodeSymbolsPrepend(Alphabet.Standard, [b0, b1, b2], rest);
  }

  /** The symbols of "hello,world\n", group by group. */
  lemma EncodeFixtureSymbols()
    ensures EncodeSymbols(Alphabet.Standard, HELLO_WORLD) == "aGVs" + ("bG8s" + ("d29y" + ("bGQK" + [])))
  {
    var r3: seq<byte> := [108, 100, 10];
    var r2: seq<byte> := [119, 111, 114] + r3;
    var r1: seq<byte> := [108, 111, 44] + r2;
    assert HELLO_WORLD == [104, 101, 108] + r1;
    FixtureGroup(104, 101, 108, 26, 6, 21, 44, "aGVs");
    FixtureGroup(108, 111, 44, 27, 6, 60, 44, "bG8s");
    FixtureGroup(119, 111, 114, 29, 54, 61, 50, "d29y");
    FixtureGroup(108, 100, 10, 27, 6, 16, 10, "bGQK");
    assert EncodeSymbols(Alphabet.Standard, r3) == "bGQK" + [] by {
      PrependGroup(108, 100, 10, [], "bGQK");
      assert r3 == [108, 100, 10] + [];
    }
    PrependGroup(119, 111, 114, r3, "d29y");
    PrependGroup(108, 111, 44, r2, "bG8s");
    PrependGroup(104, 101, 108, r1, "aGVs");
  }

  /** The four groups of the fixture, one after the other. */
  lemma FixtureText()
    ensures "aGVs" + ("bG8s" + ("d29y" + ("bGQK" + []))) == "aGVsbG8sd29ybGQK"
  {
  }

  /** The encoding the repository's test expects for its fixture file. */
  lemma EncodeFixture()
    ensures ProcessEncode(HELLO_WORLD, CliB64.Standard, false) == "aGVsbG8sd29ybGQK"
  {
    var e := EngineFor(CliB64.Standard, false);
    var symbols := EncodeSymbols(Alphabet.Standard, HELLO_WORLD);
    assert |HELLO_WORLD| == 12;
    assert Padding(12) == "";
    assert Encode(e, HELLO_WORLD) == symbols + "";
    assert symbols + "" == symbols;
    EncodeFixtureSymbols();
    FixtureText();
  }

  /** An encoding written as a line, with its newline, decodes back to the bytes. */
  lemma DecodeLine(input: seq<byte>, text: string)
    requires ProcessEncode(input, CliB64.Standard, false) == text
    ensures ProcessDecode(text + "\n", CliB64.Standard, false) == Ok(input)
  {
    EncodeThenDecode(input, CliB64.Standard, false, "", "\n");
    assert "" + text + "\n" == text + "\n";
  }

  lemma FixtureLine()
    ensures "aGVsbG8sd29ybGQK" + "\n" == "aGVsbG8sd29ybGQK\n"
  {
  }

  /** The encode fixture's output, read back as a line with its newline, decodes to the fixture bytes. */
  lemma DecodeFixture()
    ensures ProcessDecode("aGVsbG8sd29ybGQK\n", CliB64.Standard, false) == Ok(HELLO_WORLD)
  {
    EncodeFixture();
    DecodeLine(HELLO_WORLD, "aGVsbG8sd29ybGQK");
    FixtureLine();
  }

  /** The bytes of "hello,world", without a newline. */
  const HELLO: seq<byte> := [104, 101, 108, 108, 111, 44, 119, 111, 114, 108, 100]

  lemma HelloIsText()
    ensures IsAsciiText("hello,world") && AsciiBytes("hello,world") == HELLO
  {
  }

  /** The symbols of "hello,world": three groups, then the final two bytes as three symbols. */
  lemma EncodeHelloSymbols()
    ensures EncodeSymbols(Alphabet.Standard, HELLO) == "aGVs" + ("bG8s" + ("d29y" + "bGQ"))
  {
    var r3: seq<byte> := [108, 100];
    var r2: seq<byte> := [119, 111, 114] + r3;
    var r1: seq<byte> := [108, 111, 44] + r2;
    assert HELLO == [104, 101, 108] + r1;
    FixtureGroup(104, 101, 108, 26, 6, 21, 44, "aGVs");
    FixtureGroup(108, 111, 44, 27, 6, 60, 44, "bG8s");
    FixtureGroup(119, 111, 114, 29, 54, 61, 50, "d29y");
    assert EncodeSymbols(Alphabet.Standard, r3) == "bGQ";
    PrependGroup(119, 111, 114, r3, "d29y");
    PrependGroup(108, 111, 44, r2, "bG8s");
    PrependGroup(104, 101, 108, r1, "aGVs");
  }

  lemma HelloText()
    ensures "aGVs" + ("bG8s" + ("d29y" + "bGQ")) + "=" == "aGVsbG8sd29ybGQ="
  {
  }

  /** "hello,world" is encoded as three groups, a final group of two bytes and one '='. */
  lemma EncodeHello()
    ensures ProcessEncode(HELLO, CliB64.Standard, false) == "aGVsbG8sd29ybGQ="
  {
    var e := EngineFor(CliB64.Standard, false);
    var symbols := EncodeSymbols(Alphabet.Standard, HELLO);
    assert |HELLO| == 11;
    assert Padding(11) == "=";
    assert Encode(e, HELLO) == symbols + "=";
    EncodeHelloSymbols();
    HelloText();
  }

  /**
   * The decoding half of the repository's test expects "hello,world" from the decode fixture:
   * that holds exactly when the fixture, once trimmed, is "aGVsbG8sd29ybGQ=".
   */
  lemma {:induction false} DecodeTestFixture(text: string)
    ensures ProcessDecode(text, CliB64.Standard, false) == Ok(HELLO) <==> Trim(text) == "aGVsbG8sd29ybGQ="
  {
    EncodeHello();
    ProcessDecodeIsInverse(text, CliB64.Standard, false, HELLO);
  }
}
