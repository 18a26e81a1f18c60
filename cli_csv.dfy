/** The output-format tag and output-file check of the csv subcommand (src/cli/csv.rs). */
module CliCsv {
  import opened Results
  import opened RustStr

  datatype OutputFormat = Json | Yaml | Toml

  /** `From<OutputFormat> for &str`; `Display` prints the same text, which `FromStr` reads back. */
  function FormatName(f: OutputFormat): (r: string)
    ensures ParseFormat(r) == Ok(f)
  {
    match f
    case Json => assert ToLower("json") == "json" by { assert ToLower("json")[0] == 'j'; } "json"
    case Yaml => assert ToLower("yaml") == "yaml" by { assert ToLower("yaml")[0] == 'y'; } "yaml"
    case Toml => assert ToLower("toml") == "toml" by { assert ToLower("toml")[0] == 't'; } "toml"
  }

  /** `FromStr for OutputFormat`: the input is lowercased before it is matched. */
  function ParseFormat(s: string): (r: Result<OutputFormat, string>)
    ensures r.Ok? <==> ToLower(s) == "json" || ToLower(s) == "yaml" || ToLower(s) == "toml"
    ensures r.Ok? ==> (r.value == Json <==> ToLower(s) == "json") && (r.value == Yaml <==> ToLower(s) == "yaml")
    ensures r.Err? ==> r.error == "Invalid format: " + s
  {
    var format := ToLower(s);
    if format == "json" then Ok(Json)
    else if format == "yaml" then Ok(Yaml)
    else if format == "toml" then Ok(Toml)
    else Err("Invalid format: " + s)
  }

  /**
   * `verify_output_format`: the text after the last '.' of the lowercased name must
   * parse as an output format; on success the name is returned as given.
   * (Rust's `rfind` gives a byte offset; '.' is one byte, so the text after it is the same.)
   */
  function VerifyOutputFormat(output: string): (r: Result<string, string>)
    ensures r.Ok? ==> r.value == output
    ensures RFind(output, '.').None? ==> r == Err("Invalid format: " + output)
  {
    var format := ToLower(output);
    match RFind(format, '.')
    case None => Err("Invalid format: " + output)
    case Some(lastDot) =>
      var ext := format[lastDot + 1..];
      match ParseFormat(ext)
      case Err(e) => Err(e)
      case Ok(_) => Ok(output)
  }

  lemma {:induction false} ToLowerKeepsDots(s: string)
    ensures RFind(ToLower(s), '.') == RFind(s, '.')
  {
    var t := ToLower(s);
    match RFind(s, '.')
    case None =>
      assert forall j :: 0 <= j < |t| ==> t[j] != '.' by {
        forall j | 0 <= j < |t| ensures t[j] != '.' {
          assert t[j] == ToLowerChar(s[j]);
        }
      }
    case Some(i) =>
      assert t[i] == '.';
      assert forall j :: i < j < |t| ==> t[j] != '.' by {
        forall j | i < j < |t| ensures t[j] != '.' {
          assert t[j] == ToLowerChar(s[j]);
        }
      }
    // RFind is determined by where the dots are, and lowercasing moves none.
    RFindUnique(t, RFind(s, '.'));
  }

  lemma {:induction false} RFindUnique(t: string, r: Option<nat>)
    requires r.Some? ==> r.value < |t| && t[r.value] == '.' && forall j :: r.value < j < |t| ==> t[j] != '.'
    requires r.None? ==> forall j :: 0 <= j < |t| ==> t[j] != '.'
    ensures RFind(t, '.') == r
  {
  }

  lemma {:induction false} ToLowerIdempotent(s: string)
    ensures ToLower(ToLower(s)) == ToLower(s)
  {
    assert forall j :: 0 <= j < |s| ==> ToLower(ToLower(s))[j] == ToLower(s)[j];
  }

  /** Lowercasing a suffix commutes with taking it. */
  lemma {:induction false} ToLowerSuffix(s: string, i: nat)
    requires i <= |s|
    ensures ToLower(s)[i..] == ToLower(s[i..])
  {
    assert forall j :: 0 <= j < |s| - i ==> ToLower(s)[i..][j] == ToLower(s[i..])[j];
  }

  /** Whether a tag parses depends only on its lowercase form. */
  lemma {:induction false} ParseFormatOfLower(s: string)
    ensures ParseFormat(ToLower(s)).Ok? == ParseFormat(s).Ok?
  {
    ToLowerIdempotent(s);
  }

  /** With the last '.' at `i`, the name is accepted exactly when the text after it parses. */
  lemma {:induction false} VerifyOutputFormatAt(output: string, i: nat)
    requires RFind(output, '.') == Some(i)
    ensures VerifyOutputFormat(output).Ok? == ParseFormat(output[i + 1..]).Ok?
  {
    ToLowerKeepsDots(output);
    VerifyOutputFormatUnfold(output, i);
    ToLowerSuffix(output, i + 1);
    ParseFormatOfLower(output[i + 1..]);
  }

  /** With the last '.' of the lowercased name at `i`, the check parses the lowercased text after it. */
  lemma {:induction false} VerifyOutputFormatUnfold(output: string, i: nat)
    requires RFind(ToLower(output), '.') == Some(i)
    ensures VerifyOutputFormat(output).Ok? == ParseFormat(ToLower(output)[i + 1..]).Ok?
  {
  }

  /**
   * A name is accepted exactly when it contains a '.' and the text after its last '.'
   * names an output format in any mix of upper and lower case.
   */
  lemma {:induction false} VerifyOutputFormatAccepts(output: string)
    ensures VerifyOutputFormat(output).Ok? <==>
      RFind(output, '.').Some? && ParseFormat(output[RFind(output, '.').value + 1..]).Ok?
  {
    match RFind(output, '.')
    case None =>
    case Some(i) => VerifyOutputFormatAt(output, i);
  }

  /** The extension is matched in any case: "out.JSON" is accepted as given. */
  lemma AcceptsUpperCaseExtension()
    ensures VerifyOutputFormat("out.JSON") == Ok("out.JSON")
  {
    ParseFormatIgnoresCase();
    assert "out.JSON"[4..] == "JSON";
    LastDotExample("out.JSON", 3);
  }

  /** Only the text after the last '.' counts: "a.b.Yaml" is accepted. */
  lemma AcceptsAfterLastDot()
    ensures VerifyOutputFormat("a.b.Yaml") == Ok("a.b.Yaml")
  {
    ParseFormatIgnoresCase();
    assert "a.b.Yaml"[4..] == "Yaml";
    LastDotExample("a.b.Yaml", 3);
  }

  /** A format name before the last '.' does not help: "a.json.txt" is rejected. */
  lemma RejectsOtherExtension()
    ensures VerifyOutputFormat("a.json.txt").Err?
  {
    ParseFormatIgnoresCase();
    assert "a.json.txt"[7..] == "txt";
    LastDotExample("a.json.txt", 6);
  }

  /** A name ending in '.' has an empty extension, which names no format: "file." is rejected. */
  lemma RejectsEmptyExtension()
    ensures VerifyOutputFormat("file.").Err?
  {
    assert "file."[5..] == "";
    assert ToLower("") == "";
    LastDotExample("file.", 4);
  }

  /** A name without a '.' is rejected with the whole name in the message. */
  lemma RejectsNameWithoutDot()
    ensures VerifyOutputFormat("json") == Err("Invalid format: json")
  {
    RFindUnique("json", None);
    assert "Invalid format: " + "json" == "Invalid format: json";
  }

  /** Applies `VerifyOutputFormatAt` to a name whose last '.' is at `i`. */
  lemma {:induction false} LastDotExample(output: string, i: nat)
    requires i < |output| && output[i] == '.' && forall j :: i < j < |output| ==> output[j] != '.'
    ensures VerifyOutputFormat(output).Ok? == ParseFormat(output[i + 1..]).Ok?
  {
    RFindUnique(output, Some(i));
    VerifyOutputFormatAt(output, i);
  }

  /**
   * `CsvOpts::execute` writes to "output." + the format name when no `--output` is given;
   * that name passes `verify_output_format`, and its extension names the format.
   */
  function DefaultOutputName(f: OutputFormat): (r: string)
    ensures VerifyOutputFormat(r) == Ok(r)
    ensures RFind(r, '.').Some? && ParseFormat(r[RFind(r, '.').value + 1..]) == Ok(f)
  {
    var name := "output." + FormatName(f);
    DefaultOutputNameLastDot(f, name);
    VerifyOutputFormatAt(name, 6);
    name
  }

  /** Printing then parsing gives the format back, and the default output name passes the check. */
  lemma FormatRoundTrip(f: OutputFormat, g: OutputFormat)
    ensures ParseFormat(FormatName(f)) == Ok(f)
    ensures FormatName(f) == FormatName(g) ==> f == g
    ensures VerifyOutputFormat(DefaultOutputName(f)) == Ok(DefaultOutputName(f))
  {
  }

  /** The only '.' of the default output name is the one after "output". */
  lemma DefaultOutputNameLastDot(f: OutputFormat, name: string)
    requires name == "output." + FormatName(f)
    ensures RFind(name, '.') == Some(6)
    ensures name[7..] == FormatName(f)
  {
    var ext := FormatName(f);
    assert forall k :: 0 <= k < |ext| ==> ext[k] != '.';
    assert name[7..] == ext;
    assert forall j :: 6 < j < |name| ==> name[j] == ext[j - 7];
    RFindUnique(name, Some(6));
  }

  /** `from_str` ignores case: "JSON", "Yaml" and "toml" all parse; "txt" does not. */
  lemma ParseFormatIgnoresCase()
    ensures ParseFormat("JSON") == Ok(Json)
    ensures ParseFormat("Yaml") == Ok(Yaml)
    ensures ParseFormat("toml") == Ok(Toml)
    ensures ParseFormat("txt") == Err("Invalid format: txt")
  {
    assert ToLower("JSON") == "json" by { assert ToLower("JSON")[0] == 'j'; }
    assert ToLower("Yaml") == "yaml" by { assert ToLower("Yaml")[0] == 'y'; }
    assert ToLower("toml") == "toml" by { assert ToLower("toml")[0] == 't'; }
    assert ToLower("txt") == "txt" by { assert ToLower("txt")[0] == 't'; }
    assert "Invalid format: " + "txt" == "Invalid format: txt";
  }
}
