/** The `--format` tag of the base64 subcommands (src/cli/b64.rs). */
module CliB64 {
  import opened Results

  datatype Base64Format = Standard | UrlSafe

  /** `Display for Base64Format`: the name `FromStr` reads back as the same tag. */
  function FormatName(f: Base64Format): (r: string)
    ensures ParseFormat(r) == Ok(f)
  {
    match f
    case Standard => "standard"
    case UrlSafe => "urlsafe"
  }

  /** `FromStr for Base64Format`: exactly the two names, case-sensitively. */
  function ParseFormat(s: string): (r: Result<Base64Format, string>)
    ensures r.Ok? <==> s == "standard" || s == "urlsafe"
    ensures r.Ok? ==> (r.value == Standard <==> s == "standard")
    ensures r.Err? ==> r.error == "Invalid format: " + s
  {
    match s
    case "standard" => Ok(Standard)
    case "urlsafe" => Ok(UrlSafe)
    case _ => Err("Invalid format: " + s)
  }

  /** The default of both subcommands' `--format`. */
  const DEFAULT_FORMAT: string := "standard"

  /** Printing then parsing gives the tag back, the default parses, and distinct tags print differently. */
  lemma FormatRoundTrip(f: Base64Format, g: Base64Format)
    ensures ParseFormat(FormatName(f)) == Ok(f)
    ensures FormatName(f) == FormatName(g) ==> f == g
    ensures ParseFormat(DEFAULT_FORMAT) == Ok(Standard)
  {
  }
}
