/** The `--format` tags of the text subcommands (src/cli/text.rs). */
module CliText {
  import opened Results

  /** The signing tag set; `ChaCha20Poly1305` is in it although it signs nothing. */
  datatype TextSignFormat = Blake3 | Ed25519 | ChaCha20Poly1305

  /** The encryption tag set. */
  datatype TextEncryptFormat = ChaCha20Poly1305

  /** `Display for TextSignFormat`: the name `FromStr` reads back as the same tag. */
  function SignFormatName(f: TextSignFormat): (r: string)
    ensures ParseSignFormat(r) == Ok(f)
  {
    match f
    case Blake3 => "blake3"
    case Ed25519 => "ed25519"
    case ChaCha20Poly1305 => "chacha20poly1305"
  }

  /** `FromStr for TextSignFormat`: exactly the three names, case-sensitively. */
  function ParseSignFormat(s: string): (r: Result<TextSignFormat, string>)
    ensures r.Ok? <==> s == "blake3" || s == "ed25519" || s == "chacha20poly1305"
    ensures r.Ok? ==> (r.value == Blake3 <==> s == "blake3") && (r.value == Ed25519 <==> s == "ed25519")
    ensures r.Err? ==> r.error == "Invalid format: " + s
  {
    match s
    case "blake3" => Ok(Blake3)
    case "ed25519" => Ok(Ed25519)
    case "chacha20poly1305" => Ok(TextSignFormat.ChaCha20Poly1305)
    case _ => Err("Invalid format: " + s)
  }

  /** `Display for TextEncryptFormat`: the name `FromStr` reads back as the same tag. */
  function EncryptFormatName(f: TextEncryptFormat): (r: string)
    ensures ParseEncryptFormat(r) == Ok(f)
  {
    match f
    case ChaCha20Poly1305 => "chacha20poly1305"
  }

  /** `FromStr for TextEncryptFormat`: only "chacha20poly1305". */
  function ParseEncryptFormat(s: string): (r: Result<TextEncryptFormat, string>)
    ensures r.Ok? <==> s == "chacha20poly1305"
    ensures r.Ok? ==> r.value == TextEncryptFormat.ChaCha20Poly1305
    ensures r.Err? ==> r.error == "Invalid format: " + s
  {
    if s == "chacha20poly1305" then Ok(TextEncryptFormat.ChaCha20Poly1305) else Err("Invalid format: " + s)
  }

  /** The default `--format` of sign, verify and generate. */
  const DEFAULT_SIGN_FORMAT: string := "blake3"
  /** The default `--format` of encrypt and decrypt. */
  const DEFAULT_ENCRYPT_FORMAT: string := "chacha20poly1305"

  /** Printing then parsing gives the tag back, and distinct tags print differently. */
  lemma SignFormatRoundTrip(f: TextSignFormat, g: TextSignFormat)
    ensures ParseSignFormat(SignFormatName(f)) == Ok(f)
    ensures SignFormatName(f) == SignFormatName(g) ==> f == g
  {
  }

  lemma EncryptFormatRoundTrip(f: TextEncryptFormat)
    ensures ParseEncryptFormat(EncryptFormatName(f)) == Ok(f)
  {
  }

  /** The defaults of the five text subcommands all parse. */
  lemma DefaultFormatsParse()
    ensures ParseSignFormat(DEFAULT_SIGN_FORMAT) == Ok(Blake3)
    ensures ParseEncryptFormat(DEFAULT_ENCRYPT_FORMAT) == Ok(TextEncryptFormat.ChaCha20Poly1305)
  {
  }
}
