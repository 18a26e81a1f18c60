# rcli text, base64, format-tag and password core, in Dafny

This project models the logic of the `rcli` command-line tool that sits around its cryptographic primitives and its I/O.

- **Text subcommands** (`src/process/text.rs`). BLAKE3 keyed-hash signing and verification, Ed25519 signing and verification, and ChaCha20-Poly1305 encryption and decryption. The model covers:
  - the 32-byte key checks and key loaders;
  - the envelope `nonce(12) ++ ciphertext`;
  - the URL-safe, unpadded base64 wire format;
  - the dispatch on the format tag;
  - key generation.
- **Base64 subcommands** (`src/process/b64.rs`). The choice of one of four RFC 4648 codecs from `--format` and `--no-padding`, and the trimming of the decoder's input. The codec itself is modelled after RFC 4648:
  - the standard alphabet of section 4;
  - the URL- and filename-safe alphabet of section 5;
  - the optional `=` padding of section 3.2.

  Decoding is canonical: exactly the encoder's outputs are accepted.
- **Format tags** (`src/cli/text.rs`, `src/cli/b64.rs`, `src/cli/csv.rs`). Their parsers and printers, the csv `verify_output_format` check, the default csv output name, and the key-file names of `text generate`.
- **Password generator** (`src/process/gen_pass.rs`). Written imperatively, as in the source:
  - one character from each enabled class;
  - the rest from the union of the enabled classes;
  - an in-place Fisher–Yates shuffle on an array.

## How the model is built

- **Primitives.** The BLAKE3, Ed25519 and ChaCha20-Poly1305 implementations are parameters, the fields of `Crypto.Primitives`. `Primitives.Valid` states the only facts the core relies on:
  - a keyed hash is 32 bytes;
  - a signature is 64 bytes;
  - a derived public key is a valid 32-byte point that verifies its key's signatures;
  - a successful encryption adds a 16-byte tag and is inverted by decryption.

  `Crypto.ValidIsSatisfiable` shows that these facts do not contradict each other.
- **Randomness.** The nonce, the Ed25519 and ChaCha20 keys, the password indices and the shuffle swaps are nondeterministic choices (`:|`). What is proved therefore holds for every value drawn.
- **Failures.** Panics become explicit `Errors.Error` values: a slice or index out of range, `unimplemented!()`, and sampling from an empty range. So do the `anyhow` errors.
- **Inputs.** The bytes read from files and standard input are parameters.
- **Modules.** The modules follow the source files where the source has them, and the crates and standard-library calls the core relies on get modules of their own:
  - `ProcessText`, `ProcessB64`, `GenPass`, `CliB64` and `CliCsv` each model one source file;
  - `CliText` and `CliTextGenerate` both come from `src/cli/text.rs`: the first holds its format tags, the second the file mapping of `text generate`;
  - `Base64` is the codec of the `base64` crate;
  - `RustStr` holds `trim`, `to_lowercase` and `rfind`;
  - `Bytes` holds bytes and their text forms;
  - `Crypto` holds the primitives;
  - `Results` holds the `Option` and `Result` types, and `Errors` the error values that stand for the source's `anyhow` errors and panics.
- **Messages.** `process_gen_pass` refuses a length under 4 with the message "Length must be greater than 4", yet accepts a length of 4. The model follows the code: 4 is accepted.

## Model

| member | source | states |
|---|---|---|
| ProcessText.KeyFromSlice | src/process/text.rs:274-284 | the 32-byte `try_from` succeeds iff the slice has exactly 32 bytes, keeps them unchanged, and otherwise fails with InvalidKeyLength |
| ProcessText.LoadKey32 | src/process/text.rs:69-74 | loading keeps exactly the first 32 bytes of the file; a shorter file is SliceOutOfRange; InvalidKeyLength can never arise on this path |
| ProcessText.Blake3.TryFrom | src/process/text.rs:274-284 | Ok iff 32 bytes, and the key is those bytes; else InvalidKeyLength |
| ProcessText.Blake3.Load | src/process/text.rs:69-74 | Ok iff the file has at least 32 bytes, with key = the first 32; else SliceOutOfRange |
| ProcessText.Blake3.Sign | src/process/text.rs:51-57 | the signature is 32 bytes |
| ProcessText.Blake3.Verify | src/process/text.rs:59-67 | only a 32-byte signature can verify |
| ProcessText.Blake3SignThenVerify | src/process/text.rs:52-66 | verify accepts the signature sign produced, and accepts a signature iff it equals that one |
| ProcessText.Ed25519Signer.TryFrom | src/process/text.rs:292-299 | Ok iff exactly 32 bytes, with key = those bytes; else InvalidSliceLength |
| ProcessText.Ed25519Signer.Load | src/process/text.rs:100-105 | the whole file is the key: Ok iff the file has exactly 32 bytes, with no truncation; otherwise InvalidSliceLength |
| ProcessText.Ed25519Signer.Sign | src/process/text.rs:92-98 | the signature is 64 bytes |
| ProcessText.Ed25519Verifier.TryFrom | src/process/text.rs:307-314 | Ok iff 32 bytes forming a valid point; a wrong length is InvalidSliceLength, an invalid point InvalidVerifyingKey |
| ProcessText.Ed25519Verifier.Load | src/process/text.rs:127-132 | Ok iff the whole file is a 32-byte valid key, with key = the file; a file of another length is InvalidSliceLength, an invalid point InvalidVerifyingKey |
| ProcessText.Ed25519Verifier.Verify | src/process/text.rs:118-125 | an error, not false, iff the signature is not 64 bytes; otherwise the primitive's verdict |
| ProcessText.Ed25519SignThenVerify | src/process/text.rs:107-125 | the public key of any signing key loads as a verifier, which accepts that key's signatures |
| ProcessText.Seal | src/process/text.rs:152-169 | the envelope is the 12-byte nonce followed by the AEAD output, of length 12 + message + 16; an AEAD failure is EncryptError |
| ProcessText.Open | src/process/text.rs:183-196 | bytes [0,12) are the nonce and the rest the ciphertext; under 12 bytes is SliceOutOfRange; a success is what the AEAD decrypts |
| ProcessText.OpenSeal | src/process/text.rs:152-196 | opening a sealed envelope with the same key gives the message back |
| ProcessText.ChaChaEncryptor.TryFrom | src/process/text.rs:322-332 | Ok iff 32 bytes; else InvalidKeyLength, as for BLAKE3 |
| ProcessText.ChaChaEncryptor.Load | src/process/text.rs:146-151 | Ok iff at least 32 bytes, keeping the first 32; else SliceOutOfRange |
| ProcessText.ChaChaEncryptor.Encrypt | src/process/text.rs:152-169 | a 12-byte nonce is drawn and the result is exactly that nonce followed by the ciphertext made under it (Seal); an AEAD failure is EncryptError |
| ProcessText.ChaChaDecryptor.TryFrom | src/process/text.rs:340-350 | Ok iff 32 bytes; else InvalidKeyLength |
| ProcessText.ChaChaDecryptor.Load | src/process/text.rs:176-181 | Ok iff at least 32 bytes, keeping the first 32; else SliceOutOfRange |
| ProcessText.ChaChaDecryptor.Decrypt | src/process/text.rs:183-196 | a success means the untrimmed input is the URL-safe unpadded encoding of an envelope that opens to the result |
| ProcessText.ProcessTextSign | src/process/text.rs:198-213 | the ChaCha20Poly1305 tag is Unimplemented; BLAKE3 succeeds iff the key file has at least 32 bytes (else SliceOutOfRange), Ed25519 iff exactly 32 (else InvalidSliceLength); the signature text is 43 or 86 characters |
| ProcessText.ProcessTextVerify | src/process/text.rs:215-235 | the signature text is decoded first: bad base64 fails before any key is read, whatever the tag; the ChaCha20Poly1305 tag is Unimplemented; BLAKE3 fails iff the key file is under 32 bytes (SliceOutOfRange), and otherwise says whether the decoded signature equals the keyed hash under the first 32 bytes; Ed25519 succeeds iff the key file is a valid 32-byte key and the signature decodes to 64 bytes, a wrong-length key file being InvalidSliceLength and an invalid point InvalidVerifyingKey, and its verdict is the primitive's; true only for a canonical encoding |
| ProcessText.Blake3VerifyText | src/process/text.rs:215-235 | BLAKE3 verification returns true iff the key file has at least 32 bytes and the signature text is the encoding of the keyed hash of the input under its first 32 bytes |
| ProcessText.Ed25519VerifyText | src/process/text.rs:215-235 | Ed25519 verification of an encoded signature returns true iff the key file is a valid 32-byte public key, the signature has 64 bytes and the primitive accepts it |
| ProcessText.Blake3SignThenVerifyText | src/process/text.rs:356-365 | sign then verify with the same BLAKE3 key file returns true |
| ProcessText.Ed25519SignThenVerifyText | src/process/text.rs:367-377 | a signature made with a 32-byte secret key file verifies true with its public key file |
| ProcessText.Blake3WrongLengthIsFalse | src/process/text.rs:59-66 | a BLAKE3 signature not decoding to 32 bytes verifies false, without error |
| ProcessText.Ed25519WrongLengthIsError | src/process/text.rs:122 | an Ed25519 signature not decoding to 64 bytes is an InvalidSliceLength error |
| ProcessText.SealText | src/process/text.rs:245-255 | a key file under 32 bytes is SliceOutOfRange; the encrypted text is ASCII |
| ProcessText.ProcessTextEncrypt | src/process/text.rs:245-255 | the result is the encoded envelope for the nonce that was drawn; a key file under 32 bytes is SliceOutOfRange; the text is ASCII |
| ProcessText.ProcessTextDecrypt | src/process/text.rs:257-266 | a key file under 32 bytes is SliceOutOfRange; otherwise the decryptor keyed with its first 32 bytes decides |
| ProcessText.EncryptThenDecrypt | src/process/text.rs:245-266 | decrypting, with the same key file, the bytes of the text encrypt printed gives the message back, for every nonce |
| ProcessText.SealTextLength | src/process/text.rs:163-167 | the encrypted text has length ceil(4(12 + n + 16)/3) for an n-byte message |
| ProcessText.DecryptShortEnvelope | src/process/text.rs:189-190 | the encoding of fewer than 12 bytes decrypts to SliceOutOfRange |
| ProcessText.DecryptRejectsTrailingNewline | src/process/text.rs:187-189 | the decryptor does not trim, so the encrypted text followed by a newline fails to decode |
| ProcessText.BlobCount | src/process/text.rs:237-243 | generation yields one or two blobs |
| ProcessText.GenerateBlake3 | src/process/text.rs:76-81 | the BLAKE3 key is one 32-byte ASCII blob that passes the 32-byte key check and is a password of `process_gen_pass(32, true, true, true, true)`: from the four classes, with one character of each |
| ProcessText.ProcessTextGenerate | src/process/text.rs:237-243 | it always succeeds with two 32-byte blobs for Ed25519, the secret key then its public key, and one 32-byte blob otherwise; the BLAKE3 blob is a four-class password |
| ProcessText.GeneratedKeysLoad | src/process/text.rs:237-243 | generated keys load with the loaders of their tag; a generated Ed25519 pair signs and verifies |
| CliText.ParseSignFormat | src/cli/text.rs:178-189 | accepts exactly "blake3", "ed25519" and "chacha20poly1305", case-sensitively, each naming its own tag; any other s gives "Invalid format: " + s |
| CliText.ParseEncryptFormat | src/cli/text.rs:206-215 | accepts only "chacha20poly1305"; any other s gives "Invalid format: " + s |
| CliText.SignFormatName | src/cli/text.rs:191-199 | the printed name is one `FromStr` parses back to the same tag |
| CliText.EncryptFormatName | src/cli/text.rs:217-222 | the printed name is one `FromStr` parses back to the same tag |
| CliText.SignFormatRoundTrip | src/cli/text.rs:191-199 | parsing the printed tag gives the tag back, and printing is injective |
| CliText.EncryptFormatRoundTrip | src/cli/text.rs:217-222 | parsing the printed tag gives the tag back |
| CliText.DefaultFormatsParse | src/cli/text.rs:37 | the defaults "blake3" and "chacha20poly1305" parse |
| CliTextGenerate.FileNames | src/cli/text.rs:95-110 | there is one file name per generated blob |
| CliTextGenerate.KeyFiles | src/cli/text.rs:95-110 | blob i goes to the i-th file name of the tag; too few blobs would be an index panic |
| CliTextGenerate.TextGenerate | src/cli/text.rs:91-113 | generate then write never indexes past the blobs: it pairs every generated key with its file name |
| CliTextGenerate.FileNamesDistinct | src/cli/text.rs:100-105 | the two Ed25519 files have different names |
| CliB64.ParseFormat | src/cli/b64.rs:76-86 | accepts exactly "standard" and "urlsafe", each naming its own tag; any other s gives "Invalid format: " + s |
| CliB64.FormatName | src/cli/b64.rs:88-95 | the printed name is one `FromStr` parses back to the same tag |
| CliB64.FormatRoundTrip | src/cli/b64.rs:88-95 | parsing the printed tag gives the tag back, printing is injective, and the default "standard" parses |
| CliCsv.ParseFormat | src/cli/csv.rs:61-73 | accepts s iff its lowercase form is "json", "yaml" or "toml", each lowercase form naming its own format; else "Invalid format: " + s |
| CliCsv.VerifyOutputFormat | src/cli/csv.rs:51-59 | a success returns the name as given; a name without '.' is rejected with the whole name in the message |
| CliCsv.VerifyOutputFormatAt | src/cli/csv.rs:52-57 | with the last '.' at i, the name is accepted iff the text after i parses as a format |
| CliCsv.VerifyOutputFormatAccepts | src/cli/csv.rs:51-59 | a name is accepted iff it has a '.' and the text after its last '.' parses, in any case |
| CliCsv.AcceptsUpperCaseExtension | src/cli/csv.rs:52-58 | "out.JSON" is accepted and returned unchanged |
| CliCsv.AcceptsAfterLastDot | src/cli/csv.rs:53-58 | "a.b.Yaml" is accepted |
| CliCsv.RejectsOtherExtension | src/cli/csv.rs:53-57 | "a.json.txt" is rejected |
| CliCsv.RejectsEmptyExtension | src/cli/csv.rs:56-57 | "file." is rejected |
| CliCsv.RejectsNameWithoutDot | src/cli/csv.rs:53-55 | "json" is rejected with "Invalid format: json" |
| CliCsv.ParseFormatOfLower | src/cli/csv.rs:65 | whether a tag parses depends only on its lowercase form |
| CliCsv.FormatName | src/cli/csv.rs:75-89 | the printed name is one `FromStr` parses back to the same format |
| CliCsv.DefaultOutputName | src/cli/csv.rs:35-38 | the default output name passes verify_output_format unchanged, and its extension parses to the format it was made from |
| CliCsv.DefaultOutputNameLastDot | src/cli/csv.rs:35-38 | the last '.' of "output." + name is the one after "output" |
| CliCsv.FormatRoundTrip | src/cli/csv.rs:33-41 | print then parse is the identity, printing is injective, and the default output name passes verify_output_format |
| CliCsv.ParseFormatIgnoresCase | src/cli/csv.rs:64-71 | "JSON", "Yaml" and "toml" parse; "txt" gives "Invalid format: txt" |
| ProcessB64.EngineFor | src/process/b64.rs:11-26 | the flag decides padding and the tag decides the alphabet |
| ProcessB64.EngineForIsBijective | src/process/b64.rs:11-26 | the four (tag, flag) pairs select four different codecs, and each codec is selected |
| ProcessB64.ProcessEncode | src/process/b64.rs:7-29 | padded output has length 4·ceil(n/3), unpadded ceil(4n/3); every character is an alphabet symbol, or '=' when padded |
| ProcessB64.ProcessDecode | src/process/b64.rs:31-55 | a success returns bytes whose encoding is the trimmed input; a failure is InvalidBase64 |
| ProcessB64.ProcessDecodeIsInverse | src/process/b64.rs:31-55 | decode returns b iff the trimmed input is the encoding of b |
| ProcessB64.EncodingIsTrimmed | src/process/b64.rs:35 | an encoding has no whitespace at either end |
| ProcessB64.EncodeThenDecode | src/process/b64.rs:34-35 | decode(w1 + encode(b) + w2) == b for any whitespace w1, w2, with the same tag and flag |
| ProcessB64.ProcessDecodeRejectsForeign | src/process/b64.rs:36-51 | a character of the trimmed text outside the alphabet, other than allowed padding, makes decoding fail |
| ProcessB64.UrlSafeEncoding | src/process/b64.rs:11-26 | the urlsafe output is the standard output with '+' replaced by '-' and '/' by '_' |
| ProcessB64.NoPaddingEncoding | src/process/b64.rs:13-17 | the unpadded output is the padded output with trailing '=' removed |
| ProcessB64.EncodeFixture | src/process/b64.rs:62-68 | "hello,world\n" encodes to "aGVsbG8sd29ybGQK" |
| ProcessB64.DecodeFixture | src/process/b64.rs:31-55 | the encode fixture's output, read back as a line with its newline, decodes to the bytes of "hello,world\n" |
| ProcessB64.EncodeHello | src/process/b64.rs:7-29 | "hello,world" encodes to "aGVsbG8sd29ybGQ=" with the padded standard codec |
| ProcessB64.DecodeTestFixture | src/process/b64.rs:69-71 | the decode test gets the bytes of "hello,world" iff the decode fixture, once trimmed, is "aGVsbG8sd29ybGQ=" |
| Base64.Encode | src/process/b64.rs:14-23 | padded length 4·ceil(n/3), unpadded ceil(4n/3) |
| Base64.DecodeEncode | src/process/b64.rs:36-51 | for each codec, decoding the encoding of any bytes returns them |
| Base64.Decode | src/process/b64.rs:36-51 | whatever decodes to b is exactly the encoding of b: decoding is canonical; every failure is InvalidBase64 |
| Base64.DecodeIsInverse | src/process/b64.rs:36-51 | decode(s) == b iff s == encode(b) |
| Base64.DecodeRejectsForeign | src/process/b64.rs:39-48 | a character outside the alphabet, other than padding where it is allowed, makes decoding fail |
| Base64.EncodeAlphabet | src/process/b64.rs:11-26 | every output character is a symbol of the chosen alphabet, or '=' when padded |
| Base64.EncodeIsAscii | src/process/text.rs:253 | an encoding is ASCII text |
| Base64.UrlSafeIsTranslatedStandard | src/process/b64.rs:12-25 | the URL-safe output is the standard output with '+' and '/' replaced |
| Base64.UnpaddedIsTrimmedPadded | src/process/b64.rs:14-23 | the unpadded output is the padded output with trailing '=' removed |
| RustStr.Trim | src/process/b64.rs:35 | the result is a slice of the input with only whitespace before and after it, and neither starts nor ends with whitespace |
| RustStr.TrimOfPadded | src/process/b64.rs:35 | trim removes exactly the surrounding whitespace and keeps the text between |
| RustStr.ToLower | src/cli/csv.rs:52 | lowercasing keeps the length and folds each character |
| RustStr.RFind | src/cli/csv.rs:53 | the position returned holds the last '.'; None means there is no '.' |
| Bytes.FromUtf8 | src/process/gen_pass.rs:45 | the conversion succeeds iff the bytes are ASCII, and gives back text with those bytes |
| GenPass.CharSet | src/process/gen_pass.rs:20-37 | the set is empty iff no class is enabled |
| GenPass.CharSetIsUnion | src/process/gen_pass.rs:20-37 | the set holds exactly the characters of the enabled classes, all ASCII |
| GenPass.Enabled | src/process/gen_pass.rs:22-37 | at most four seed characters, none iff no class is enabled |
| GenPass.AddClass | src/process/gen_pass.rs:22-25 | the class is appended to the set; the password keeps its old characters in place and gains one character of the class at the end, keeping earlier coverage |
| GenPass.SeedClasses | src/process/gen_pass.rs:19-37 | after the four conditional steps the set is CharSet, the password has one character per enabled class and covers each |
| GenPass.GenPass | src/process/gen_pass.rs:8-46 | length < 4 is PasswordTooShort; no class is EmptyRange; otherwise an ASCII password of the exact length, from the enabled classes only, with one character of each |
| GenPass.Shuffle | src/process/gen_pass.rs:43 | the in-place shuffle is a permutation |
| GenPass.ShuffleIntoText | src/process/gen_pass.rs:43-45 | shuffling then converting gives ASCII text with the same characters |
| GenPass.PermutationKeepsPassword | src/process/gen_pass.rs:43 | a permutation of a password is still a password of the same length, alphabet and coverage |
| GenPass.DrawKeeps | src/process/gen_pass.rs:39-41 | appending a character drawn from the set keeps the password's alphabet and coverage |
| GenPass.ClassSizes | src/process/gen_pass.rs:3-6 | the classes are ASCII with 25, 24, 9 and 9 characters |
| GenPass.ClassesAvoidAmbiguous | src/process/gen_pass.rs:3-6 | 'O', 'l', 'o' and '0' are in no class |

## Left out

- The BLAKE3, Ed25519 and ChaCha20-Poly1305 algorithms are foreign crate calls. They are parameters restricted only by lengths and inverse laws. Nothing is claimed about forgery or tampering.
- `OsRng` and `thread_rng` are nondeterministic choice, not a generator; nothing is said about the distribution.
- All I/O:
  - `get_reader` (src/utils.rs), `fs::read`, `fs::write` and `read_to_end` / `read_to_string`: the bytes read are parameters, and the writes are returned as (name, contents) pairs;
  - the join of the output directory;
  - `verify_file` / `verify_path` in src/cli/mod.rs.
- The `println!` calls, including the debug print of the nonce length in `encrypt`, are left out.
- The network server (src/process/http_serve.rs, src/cli/http_serve.rs) and the csv conversion (src/process/csv_convert.rs) are not part of this model; they are wrappers over external crates.
- The clap and `CmdExector` glue (src/main.rs, src/opts.rs, src/cli/gen_pass.rs) is left out, and so are the `execute` bodies, apart from the generate file mapping and the default csv output name.
- Base64.Decode: the `base64` crate's error kinds (invalid byte, invalid length, invalid last symbol, invalid padding) are all one InvalidBase64.
- ProcessB64.DecodeTestFixture: the content of `fixtures/decode.txt` is not part of this model, so the lemma states which contents make the test's assertion hold; the test compares `String::from_utf8_lossy` of the result with "hello,world", and the model compares the bytes (HelloIsText relates the two).
- ProcessB64.ProcessDecode: input that is not valid UTF-8 fails at `read_to_string`, which is I/O here; the model takes the text already read.
- Bytes.FromUtf8: UTF-8 decoding is modelled for the ASCII bytes that reach it (the password classes are ASCII); multi-byte sequences are refused rather than decoded.
- RustStr.ToLower: case folding is ASCII only. Rust's `to_lowercase` also folds non-ASCII letters; the model leaves them as they are.
- CliTextGenerate.KeyFiles: with too few blobs, the source would write `ed25519.sk` before panicking on `key[1]`; the model returns the error without the partial write. TextGenerate proves that this case never arises.
