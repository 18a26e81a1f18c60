/**
 * What `TextGenerateOpts::execute` (src/cli/text.rs) does with the generated keys: each
 * blob goes to a file whose name depends on the tag. The writes themselves and the join
 * with the output directory are I/O; the model returns the (name, contents) pairs.
 */
module CliTextGenerate {
  import opened Results
  import opened Errors
  import opened Bytes
  import opened Crypto
  import opened CliText
  import opened ProcessText

  /** The file names for a tag, in the order of the blobs. */
  function FileNames(format: TextSignFormat): (names: seq<string>)
    ensures |names| == BlobCount(format)
  {
    match format
    case Blake3 => ["blake3.txt"]
    case Ed25519 => ["ed25519.sk", "ed25519.pk"]
    case ChaCha20Poly1305 => ["chacha20poly1305.key"]
  }

  /**
   * The match in `execute`: `key[0]`, and `key[1]` for Ed25519, paired with their file names.
   * An index past the end of the vector would panic.
   */
  function KeyFiles(format: TextSignFormat, key: seq<seq<byte>>): (r: Result<seq<(string, seq<byte>)>, Error>)
    ensures r.Ok? <==> |key| >= BlobCount(format)
    ensures r.Err? ==> r.error == IndexOutOfBounds
    ensures r.Ok? ==> |r.value| == BlobCount(format)
    ensures r.Ok? ==> forall i :: 0 <= i < |r.value| ==> r.value[i] == (FileNames(format)[i], key[i])
  {
    match format
    case Blake3 =>
      if |key| < 1 then Err(IndexOutOfBounds) else Ok([("blake3.txt", key[0])])
    case Ed25519 =>
      if |key| < 2 then Err(IndexOutOfBounds) else Ok([("ed25519.sk", key[0]), ("ed25519.pk", key[1])])
    case ChaCha20Poly1305 =>
      if |key| < 1 then Err(IndexOutOfBounds) else Ok([("chacha20poly1305.key", key[0])])
  }

  /**
   * `execute` for the generate subcommand: generate, then pair each blob with its file name.
   * The indices used are always within the blobs generated for the same tag, so nothing panics,
   * and the files hold keys the loaders of that tag accept.
   */
  method TextGenerate(p: Primitives, format: TextSignFormat) returns (r: Result<seq<(string, seq<byte>)>, Error>, ghost keys: seq<seq<byte>>)
    requires p.Valid()
    ensures IsGenerated(p, format, keys)
    ensures r.Ok? && |r.value| == |keys|
    ensures forall i :: 0 <= i < |r.value| ==> r.value[i] == (FileNames(format)[i], keys[i])
  {
    var key := ProcessTextGenerate(p, format);
    keys := key.value;
    r := KeyFiles(format, key.value);
  }

  /** The files written for one tag have distinct names, so no key overwrites another. */
  lemma {:induction false} FileNamesDistinct(format: TextSignFormat, i: nat, j: nat)
    requires i < j < BlobCount(format)
    ensures FileNames(format)[i] != FileNames(format)[j]
  {
    assert "ed25519.sk"[8] != "ed25519.pk"[8];
  }
}
