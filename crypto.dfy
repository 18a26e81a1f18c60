/**
 * The three cryptographic primitives the text subcommands call: the BLAKE3 keyed hash,
 * Ed25519 (RFC 8032) and ChaCha20-Poly1305 (RFC 8439). Their algorithms are not part of
 * this model. They are parameters, and `Valid` states the only facts about them the core
 * relies on: output lengths, that a signature made with a signing key verifies under its
 * public key, and that the AEAD opens what it sealed.
 */
module Crypto {
  import opened Results
  import opened Bytes

  /** A byte string of exactly 32 bytes: `[u8; 32]`. */
  type Key32 = k: seq<byte> | |k| == 32 witness seq(32, _ => 0)

  /** The length of a ChaCha20-Poly1305 nonce (section 2.8 of RFC 8439). */
  const NONCE_LEN: nat := 12
  /** The length of the Poly1305 tag appended to the ciphertext. */
  const TAG_LEN: nat := 16
  /** The length of an Ed25519 signature (section 5.1.6 of RFC 8032). */
  const SIGNATURE_LEN: nat := 64

  datatype Primitives = Primitives(
    /** `blake3::keyed_hash(key, message)`. */
    keyedHash: (Key32, seq<byte>) -> seq<byte>,
    /** The public key of a 32-byte Ed25519 secret key (`SigningKey::verifying_key`). */
    edPublic: Key32 -> seq<byte>,
    /** `SigningKey::sign(message)`. */
    edSign: (Key32, seq<byte>) -> seq<byte>,
    /** Whether `VerifyingKey::from_bytes` accepts 32 bytes as a curve point. */
    edKeyValid: Key32 -> bool,
    /** `VerifyingKey::verify(message, signature).is_ok()`. */
    edVerify: (Key32, seq<byte>, seq<byte>) -> bool,
    /** `ChaCha20Poly1305::encrypt(nonce, plaintext)`: `None` is its error. */
    aeadEncrypt: (Key32, seq<byte>, seq<byte>) -> Option<seq<byte>>,
    /** `ChaCha20Poly1305::decrypt(nonce, ciphertext)`: `None` is its error. */
    aeadDecrypt: (Key32, seq<byte>, seq<byte>) -> Option<seq<byte>>)
  {
    ghost predicate Valid() {
      && (forall k, m :: |keyedHash(k, m)| == 32)
      && (forall sk, m :: |edSign(sk, m)| == SIGNATURE_LEN)
      && (forall sk :: |edPublic(sk)| == 32)
      && (forall sk :: |edPublic(sk)| == 32 ==> edKeyValid(edPublic(sk)))
      && (forall sk, m :: |edPublic(sk)| == 32 ==> edVerify(edPublic(sk), m, edSign(sk, m)))
      && (forall k, n, m :: |n| == NONCE_LEN && aeadEncrypt(k, n, m).Some? ==>
            |aeadEncrypt(k, n, m).value| == |m| + TAG_LEN &&
            aeadDecrypt(k, n, aeadEncrypt(k, n, m).value) == Some(m))
    }
  }

  /** The stated facts do not contradict each other: some primitives satisfy them all. */
  lemma ValidIsSatisfiable()
    ensures exists p: Primitives :: p.Valid()
  {
    var zeros: Key32 := seq(32, _ => 0);
    var p := Primitives(
      (k, m) => zeros,
      sk => zeros,
      (sk, m) => seq(64, _ => 0),
      pk => true,
      (pk, m, s) => true,
      (k, n, m) => Some(m + seq(16, _ => 0)),
      (k, n, c: seq<byte>) => if |c| >= 16 then Some(c[..|c| - 16]) else None);
    assert forall k, n, m :: p.aeadEncrypt(k, n, m).value[..|m|] == m;
    assert p.Valid();
  }
}
