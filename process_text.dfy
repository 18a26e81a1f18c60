/**
 * The text subcommands (src/process/text.rs): key loading and the 32-byte key checks,
 * BLAKE3 and Ed25519 signing and verification, the ChaCha20-Poly1305 envelope
 * `nonce ++ ciphertext`, key generation, and the `process_text_*` dispatch on the format
 * tag. Signatures and envelopes travel as URL-safe base64 without padding.
 *
 * The bytes read from the input and the key file are parameters: `fs::read` and
 * `read_to_end` are I/O. The operating system's random numbers (`OsRng`) are
 * nondeterministic choices, so what is proved holds for every nonce and key drawn.
 */
module ProcessText {
  import opened Results
  import opened Errors
  import opened Bytes
  import opened Base64
  import opened Crypto
  import opened CliText
  import GenPass

  /** `BASE64_URL_SAFE_NO_PAD`, the wire format of signatures and envelopes. */
  const WIRE: Engine := Engine(UrlSafe, false)

  /** The `TryFrom<&[u8]>` of the 32-byte key holders: a length check, then the copy into `[u8; 32]`. */
  function KeyFromSlice(value: seq<byte>): (r: Result<Key32, Error>)
    ensures r.Ok? <==> |value| == 32
    ensures r.Ok? ==> r.value == value
    ensures r.Err? ==> r.error == InvalidKeyLength
  {
    if |value| != 32 then Err(InvalidKeyLength) else Ok(value)
  }

  /**
   * The `KeyLoader::load` of the 32-byte key holders: `try_from(&key[..32])`. A longer file is
   * cut to its first 32 bytes; a shorter one panics on the slice. Because of the slice, the
   * length check of `try_from` can never fail here.
   */
  function LoadKey32(file: seq<byte>): (r: Result<Key32, Error>)
    ensures r.Ok? <==> |file| >= 32
    ensures r.Ok? ==> r.value == file[..32]
    ensures r.Err? ==> r.error == SliceOutOfRange
  {
    if |file| < 32 then Err(SliceOutOfRange) else KeyFromSlice(file[..32])
  }

  // ---------------------------------------------------------------- BLAKE3

  datatype Blake3 = Blake3(key: Key32) {
    static function TryFrom(value: seq<byte>): (r: Result<Blake3, Error>)
      ensures r.Ok? <==> |value| == 32
      ensures r.Ok? ==> r.value.key == value
      ensures r.Err? ==> r.error == InvalidKeyLength
    {
      var key :- KeyFromSlice(value);
      Ok(Blake3.Blake3(key))
    }

    static function Load(file: seq<byte>): (r: Result<Blake3, Error>)
      ensures r.Ok? <==> |file| >= 32
      ensures r.Ok? ==> r.value.key == file[..32]
      ensures r.Err? ==> r.error == SliceOutOfRange
    {
      var key :- LoadKey32(file);
      Ok(Blake3.Blake3(key))
    }

    /** The signature is the keyed hash of the message: 32 bytes. */
    function Sign(p: Primitives, msg: seq<byte>): (sig: seq<byte>)
      requires p.Valid()
      ensures |sig| == 32
    {
      p.keyedHash(key, msg)
    }

    /** A MAC check: the signature must equal the keyed hash of the message, so one of any other length is refused. */
    function Verify(p: Primitives, msg: seq<byte>, sig: seq<byte>): (ok: bool)
      requires p.Valid()
      ensures ok ==> |sig| == 32
    {
      p.keyedHash(key, msg) == sig
    }
  }

  /** What the signer produces, the verifier accepts; and it accepts nothing else. */
  lemma {:induction false} Blake3SignThenVerify(p: Primitives, k: Blake3, msg: seq<byte>, sig: seq<byte>)
    requires p.Valid()
    ensures k.Verify(p, msg, k.Sign(p, msg))
    ensures k.Verify(p, msg, sig) <==> sig == k.Sign(p, msg)
  {
  }

  // ---------------------------------------------------------------- Ed25519

  /** A signing key: any 32 bytes are one (`SigningKey::from_bytes` cannot fail). */
  datatype Ed25519Signer = Ed25519Signer(key: Key32) {
    /** `value.try_into()` into `&[u8; 32]`: the slice must have exactly 32 bytes. */
    static function TryFrom(value: seq<byte>): (r: Result<Ed25519Signer, Error>)
      ensures r.Ok? <==> |value| == 32
      ensures r.Ok? ==> r.value.key == value
      ensures r.Err? ==> r.error == InvalidSliceLength
    {
      if |value| != 32 then Err(InvalidSliceLength) else Ok(Ed25519Signer(value))
    }

    /** The whole file is the key; nothing is cut off, unlike the 32-byte key holders. */
    static function Load(file: seq<byte>): (r: Result<Ed25519Signer, Error>)
      ensures r.Ok? <==> |file| == 32
      ensures r.Ok? ==> r.value.key == file
      ensures r.Err? ==> r.error == InvalidSliceLength
    {
      TryFrom(file)
    }

    function Sign(p: Primitives, msg: seq<byte>): (sig: seq<byte>)
      requires p.Valid()
      ensures |sig| == SIGNATURE_LEN
    {
      p.edSign(key, msg)
    }
  }

  /** A verifying key: 32 bytes that are a valid curve point. */
  datatype Ed25519Verifier = Ed25519Verifier(key: Key32) {
    static function TryFrom(p: Primitives, value: seq<byte>): (r: Result<Ed25519Verifier, Error>)
      ensures r.Ok? <==> |value| == 32 && p.edKeyValid(value)
      ensures r.Ok? ==> r.value.key == value
      ensures |value| != 32 ==> r == Err(InvalidSliceLength)
      ensures |value| == 32 && !p.edKeyValid(value) ==> r == Err(InvalidVerifyingKey)
    {
      if |value| != 32 then Err(InvalidSliceLength)
      else if !p.edKeyValid(value) then Err(InvalidVerifyingKey)
      else Ok(Ed25519Verifier(value))
    }

    static function Load(p: Primitives, file: seq<byte>): (r: Result<Ed25519Verifier, Error>)
      ensures r.Ok? <==> |file| == 32 && p.edKeyValid(file)
      ensures r.Ok? ==> r.value.key == file
      ensures |file| != 32 ==> r == Err(InvalidSliceLength)
      ensures |file| == 32 && !p.edKeyValid(file) ==> r == Err(InvalidVerifyingKey)
    {
      TryFrom(p, file)
    }

    /**
     * The signature must first convert to `&[u8; 64]`: a signature of another length is an
     * error, not a `false`. A 64-byte one is checked by the primitive.
     */
    function Verify(p: Primitives, msg: seq<byte>, sig: seq<byte>): (r: Result<bool, Error>)
      ensures r.Err? <==> |sig| != SIGNATURE_LEN
      ensures r.Err? ==> r.error == InvalidSliceLength
      ensures r.Ok? ==> r.value == p.edVerify(key, msg, sig)
    {
      if |sig| != SIGNATURE_LEN then Err(InvalidSliceLength) else Ok(p.edVerify(key, msg, sig))
    }
  }

  /** The public key of a signing key loads as a verifier, and accepts that key's signatures. */
  lemma {:induction false} Ed25519SignThenVerify(p: Primitives, sk: Ed25519Signer, msg: seq<byte>)
    requires p.Valid()
    ensures Ed25519Verifier.Load(p, p.edPublic(sk.key)).Ok?
    ensures Ed25519Verifier.Load(p, p.edPublic(sk.key)).value.Verify(p, msg, sk.Sign(p, msg)) == Ok(true)
  {
  }

  // ---------------------------------------------------------------- ChaCha20-Poly1305

  /**
   * The envelope: the 12-byte nonce followed by the AEAD output, in that order. The AEAD's
   * failure is "Encrypt error".
   */
  function Seal(p: Primitives, key: Key32, nonce: seq<byte>, msg: seq<byte>): (r: Result<seq<byte>, Error>)
    requires |nonce| == NONCE_LEN
    ensures r.Ok? <==> p.aeadEncrypt(key, nonce, msg).Some?
    ensures r.Ok? ==> |r.value| >= NONCE_LEN && r.value[..NONCE_LEN] == nonce
    ensures r.Ok? ==> r.value[NONCE_LEN..] == p.aeadEncrypt(key, nonce, msg).value
    ensures r.Ok? && p.Valid() ==> |r.value| == NONCE_LEN + |msg| + TAG_LEN
    ensures r.Err? ==> r.error == EncryptError
  {
    match p.aeadEncrypt(key, nonce, msg)
    case None => Err(EncryptError)
    case Some(ciphertext) => Ok(nonce + ciphertext)
  }

  /**
   * The split on decryption: bytes [0, 12) are the nonce and the rest the ciphertext. A
   * buffer shorter than 12 bytes panics on the slice; the AEAD's failure is "Decrypt error".
   */
  function Open(p: Primitives, key: Key32, envelope: seq<byte>): (r: Result<seq<byte>, Error>)
    ensures |envelope| < NONCE_LEN ==> r == Err(SliceOutOfRange)
    ensures r.Ok? ==> |envelope| >= NONCE_LEN && p.aeadDecrypt(key, envelope[..NONCE_LEN], envelope[NONCE_LEN..]) == Some(r.value)
    ensures r.Err? ==> r.error == SliceOutOfRange || r.error == DecryptError
  {
    if |envelope| < NONCE_LEN then Err(SliceOutOfRange)
    else
      match p.aeadDecrypt(key, envelope[..NONCE_LEN], envelope[NONCE_LEN..])
      case None => Err(DecryptError)
      case Some(plaintext) => Ok(plaintext)
  }

  /** Opening a sealed envelope with the same key gives the message back. */
  lemma {:induction false} OpenSeal(p: Primitives, key: Key32, nonce: seq<byte>, msg: seq<byte>)
    requires p.Valid() && |nonce| == NONCE_LEN
    requires Seal(p, key, nonce, msg).Ok?
    ensures Open(p, key, Seal(p, key, nonce, msg).value) == Ok(msg)
  {
    var envelope := Seal(p, key, nonce, msg).value;
    assert envelope[..NONCE_LEN] == nonce;
  }

  datatype ChaChaEncryptor = ChaChaEncryptor(key: Key32) {
    static function TryFrom(value: seq<byte>): (r: Result<ChaChaEncryptor, Error>)
      ensures r.Ok? <==> |value| == 32
      ensures r.Ok? ==> r.value.key == value
      ensures r.Err? ==> r.error == InvalidKeyLength
    {
      var key :- KeyFromSlice(value);
      Ok(ChaChaEncryptor(key))
    }

    static function Load(file: seq<byte>): (r: Result<ChaChaEncryptor, Error>)
      ensures r.Ok? <==> |file| >= 32
      ensures r.Ok? ==> r.value.key == file[..32]
      ensures r.Err? ==> r.error == SliceOutOfRange
    {
      var key :- LoadKey32(file);
      Ok(ChaChaEncryptor(key))
    }

    /**
     * A fresh nonce is drawn, the message is encrypted under it, and the result is built as
     * the nonce followed by the ciphertext. `nonce` names the nonce that was drawn.
     */
    method Encrypt(p: Primitives, msg: seq<byte>) returns (r: Result<seq<byte>, Error>, ghost nonce: seq<byte>)
      ensures |nonce| == NONCE_LEN
      ensures r == Seal(p, key, nonce, msg)
      ensures r.Ok? ==> |r.value| >= NONCE_LEN && p.aeadEncrypt(key, r.value[..NONCE_LEN], msg) == Some(r.value[NONCE_LEN..])
      ensures r.Err? ==> r.error == EncryptError
    {
      ghost var zeros: seq<byte> := seq(NONCE_LEN, _ => 0);
      assert |zeros| == NONCE_LEN;
      var drawn: seq<byte> :| |drawn| == NONCE_LEN;
      nonce := drawn;
      var encrypted := p.aeadEncrypt(key, drawn, msg);
      if encrypted.None? {
        return Err(EncryptError), nonce;
      }
      var result: seq<byte> := [];
      result := result + drawn;
      assert result == drawn;
      result := result + encrypted.value;
      r := Ok(result);
    }
  }

  datatype ChaChaDecryptor = ChaChaDecryptor(key: Key32) {
    static function TryFrom(value: seq<byte>): (r: Result<ChaChaDecryptor, Error>)
      ensures r.Ok? <==> |value| == 32
      ensures r.Ok? ==> r.value.key == value
      ensures r.Err? ==> r.error == InvalidKeyLength
    {
      var key :- KeyFromSlice(value);
      Ok(ChaChaDecryptor(key))
    }

    static function Load(file: seq<byte>): (r: Result<ChaChaDecryptor, Error>)
      ensures r.Ok? <==> |file| >= 32
      ensures r.Ok? ==> r.value.key == file[..32]
      ensures r.Err? ==> r.error == SliceOutOfRange
    {
      var key :- LoadKey32(file);
      Ok(ChaChaDecryptor(key))
    }

    /**
     * The bytes read are base64-decoded as they are, with no trimming, then opened. The
     * result is the message exactly when the input is the encoding of an envelope that opens.
     */
    function Decrypt(p: Primitives, input: seq<byte>): (r: Result<seq<byte>, Error>)
      ensures r.Ok? ==> exists envelope :: Encode(WIRE, envelope) == Latin1(input) && Open(p, key, envelope) == r
    {
      match Decode(WIRE, Latin1(input))
      case Err(e) => Err(e)
      case Ok(envelope) => Open(p, key, envelope)
    }
  }

  // ---------------------------------------------------------------- the subcommands

  /** `process_text_sign`: the signature of the input, in the wire format. */
  function ProcessTextSign(p: Primitives, keyFile: seq<byte>, input: seq<byte>, format: TextSignFormat): (r: Result<string, Error>)
    requires p.Valid()
    ensures format == TextSignFormat.ChaCha20Poly1305 ==> r == Err(Unimplemented)
    ensures format == TextSignFormat.Blake3 ==> (r.Ok? <==> |keyFile| >= 32)
    ensures format == TextSignFormat.Blake3 && |keyFile| < 32 ==> r == Err(SliceOutOfRange)
    ensures format == Ed25519 ==> (r.Ok? <==> |keyFile| == 32)
    ensures format == Ed25519 && |keyFile| != 32 ==> r == Err(InvalidSliceLength)
    ensures r.Ok? && format == TextSignFormat.Blake3 ==> |r.value| == 43
    ensures r.Ok? && format == Ed25519 ==> |r.value| == 86
  {
    match format
    case Blake3 =>
      var signer :- Blake3.Load(keyFile);
      Ok(Encode(WIRE, signer.Sign(p, input)))
    case Ed25519 =>
      var signer :- Ed25519Signer.Load(keyFile);
      Ok(Encode(WIRE, signer.Sign(p, input)))
    case ChaCha20Poly1305 => Err(Unimplemented)
  }

  /**
   * `process_text_verify`: the signature text is decoded first, whatever the tag, then the
   * key is loaded and the signature checked.
   */
  function ProcessTextVerify(p: Primitives, keyFile: seq<byte>, input: seq<byte>, sign: string, format: TextSignFormat): (r: Result<bool, Error>)
    requires p.Valid()
    ensures Decode(WIRE, sign).Err? ==> r == Err(InvalidBase64)
    ensures Decode(WIRE, sign).Ok? && format == TextSignFormat.ChaCha20Poly1305 ==> r == Err(Unimplemented)
    ensures Decode(WIRE, sign).Ok? && format == TextSignFormat.Blake3 ==> (r.Ok? <==> |keyFile| >= 32)
    ensures Decode(WIRE, sign).Ok? && format == TextSignFormat.Blake3 && |keyFile| < 32 ==> r == Err(SliceOutOfRange)
    ensures r.Ok? && format == TextSignFormat.Blake3 ==>
      (r.value <==> Decode(WIRE, sign).value == p.keyedHash(keyFile[..32], input))
    ensures Decode(WIRE, sign).Ok? && format == Ed25519 ==>
      (r.Ok? <==> |keyFile| == 32 && p.edKeyValid(keyFile) && |Decode(WIRE, sign).value| == SIGNATURE_LEN)
    ensures Decode(WIRE, sign).Ok? && format == Ed25519 && |keyFile| != 32 ==> r == Err(InvalidSliceLength)
    ensures Decode(WIRE, sign).Ok? && format == Ed25519 && |keyFile| == 32 && !p.edKeyValid(keyFile) ==>
      r == Err(InvalidVerifyingKey)
    ensures r.Ok? && format == Ed25519 ==> r.value == p.edVerify(keyFile, input, Decode(WIRE, sign).value)
    ensures r == Ok(true) ==> exists sig :: Encode(WIRE, sig) == sign
  {
    var sig :- Decode(WIRE, sign);
    match format
    case Blake3 =>
      var verifier :- Blake3.Load(keyFile);
      Ok(verifier.Verify(p, input, sig))
    case Ed25519 =>
      var verifier :- Ed25519Verifier.Load(p, keyFile);
      verifier.Verify(p, input, sig)
    case ChaCha20Poly1305 => Err(Unimplemented)
  }

  /** The repository's test for BLAKE3: signing then verifying with the same key file succeeds. */
  lemma {:induction false} Blake3SignThenVerifyText(p: Primitives, keyFile: seq<byte>, input: seq<byte>)
    requires p.Valid() && |keyFile| >= 32
    ensures ProcessTextSign(p, keyFile, input, TextSignFormat.Blake3).Ok?
    ensures ProcessTextVerify(p, keyFile, input, ProcessTextSign(p, keyFile, input, TextSignFormat.Blake3).value, TextSignFormat.Blake3) == Ok(true)
  {
    var signer := Blake3.Load(keyFile).value;
    DecodeEncode(WIRE, signer.Sign(p, input));
  }

  /** The repository's test for Ed25519: a signature made with a secret key file verifies with its public key file. */
  lemma {:induction false} Ed25519SignThenVerifyText(p: Primitives, skFile: seq<byte>, input: seq<byte>)
    requires p.Valid() && |skFile| == 32
    ensures ProcessTextSign(p, skFile, input, Ed25519).Ok?
    ensures ProcessTextVerify(p, p.edPublic(skFile), input, ProcessTextSign(p, skFile, input, Ed25519).value, Ed25519) == Ok(true)
  {
    var signer := Ed25519Signer.Load(skFile).value;
    DecodeEncode(WIRE, signer.Sign(p, input));
    Ed25519SignThenVerify(p, signer, input);
  }

  /**
   * A BLAKE3 verification succeeds exactly when the key file has at least 32 bytes and the
   * signature text is the encoding of the keyed hash of the input under its first 32.
   */
  lemma {:induction false} Blake3VerifyText(p: Primitives, keyFile: seq<byte>, input: seq<byte>, sign: string)
    requires p.Valid()
    ensures ProcessTextVerify(p, keyFile, input, sign, TextSignFormat.Blake3) == Ok(true) <==>
      |keyFile| >= 32 && sign == Encode(WIRE, p.keyedHash(keyFile[..32], input))
  {
    if |keyFile| >= 32 {
      DecodeIsInverse(WIRE, sign, p.keyedHash(keyFile[..32], input));
    }
  }

  /**
   * An Ed25519 verification succeeds exactly when the key file is a valid 32-byte public key
   * and the signature text encodes 64 bytes that the primitive accepts for the input.
   */
  lemma {:induction false} Ed25519VerifyText(p: Primitives, keyFile: seq<byte>, input: seq<byte>, sig: seq<byte>)
    requires p.Valid()
    ensures ProcessTextVerify(p, keyFile, input, Encode(WIRE, sig), Ed25519) == Ok(true) <==>
      |keyFile| == 32 && p.edKeyValid(keyFile) && |sig| == SIGNATURE_LEN && p.edVerify(keyFile, input, sig)
  {
    DecodeEncode(WIRE, sig);
  }

  /** A BLAKE3 signature that does not decode to 32 bytes verifies false, and is not an error. */
  lemma {:induction false} Blake3WrongLengthIsFalse(p: Primitives, keyFile: seq<byte>, input: seq<byte>, sig: seq<byte>)
    requires p.Valid() && |keyFile| >= 32 && |sig| != 32
    ensures ProcessTextVerify(p, keyFile, input, Encode(WIRE, sig), TextSignFormat.Blake3) == Ok(false)
  {
    DecodeEncode(WIRE, sig);
  }

  /** An Ed25519 signature that does not decode to 64 bytes is an error, not a `false`. */
  lemma {:induction false} Ed25519WrongLengthIsError(p: Primitives, pkFile: seq<byte>, input: seq<byte>, sig: seq<byte>)
    requires p.Valid() && |pkFile| == 32 && p.edKeyValid(pkFile) && |sig| != SIGNATURE_LEN
    ensures ProcessTextVerify(p, pkFile, input, Encode(WIRE, sig), Ed25519) == Err(InvalidSliceLength)
  {
    DecodeEncode(WIRE, sig);
  }

  /** The envelope of `process_text_encrypt` for a given nonce, in the wire format. */
  function SealText(p: Primitives, keyFile: seq<byte>, input: seq<byte>, nonce: seq<byte>): (r: Result<string, Error>)
    requires |nonce| == NONCE_LEN
    ensures |keyFile| < 32 ==> r == Err(SliceOutOfRange)
    ensures r.Ok? ==> IsAsciiText(r.value)
  {
    var encryptor :- ChaChaEncryptor.Load(keyFile);
    var envelope :- Seal(p, encryptor.key, nonce, input);
    EncodeIsAscii(WIRE, envelope);
    Ok(Encode(WIRE, envelope))
  }

  /** `process_text_encrypt`: load the key, encrypt under a fresh nonce, encode the envelope. */
  method ProcessTextEncrypt(p: Primitives, keyFile: seq<byte>, input: seq<byte>, format: TextEncryptFormat)
    returns (r: Result<string, Error>, ghost nonce: seq<byte>)
    ensures |nonce| == NONCE_LEN
    ensures r == SealText(p, keyFile, input, nonce)
    ensures |keyFile| < 32 ==> r == Err(SliceOutOfRange)
    ensures r.Ok? ==> IsAsciiText(r.value)
  {
    nonce := seq(NONCE_LEN, _ => 0);
    match format
    case ChaCha20Poly1305 =>
      var loaded := ChaChaEncryptor.Load(keyFile);
      if loaded.Err? {
        return Err(loaded.error), nonce;
      }
      var encrypted;
      encrypted, nonce := loaded.value.Encrypt(p, input);
      if encrypted.Err? {
        return Err(encrypted.error), nonce;
      }
      r := Ok(Encode(WIRE, encrypted.value));
  }

  /** `process_text_decrypt`: load the key, then decode and open the bytes read. */
  function ProcessTextDecrypt(p: Primitives, keyFile: seq<byte>, input: seq<byte>, format: TextEncryptFormat): (r: Result<seq<byte>, Error>)
    ensures |keyFile| < 32 ==> r == Err(SliceOutOfRange)
    ensures |keyFile| >= 32 ==> r == ChaChaDecryptor(keyFile[..32]).Decrypt(p, input)
  {
    match format
    case ChaCha20Poly1305 =>
      var decryptor :- ChaChaDecryptor.Load(keyFile);
      decryptor.Decrypt(p, input)
  }

  /**
   * Decrypting, with the same key file, the bytes of the text that encryption printed gives
   * the message back, whatever nonce was drawn.
   */
  lemma {:induction false} EncryptThenDecrypt(p: Primitives, keyFile: seq<byte>, msg: seq<byte>, nonce: seq<byte>, g: TextEncryptFormat)
    requires p.Valid() && |nonce| == NONCE_LEN
    requires SealText(p, keyFile, msg, nonce).Ok?
    ensures ProcessTextDecrypt(p, keyFile, AsciiBytes(SealText(p, keyFile, msg, nonce).value), g) == Ok(msg)
  {
    var text := SealText(p, keyFile, msg, nonce).value;
    var key: Key32 := keyFile[..32];
    var envelope := Seal(p, key, nonce, msg).value;
    Latin1OfAsciiBytes(text);
    DecodeEncode(WIRE, envelope);
    OpenSeal(p, key, nonce, msg);
  }

  /** The encrypted text has a fixed length: the 12-byte nonce, the message and the 16-byte tag, in base64. */
  lemma {:induction false} SealTextLength(p: Primitives, keyFile: seq<byte>, msg: seq<byte>, nonce: seq<byte>)
    requires p.Valid() && |nonce| == NONCE_LEN
    requires SealText(p, keyFile, msg, nonce).Ok?
    ensures |SealText(p, keyFile, msg, nonce).value| == (4 * (NONCE_LEN + |msg| + TAG_LEN) + 2) / 3
  {
  }

  /** A well-formed encoding of fewer than 12 bytes has no room for the nonce: the slice is out of range. */
  lemma {:induction false} DecryptShortEnvelope(p: Primitives, keyFile: seq<byte>, envelope: seq<byte>, f: TextEncryptFormat)
    requires |keyFile| >= 32 && |envelope| < NONCE_LEN
    ensures IsAsciiText(Encode(WIRE, envelope)) &&
      ProcessTextDecrypt(p, keyFile, AsciiBytes(Encode(WIRE, envelope)), f) == Err(SliceOutOfRange)
  {
    EncodeIsAscii(WIRE, envelope);
    Latin1OfAsciiBytes(Encode(WIRE, envelope));
    DecodeEncode(WIRE, envelope);
  }

  /**
   * The decryptor reads the input as it is: a newline after the encrypted text, as a text
   * editor writes it, makes the base64 decoding fail.
   */
  lemma {:induction false} DecryptRejectsTrailingNewline(p: Primitives, keyFile: seq<byte>, text: string, f: TextEncryptFormat)
    requires |keyFile| >= 32 && IsAsciiText(text)
    ensures ProcessTextDecrypt(p, keyFile, AsciiBytes(text) + [10], f) == Err(InvalidBase64)
  {
    var input := AsciiBytes(text) + [10];
    DecodeRejectsForeign(WIRE, Latin1(input), |text|);
  }

  // ---------------------------------------------------------------- key generation

  /** The number of blobs `process_text_generate` returns for a tag. */
  function BlobCount(format: TextSignFormat): (n: nat)
    ensures 1 <= n <= 2
  {
    if format == Ed25519 then 2 else 1
  }

  /**
   * What generation promises: one 32-byte blob for BLAKE3 and for ChaCha20-Poly1305, and for
   * Ed25519 a secret key followed by its public key. The BLAKE3 key is a password of printable
   * ASCII characters; it is written and read back as text.
   */
  ghost predicate IsGenerated(p: Primitives, format: TextSignFormat, keys: seq<seq<byte>>) {
    && |keys| == BlobCount(format)
    && (forall i :: 0 <= i < |keys| ==> |keys[i]| == 32)
    && (format == TextSignFormat.Blake3 ==> IsAscii(keys[0]) && GenPass.IsPassword(keys[0], 32, true, true, true, true))
    && (format == Ed25519 ==> keys[1] == p.edPublic(keys[0]))
  }

  /** `Blake3::generate`: a 32-character password drawn from all four classes, as bytes. */
  method GenerateBlake3() returns (r: Result<seq<seq<byte>>, Error>)
    ensures r.Ok? && |r.value| == 1 && |r.value[0]| == 32 && IsAscii(r.value[0])
    ensures r.Ok? ==> Blake3.TryFrom(r.value[0]).Ok?
    ensures r.Ok? && |r.value| == 1 && GenPass.IsPassword(r.value[0], 32, true, true, true, true)
  {
    var key := GenPass.GenPass(32, true, true, true, true);
    // With every class enabled and 32 >= 4, the generator cannot fail, so the `?` never returns early.
    assert key.Ok?;
    r := Ok([AsciiBytes(key.value)]);
  }

  /** `process_text_generate`: dispatch on the tag; the keys are random. */
  method ProcessTextGenerate(p: Primitives, format: TextSignFormat) returns (r: Result<seq<seq<byte>>, Error>)
    requires p.Valid()
    ensures r.Ok? && IsGenerated(p, format, r.value)
  {
    match format
    case Blake3 =>
      r := GenerateBlake3();
    case Ed25519 =>
      var sk: Key32 :| true;
      r := Ok([sk, p.edPublic(sk)]);
    case ChaCha20Poly1305 =>
      var key: Key32 :| true;
      r := Ok([key]);
  }

  /** Generated keys load with the loaders of the same tag, and the Ed25519 pair signs and verifies. */
  lemma {:induction false} GeneratedKeysLoad(p: Primitives, format: TextSignFormat, keys: seq<seq<byte>>, input: seq<byte>)
    requires p.Valid() && IsGenerated(p, format, keys)
    ensures format == TextSignFormat.Blake3 ==> Blake3.Load(keys[0]).Ok? && Blake3.TryFrom(keys[0]).Ok?
    ensures format == TextSignFormat.ChaCha20Poly1305 ==>
      ChaChaEncryptor.Load(keys[0]).Ok? && ChaChaDecryptor.Load(keys[0]).Ok?
    ensures format == Ed25519 ==>
      ProcessTextVerify(p, keys[1], input, ProcessTextSign(p, keys[0], input, Ed25519).value, Ed25519) == Ok(true)
  {
    if format == Ed25519 {
      Ed25519SignThenVerifyText(p, keys[0], input);
    }
  }
}
