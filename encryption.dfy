/** encryption.py: the stand-alone `EncryptionManager`, whose `decrypt` lets
    every failure propagate as an exception. The random bytes that
    `os.urandom` would supply are parameters. */
module Encryption {
  import opened Wrappers
  import opened Primitives

  /** The exception `decrypt` raises. */
  datatype DecryptError =
    | MalformedBase64   // binascii.Error from b64decode
    | NonceRejected     // ValueError: AESGCM refuses a nonce shorter than 8 bytes
    | AeadRejected      // InvalidTag (wrong key, tampering, truncation)
    | MalformedUtf8     // UnicodeDecodeError from bytes.decode

  /** derive_key: PBKDF2-HMAC-SHA256 over the UTF-8 password, 100000
      iterations, 32 bytes. A function, so equal inputs give equal keys. */
  function DeriveKey(lib: Library, password: string, salt: Bytes): (key: Bytes)
    requires Sound(lib)
    ensures |key| == KeyLength
  {
    lib.pbkdf2(lib.utf8Encode(password), salt, Iterations, KeyLength)
  }

  /** The encrypted blob before base64: salt ‖ nonce ‖ ciphertext. */
  function Pack(salt: Bytes, nonce: Bytes, ciphertext: Bytes): (raw: Bytes)
    requires |salt| == SaltLength && |nonce| == NonceLength
    ensures |raw| == SaltLength + NonceLength + |ciphertext|
    ensures Split(raw) == (salt, nonce, ciphertext)
  {
    var raw := salt + nonce + ciphertext;
    assert raw[..SaltLength] == salt;
    assert raw[SaltLength..SaltLength + NonceLength] == nonce;
    assert raw[SaltLength + NonceLength..] == ciphertext;
    raw
  }

  /** `raw[:16]`, `raw[16:28]`, `raw[28:]` with Python's slicing, which
      clamps the bounds to the length of a short blob instead of failing. */
  function Split(raw: Bytes): (parts: (Bytes, Bytes, Bytes))
    ensures parts.0 + parts.1 + parts.2 == raw
    ensures |parts.0| == if |raw| < SaltLength then |raw| else SaltLength
    ensures |parts.1| == if |raw| < SaltLength then 0
                         else if |raw| < SaltLength + NonceLength then |raw| - SaltLength
                         else NonceLength
  {
    var a := if |raw| < SaltLength then |raw| else SaltLength;
    var b := if |raw| < SaltLength + NonceLength then |raw| else SaltLength + NonceLength;
    (raw[..a], raw[a..b], raw[b..])
  }

  /** encrypt(data, password) with `salt` and `nonce` the two urandom draws.
      The blob is base64 text both decoders accept, and it carries the salt
      and nonce in the clear ahead of the ciphertext and its tag. */
  function Encrypt(lib: Library, data: string, password: string, salt: Bytes, nonce: Bytes): (blob: string)
    requires Sound(lib)
    requires |salt| == SaltLength && |nonce| == NonceLength
    ensures lib.b64Decode(blob).Some? && lib.b64DecodeUtf8(blob) == lib.b64Decode(blob)
    ensures var raw := lib.b64Decode(blob).value;
      |raw| == SaltLength + NonceLength + |lib.utf8Encode(data)| + TagLength
      && Split(raw).0 == salt && Split(raw).1 == nonce
  {
    var key := DeriveKey(lib, password, salt);
    var raw := Pack(salt, nonce, lib.seal(key, nonce, lib.utf8Encode(data)));
    assert lib.b64Decode(lib.b64Encode(raw)) == Some(raw);
    assert lib.b64DecodeUtf8(lib.b64Encode(raw)) == Some(raw);
    lib.b64Encode(raw)
  }

  /** The part of decrypt after the base64 decode: split the raw bytes,
      derive the key from the stored salt, authenticate and decrypt, and
      decode the UTF-8 text. */
  function DecryptRaw(lib: Library, raw: Bytes, password: string): (r: Result<string, DecryptError>)
    requires Sound(lib)
    ensures |raw| < SaltLength + MinNonceLength ==> r == Err(NonceRejected)
    ensures r.Ok? ==> |raw| >= SaltLength + NonceLength + TagLength
    ensures r.Ok? <==> exists plain :: lib.open(DeriveKey(lib, password, Split(raw).0), Split(raw).1, Split(raw).2) == Some(plain)
                                       && |Split(raw).1| >= MinNonceLength && lib.utf8Decode(plain).Some?
  {
    var (salt, nonce, ciphertext) := Split(raw);
    if |nonce| < MinNonceLength then Err(NonceRejected)
    else
      match lib.open(DeriveKey(lib, password, salt), nonce, ciphertext)
      case None => Err(AeadRejected)
      case Some(plain) =>
        match lib.utf8Decode(plain)
        case None => Err(MalformedUtf8)
        case Some(text) => Ok(text)
  }

  /** decrypt(encrypted_data, password); `Err` is the exception raised. */
  function Decrypt(lib: Library, blob: string, password: string): (r: Result<string, DecryptError>)
    requires Sound(lib)
    ensures lib.b64Decode(blob).None? <==> r == Err(MalformedBase64)
    ensures r.Ok? ==> |lib.b64Decode(blob).value| >= SaltLength + NonceLength + TagLength
  {
    match lib.b64Decode(blob)
    case None => Err(MalformedBase64)
    case Some(raw) => DecryptRaw(lib, raw, password)
  }

  /** hash_pin: the SHA-256 hex digest of the UTF-8 PIN. */
  function HashPin(lib: Library, pin: string): (h: string)
    requires Sound(lib)
    ensures IsHexDigest(h)
  {
    lib.sha256Hex(lib.utf8Encode(pin))
  }

  /** generate_device_key: base64 of 32 random bytes. */
  function GenerateDeviceKey(lib: Library, random: Bytes): (key: string)
    requires Sound(lib)
    requires |random| == KeyLength
    ensures |key| == 44
  {
    lib.b64Encode(random)
  }

  /** Decryption under the encrypting password returns the data. */
  lemma DecryptInvertsEncrypt(lib: Library, data: string, password: string, salt: Bytes, nonce: Bytes)
    requires Sound(lib)
    requires |salt| == SaltLength && |nonce| == NonceLength
    ensures Decrypt(lib, Encrypt(lib, data, password, salt, nonce), password) == Ok(data)
  {
    var key := DeriveKey(lib, password, salt);
    var raw := Pack(salt, nonce, lib.seal(key, nonce, lib.utf8Encode(data)));
    assert lib.b64Decode(lib.b64Encode(raw)) == Some(raw);
  }

  /** The AES-GCM tag check fails when `data`, sealed under the key that
      `password` derives from `salt`, is opened under the key `other`
      derives. AES-GCM does not promise this for every pair of keys (it is
      not key-committing); it holds except with negligible probability. */
  ghost predicate TagRejects(lib: Library, data: string, password: string, other: string,
                             salt: Bytes, nonce: Bytes)
    requires Sound(lib)
  {
    var sealed := lib.seal(DeriveKey(lib, password, salt), nonce, lib.utf8Encode(data));
    lib.open(DeriveKey(lib, other, salt), nonce, sealed).None?
  }

  /** Decryption under a password whose key the tag check rejects raises
      the authentication failure; it returns no value. */
  lemma DecryptRejectsOtherPassword(lib: Library, data: string, password: string, other: string,
                                    salt: Bytes, nonce: Bytes)
    requires Sound(lib)
    requires |salt| == SaltLength && |nonce| == NonceLength
    requires TagRejects(lib, data, password, other, salt, nonce)
    ensures Decrypt(lib, Encrypt(lib, data, password, salt, nonce), other) == Err(AeadRejected)
  {
    var key := DeriveKey(lib, password, salt);
    var raw := Pack(salt, nonce, lib.seal(key, nonce, lib.utf8Encode(data)));
    assert lib.b64Decode(lib.b64Encode(raw)) == Some(raw);
  }

  /** A blob that decodes to fewer than salt + nonce + tag bytes cannot
      decrypt under any password: below 24 bytes the clamped nonce is too
      short and AESGCM raises ValueError; from 24 to 43 bytes the nonce is
      accepted and the ciphertext is shorter than the tag. */
  lemma DecryptRejectsShortBlob(lib: Library, blob: string, password: string)
    requires Sound(lib)
    requires lib.b64Decode(blob).Some?
    requires |lib.b64Decode(blob).value| < SaltLength + NonceLength + TagLength
    ensures |lib.b64Decode(blob).value| < SaltLength + MinNonceLength ==> Decrypt(lib, blob, password) == Err(NonceRejected)
    ensures |lib.b64Decode(blob).value| >= SaltLength + MinNonceLength ==> Decrypt(lib, blob, password) == Err(AeadRejected)
  {
  }

  /** Re-encrypting what one password decrypted under a new password, then
      decrypting with the new password, gives back the original data. */
  lemma ReencryptPreservesData(lib: Library, data: string, oldPassword: string, newPassword: string,
                               salt1: Bytes, nonce1: Bytes, salt2: Bytes, nonce2: Bytes)
    requires Sound(lib)
    requires |salt1| == SaltLength && |nonce1| == NonceLength
    requires |salt2| == SaltLength && |nonce2| == NonceLength
    ensures Decrypt(lib, Encrypt(lib, data, oldPassword, salt1, nonce1), oldPassword).Ok?
    ensures var plain := Decrypt(lib, Encrypt(lib, data, oldPassword, salt1, nonce1), oldPassword).value;
      Decrypt(lib, Encrypt(lib, plain, newPassword, salt2, nonce2), newPassword) == Ok(data)
  {
    DecryptInvertsEncrypt(lib, data, oldPassword, salt1, nonce1);
    DecryptInvertsEncrypt(lib, data, newPassword, salt2, nonce2);
  }

  /** Fresh salt or nonce gives a different blob for the same data and
      password: the salt and nonce are recoverable from the blob. */
  lemma FreshRandomnessGivesFreshBlob(lib: Library, data: string, password: string,
                                      salt1: Bytes, nonce1: Bytes, salt2: Bytes, nonce2: Bytes)
    requires Sound(lib)
    requires |salt1| == SaltLength && |nonce1| == NonceLength
    requires |salt2| == SaltLength && |nonce2| == NonceLength
    requires salt1 != salt2 || nonce1 != nonce2
    ensures Encrypt(lib, data, password, salt1, nonce1) != Encrypt(lib, data, password, salt2, nonce2)
  {
    var raw1 := Pack(salt1, nonce1, lib.seal(DeriveKey(lib, password, salt1), nonce1, lib.utf8Encode(data)));
    var raw2 := Pack(salt2, nonce2, lib.seal(DeriveKey(lib, password, salt2), nonce2, lib.utf8Encode(data)));
    assert lib.b64Decode(lib.b64Encode(raw1)) == Some(raw1);
    assert lib.b64Decode(lib.b64Encode(raw2)) == Some(raw2);
  }

  /** A PIN hash is never the PIN itself unless the PIN is 64 characters
      long (the PIN "1234" is not its own hash). */
  lemma HashPinIsNotThePin(lib: Library, pin: string)
    requires Sound(lib)
    requires |pin| != DigestHexLength
    ensures HashPin(lib, pin) != pin
  {
  }

  /** Device keys drawn from different random bytes differ, and none is empty. */
  lemma DeviceKeysDiffer(lib: Library, random1: Bytes, random2: Bytes)
    requires Sound(lib)
    requires |random1| == KeyLength && |random2| == KeyLength
    requires random1 != random2
    ensures GenerateDeviceKey(lib, random1) != GenerateDeviceKey(lib, random2)
    ensures GenerateDeviceKey(lib, random1) != ""
  {
    assert lib.b64Decode(lib.b64Encode(random1)) == Some(random1);
    assert lib.b64Decode(lib.b64Encode(random2)) == Some(random2);
  }
}
