/** The foreign libraries the core calls: PBKDF2-HMAC-SHA256 (section 5.2 of
    RFC 8018), AES-256-GCM (NIST SP 800-38D), SHA-256 (FIPS 180-4) as a hex
    digest, base64 (section 4 of RFC 4648), UTF-8 and JSON. They are not
    modelled byte by byte: a `Library` is any collection of total functions,
    and `Sound` lists the facts about them that the core relies on. Every
    property proved about the core holds for every library that is `Sound`;
    `Reference.ReferenceLibrary` is one. */
module Primitives {
  import opened Wrappers
  import opened Records

  newtype byte = x: int | 0 <= x < 256
  type Bytes = seq<byte>

  const SaltLength := 16
  const NonceLength := 12
  const KeyLength := 32
  const Iterations := 100000
  /** AES-GCM appends a 16-byte authentication tag to the ciphertext. */
  const TagLength := 16
  /** AESGCM refuses (ValueError) a nonce shorter than 8 bytes. */
  const MinNonceLength := 8
  const DigestHexLength := 64

  datatype Library = Library(
    /** PBKDF2-HMAC-SHA256(password, salt, iterations, length). */
    pbkdf2: (Bytes, Bytes, nat, nat) -> Bytes,
    /** AESGCM(key).encrypt(nonce, data, None). */
    seal: (Bytes, Bytes, Bytes) -> Bytes,
    /** AESGCM(key).decrypt(nonce, data, None) for a nonce of accepted
        length; `None` stands for the raised InvalidTag. */
    open: (Bytes, Bytes, Bytes) -> Option<Bytes>,
    /** hashlib.sha256(data).hexdigest(). */
    sha256Hex: Bytes -> string,
    /** str.encode() and bytes.decode(); `None` is a UnicodeDecodeError. */
    utf8Encode: string -> Bytes,
    utf8Decode: Bytes -> Option<string>,
    /** base64.b64encode(...).decode(), and base64.b64decode applied to the
        text itself (it raises ValueError on a non-ASCII character); `None`
        is that error or a binascii.Error. */
    b64Encode: Bytes -> string,
    b64Decode: string -> Option<Bytes>,
    /** base64.b64decode(text.encode()): the decode is applied to the UTF-8
        bytes of the text, whose non-alphabet bytes it discards. */
    b64DecodeUtf8: string -> Option<Bytes>,
    /** json.dumps / json.loads for the three kinds of record; `None` is a
        parse failure or a value of another shape. */
    dumpNotes: seq<Note> -> string,
    parseNotes: string -> Option<seq<Note>>,
    dumpSettings: Settings -> string,
    parseSettings: string -> Option<Settings>,
    dumpExport: ExportRecord -> string,
    parseExport: string -> Option<ExportRecord>)

  predicate IsHexDigit(c: char) {
    '0' <= c <= '9' || 'a' <= c <= 'f'
  }

  /** What `hexdigest()` of a SHA-256 hash looks like. */
  predicate IsHexDigest(h: string) {
    |h| == DigestHexLength && forall i :: 0 <= i < |h| ==> IsHexDigit(h[i])
  }

  /** The facts about the foreign libraries that the core relies on. */
  ghost predicate Sound(lib: Library) {
    // PBKDF2 returns exactly the requested number of bytes
    && (forall pw, salt, it, len :: |lib.pbkdf2(pw, salt, it, len)| == len)
    // AES-GCM: the ciphertext is the plaintext's length plus the tag
    && (forall k, n, p :: |lib.seal(k, n, p)| == |p| + TagLength)
    // AES-GCM: decryption under the same key and nonce inverts encryption
    && (forall k, n, p :: lib.open(k, n, lib.seal(k, n, p)) == Some(p))
    // AES-GCM: a ciphertext shorter than the tag is rejected
    && (forall k, n, c :: |c| < TagLength ==> lib.open(k, n, c) == None)
    // SHA-256 hexdigest: 64 lower-case hex characters
    && (forall b :: IsHexDigest(lib.sha256Hex(b)))
    // UTF-8 round trip
    && (forall s :: lib.utf8Decode(lib.utf8Encode(s)) == Some(s))
    // base64: round trip, and 4 characters for every started group of 3 bytes
    && (forall b :: lib.b64Decode(lib.b64Encode(b)) == Some(b))
    && (forall b :: lib.b64DecodeUtf8(lib.b64Encode(b)) == Some(b))
    && (forall b :: |lib.b64Encode(b)| == 4 * ((|b| + 2) / 3))
    // JSON round trips; json.dumps of a list is never the empty string
    && (forall ns :: lib.parseNotes(lib.dumpNotes(ns)) == Some(ns))
    && (forall ns :: lib.dumpNotes(ns) != "")
    && (forall s :: lib.parseSettings(lib.dumpSettings(s)) == Some(s))
    && (forall e :: lib.parseExport(lib.dumpExport(e)) == Some(e))
  }
}
