/** A concrete `Library` that satisfies `Sound`, so that the facts the model
    assumes of the foreign libraries are consistent. It is not the real
    PBKDF2, AES-GCM, SHA-256, UTF-8, base64 or JSON: the key derivation and
    the hash are constant, sealing appends a zero tag that opening strips
    whatever the key, and each codec is the simplest one that decodes what it
    encodes. */
module Reference {
  import opened Wrappers
  import opened Records
  import opened Primitives

  // ---- UTF-8 stand-in: three bytes per character, high byte first ----

  function CharBytes(c: char): (b: Bytes)
    ensures |b| == 3
  {
    var n := c as int;
    var q := n / 256;
    [(q / 256) as byte, (q % 256) as byte, (n % 256) as byte]
  }

  /** The code point the three bytes of `CharBytes` spell, when it is one. */
  function BytesChar(b0: byte, b1: byte, b2: byte): Option<char> {
    var v := (b0 as int) * 65536 + (b1 as int) * 256 + (b2 as int);
    if v < 0xD800 || 0xE000 <= v < 0x11_0000 then Some(v as char) else None
  }

  lemma BytesCharInvertsCharBytes(c: char)
    ensures var b := CharBytes(c); BytesChar(b[0], b[1], b[2]) == Some(c)
  {
    var n := c as int;
    var q := n / 256;
    assert n == q * 256 + n % 256;
    assert q == (q / 256) * 256 + q % 256;
  }

  function TextBytes(s: string): Bytes {
    if s == [] then [] else CharBytes(s[0]) + TextBytes(s[1..])
  }

  function BytesText(b: Bytes): Option<string> {
    if b == [] then Some([])
    else if |b| < 3 then None
    else
      match BytesChar(b[0], b[1], b[2])
      case None => None
      case Some(c) =>
        match BytesText(b[3..])
        case None => None
        case Some(rest) => Some([c] + rest)
  }

  lemma {:induction false} TextRoundTrip(s: string)
    ensures BytesText(TextBytes(s)) == Some(s)
  {
    if s != [] {
      var b := TextBytes(s);
      BytesCharInvertsCharBytes(s[0]);
      assert b[3..] == TextBytes(s[1..]);
      TextRoundTrip(s[1..]);
      assert [s[0]] + s[1..] == s;
    }
  }

  // ---- base64 stand-in: every group of up to 3 bytes becomes 4 characters,
  //      the bytes themselves, '=' padding, and the group's size ----

  function ByteChar(b: byte): char {
    (b as int) as char
  }

  function CharByte(c: char): Option<byte> {
    if (c as int) < 256 then Some((c as int) as byte) else None
  }

  function Group(b: Bytes): (g: string)
    requires 1 <= |b| <= 3
    ensures |g| == 4
  {
    if |b| == 1 then [ByteChar(b[0]), '=', '=', '1']
    else if |b| == 2 then [ByteChar(b[0]), ByteChar(b[1]), '=', '2']
    else [ByteChar(b[0]), ByteChar(b[1]), ByteChar(b[2]), '3']
  }

  function UnGroup(g: string): Option<Bytes>
    requires |g| == 4
  {
    var b0, b1, b2 := CharByte(g[0]), CharByte(g[1]), CharByte(g[2]);
    if g[3] == '1' && b0.Some? then Some([b0.value])
    else if g[3] == '2' && b0.Some? && b1.Some? then Some([b0.value, b1.value])
    else if g[3] == '3' && b0.Some? && b1.Some? && b2.Some? then Some([b0.value, b1.value, b2.value])
    else None
  }

  lemma CharByteInvertsByteChar(b: byte)
    ensures CharByte(ByteChar(b)) == Some(b)
  {
  }

  lemma UnGroupInvertsGroup(b: Bytes)
    requires 1 <= |b| <= 3
    ensures UnGroup(Group(b)) == Some(b)
  {
    CharByteInvertsByteChar(b[0]);
    if |b| >= 2 { CharByteInvertsByteChar(b[1]); }
    if |b| == 3 { CharByteInvertsByteChar(b[2]); }
    if |b| == 1 { assert [b[0]] == b; }
    else if |b| == 2 { assert [b[0], b[1]] == b; }
    else { assert [b[0], b[1], b[2]] == b; }
  }

  function Encode64(b: Bytes): string
    decreases |b|
  {
    if b == [] then []
    else if |b| <= 3 then Group(b)
    else Group(b[..3]) + Encode64(b[3..])
  }

  lemma {:induction false} Encode64Length(b: Bytes)
    ensures |Encode64(b)| == 4 * ((|b| + 2) / 3)
    decreases |b|
  {
    if |b| > 3 {
      Encode64Length(b[3..]);
      assert (|b| + 2) / 3 == (|b[3..]| + 2) / 3 + 1;
    }
  }

  function Decode64(s: string): Option<Bytes>
    decreases |s|
  {
    if s == [] then Some([])
    else if |s| < 4 then None
    else
      match UnGroup(s[..4])
      case None => None
      case Some(head) =>
        match Decode64(s[4..])
        case None => None
        case Some(rest) => Some(head + rest)
  }

  lemma {:induction false} Base64RoundTrip(b: Bytes)
    ensures Decode64(Encode64(b)) == Some(b)
    decreases |b|
  {
    if b == [] {
    } else if |b| <= 3 {
      var s := Encode64(b);
      UnGroupInvertsGroup(b);
      assert s[..4] == Group(b) && s[4..] == [];
      assert b + [] == b;
    } else {
      var s := Encode64(b);
      UnGroupInvertsGroup(b[..3]);
      assert s[..4] == Group(b[..3]);
      assert s[4..] == Encode64(b[3..]);
      Base64RoundTrip(b[3..]);
      assert b[..3] + b[3..] == b;
    }
  }

  // ---- JSON stand-in: a tagged, self-delimiting encoding of each record ----

  /** Each character is written after a '+', and the text ends with '.'. */
  function EncText(s: string): string {
    if s == [] then "." else ['+', s[0]] + EncText(s[1..])
  }

  function DecText(t: string): Option<(string, string)>
    decreases |t|
  {
    if t == [] then None
    else if t[0] == '.' then Some(([], t[1..]))
    else if t[0] == '+' && |t| >= 2 then
      match DecText(t[2..])
      case None => None
      case Some((s, rest)) => Some(([t[1]] + s, rest))
    else None
  }

  lemma {:induction false} TextCodec(s: string, rest: string)
    ensures DecText(EncText(s) + rest) == Some((s, rest))
  {
    if s == [] {
      assert (EncText(s) + rest)[1..] == rest;
    } else {
      var t := EncText(s) + rest;
      assert t[2..] == EncText(s[1..]) + rest;
      TextCodec(s[1..], rest);
      assert [s[0]] + s[1..] == s;
    }
  }

  function EncBool(b: bool): string {
    if b then "t" else "f"
  }

  function DecBool(t: string): Option<(bool, string)> {
    if t == [] then None
    else if t[0] == 't' then Some((true, t[1..]))
    else if t[0] == 'f' then Some((false, t[1..]))
    else None
  }

  lemma BoolCodec(b: bool, rest: string)
    ensures DecBool(EncBool(b) + rest) == Some((b, rest))
  {
    assert (EncBool(b) + rest)[1..] == rest;
  }

  function EncOpt(o: Option<string>): string {
    match o
    case None => "n"
    case Some(s) => "s" + EncText(s)
  }

  function DecOpt(t: string): Option<(Option<string>, string)> {
    if t == [] then None
    else if t[0] == 'n' then Some((None, t[1..]))
    else if t[0] == 's' then
      match DecText(t[1..])
      case None => None
      case Some((s, rest)) => Some((Some(s), rest))
    else None
  }

  lemma OptCodec(o: Option<string>, rest: string)
    ensures DecOpt(EncOpt(o) + rest) == Some((o, rest))
  {
    var t := EncOpt(o) + rest;
    if o.Some? {
      assert t[1..] == EncText(o.value) + rest;
      TextCodec(o.value, rest);
    } else {
      assert t[1..] == rest;
    }
  }

  function EncNote(n: Note): string {
    EncText(n.title) + EncText(n.content) + EncBool(n.locked) + EncOpt(n.pinHash) + EncOpt(n.timestamp)
  }

  function DecNote(t: string): Option<(Note, string)> {
    match DecText(t)
    case None => None
    case Some((title, t1)) =>
      match DecText(t1)
      case None => None
      case Some((content, t2)) =>
        match DecBool(t2)
        case None => None
        case Some((locked, t3)) =>
          match DecOpt(t3)
          case None => None
          case Some((pinHash, t4)) =>
            match DecOpt(t4)
            case None => None
            case Some((timestamp, t5)) => Some((Note(title, content, locked, pinHash, timestamp), t5))
  }

  lemma NoteCodec(n: Note, rest: string)
    ensures DecNote(EncNote(n) + rest) == Some((n, rest))
  {
    var r4 := EncOpt(n.timestamp) + rest;
    var r3 := EncOpt(n.pinHash) + r4;
    var r2 := EncBool(n.locked) + r3;
    var r1 := EncText(n.content) + r2;
    var t := EncNote(n) + rest;
    assert t == EncText(n.title) + r1 by {
      var a, b, c, d, e := EncText(n.title), EncText(n.content), EncBool(n.locked), EncOpt(n.pinHash), EncOpt(n.timestamp);
      calc {
        t;
        (a + b + c + d + e) + rest;
        { Associative(a + b + c + d, e, rest); }
        (a + b + c + d) + r4;
        { Associative(a + b + c, d, r4); }
        (a + b + c) + r3;
        { Associative(a + b, c, r3); }
        (a + b) + r2;
        { Associative(a, b, r2); }
        a + r1;
      }
    }
    TextCodec(n.title, r1);
    TextCodec(n.content, r2);
    BoolCodec(n.locked, r3);
    OptCodec(n.pinHash, r4);
    OptCodec(n.timestamp, rest);
  }

  lemma Associative(a: string, b: string, c: string)
    ensures (a + b) + c == a + (b + c)
  {
  }

  /** A list: '+' before each note, '.' at the end. */
  function EncNotes(ns: seq<Note>): string {
    if ns == [] then "." else "+" + EncNote(ns[0]) + EncNotes(ns[1..])
  }

  function DecNotes(t: string): Option<(seq<Note>, string)>
    decreases |t|
  {
    if t == [] then None
    else if t[0] == '.' then Some(([], t[1..]))
    else if t[0] == '+' then
      match DecNote(t[1..])
      case None => None
      case Some((n, t1)) =>
        if |t1| < |t| then
          match DecNotes(t1)
          case None => None
          case Some((ns, rest)) => Some(([n] + ns, rest))
        else None
    else None
  }

  lemma {:induction false} NotesCodec(ns: seq<Note>, rest: string)
    ensures DecNotes(EncNotes(ns) + rest) == Some((ns, rest))
  {
    var t := EncNotes(ns) + rest;
    if ns == [] {
      assert t[1..] == rest;
    } else {
      var tail := EncNotes(ns[1..]) + rest;
      assert t == "+" + (EncNote(ns[0]) + tail);
      assert t[0] == '+' && t[1..] == EncNote(ns[0]) + tail;
      NoteCodec(ns[0], tail);
      assert DecNote(t[1..]) == Some((ns[0], tail));
      NotesCodec(ns[1..], rest);
      assert DecNotes(tail) == Some((ns[1..], rest));
      assert [ns[0]] + ns[1..] == ns;
    }
  }

  function ParseNotes(t: string): Option<seq<Note>> {
    match DecNotes(t)
    case Some((ns, rest)) => if rest == [] then Some(ns) else None
    case None => None
  }

  function EncSettings(s: Settings): string {
    EncBool(s.vaultLocked) + EncOpt(s.vaultPinHash) + EncOpt(s.deviceKey)
  }

  function ParseSettings(t: string): Option<Settings> {
    match DecBool(t)
    case None => None
    case Some((locked, t1)) =>
      match DecOpt(t1)
      case None => None
      case Some((pinHash, t2)) =>
        match DecOpt(t2)
        case Some((deviceKey, rest)) => if rest == [] then Some(Settings(locked, pinHash, deviceKey)) else None
        case None => None
  }

  lemma SettingsCodec(s: Settings)
    ensures ParseSettings(EncSettings(s)) == Some(s)
  {
    var r2 := EncOpt(s.deviceKey);
    var r1 := EncOpt(s.vaultPinHash) + r2;
    assert EncSettings(s) == EncBool(s.vaultLocked) + r1;
    assert r2 == r2 + [];
    BoolCodec(s.vaultLocked, r1);
    OptCodec(s.vaultPinHash, r2);
    OptCodec(s.deviceKey, []);
  }

  function EncExport(e: ExportRecord): string {
    EncText(e.title) + EncText(e.content) + EncText(e.timestamp)
  }

  function ParseExport(t: string): Option<ExportRecord> {
    match DecText(t)
    case None => None
    case Some((title, t1)) =>
      match DecText(t1)
      case None => None
      case Some((content, t2)) =>
        match DecText(t2)
        case Some((timestamp, rest)) => if rest == [] then Some(ExportRecord(title, content, timestamp)) else None
        case None => None
  }

  lemma ExportCodec(e: ExportRecord)
    ensures ParseExport(EncExport(e)) == Some(e)
  {
    var r2 := EncText(e.timestamp);
    var r1 := EncText(e.content) + r2;
    assert EncExport(e) == EncText(e.title) + r1;
    assert r2 == r2 + [];
    TextCodec(e.title, r1);
    TextCodec(e.content, r2);
    TextCodec(e.timestamp, []);
  }

  // ---- the library ----

  function ZeroKey(password: Bytes, salt: Bytes, iterations: nat, length: nat): Bytes {
    seq(length, _ => 0 as byte)
  }

  /** Appends a zero tag whatever the key and nonce: not key-committing. */
  function SealPlain(key: Bytes, nonce: Bytes, plain: Bytes): Bytes {
    plain + seq(TagLength, _ => 0 as byte)
  }

  function OpenPlain(key: Bytes, nonce: Bytes, sealed: Bytes): Option<Bytes> {
    if |sealed| < TagLength then None else Some(sealed[..|sealed| - TagLength])
  }

  function ZeroDigest(data: Bytes): string {
    seq(DigestHexLength, _ => '0')
  }

  function ReferenceLibrary(): Library {
    Library(
      ZeroKey, SealPlain, OpenPlain, ZeroDigest,
      TextBytes, BytesText,
      Encode64, Decode64, Decode64,
      EncNotes, ParseNotes, EncSettings, ParseSettings, EncExport, ParseExport)
  }

  lemma OpenPlainInvertsSealPlain(k: Bytes, n: Bytes, p: Bytes)
    ensures OpenPlain(k, n, SealPlain(k, n, p)) == Some(p)
  {
    assert SealPlain(k, n, p)[..|p|] == p;
  }

  lemma ParseNotesInvertsEncNotes(ns: seq<Note>)
    ensures ParseNotes(EncNotes(ns)) == Some(ns)
  {
    NotesCodec(ns, []);
    assert EncNotes(ns) + [] == EncNotes(ns);
  }

  /** The assumptions of the model are consistent: this library meets them. */
  lemma ReferenceLibraryIsSound()
    ensures Sound(ReferenceLibrary())
  {
    forall k: Bytes, n: Bytes, p: Bytes ensures OpenPlain(k, n, SealPlain(k, n, p)) == Some(p) {
      OpenPlainInvertsSealPlain(k, n, p);
    }
    forall s: string ensures BytesText(TextBytes(s)) == Some(s) {
      TextRoundTrip(s);
    }
    forall b: Bytes ensures Decode64(Encode64(b)) == Some(b) && |Encode64(b)| == 4 * ((|b| + 2) / 3) {
      Base64RoundTrip(b);
      Encode64Length(b);
    }
    forall ns: seq<Note> ensures ParseNotes(EncNotes(ns)) == Some(ns) {
      ParseNotesInvertsEncNotes(ns);
    }
    forall st: Settings ensures ParseSettings(EncSettings(st)) == Some(st) {
      SettingsCodec(st);
    }
    forall e: ExportRecord ensures ParseExport(EncExport(e)) == Some(e) {
      ExportCodec(e);
    }
  }
}
