/** main.py, lines 154-439: the decisions the screens make, as functions of
    the values they read. The classes in module Screens are proved against
    these functions. */
module Session {
  import opened Wrappers
  import opened Records
  import opened Primitives
  import opened Encryption
  import opened Storage
  import opened Text

  /** A note as save_note builds it: stripped non-empty title and content,
      and a PIN hash present exactly when the note is locked. */
  predicate WellFormed(note: Note) {
    && note.title != "" && Strip(note.title) == note.title
    && note.content != "" && Strip(note.content) == note.content
    && (note.locked <==> note.pinHash.Some?)
  }

  /** The per-note gate of select_note: an unlocked note opens directly, a
      locked one only when the entered PIN hashes to its stored hash. */
  predicate CanOpen(lib: Library, note: Note, entered: string)
    requires Sound(lib)
    ensures !note.locked ==> CanOpen(lib, note, entered)
    ensures note.locked && (note.pinHash.None? || !IsHexDigest(note.pinHash.value)) ==> !CanOpen(lib, note, entered)
  {
    !note.locked || note.pinHash == Some(HashPin(lib, entered))
  }

  /** The note save_note builds from the three input texts and the time, or
      `None` when the stripped title or content is empty. */
  function MakeNote(lib: Library, titleText: string, contentText: string, pinText: string, now: string): (r: Option<Note>)
    requires Sound(lib)
    ensures r.Some? ==> r.value.timestamp == Some(now) && (r.value.locked <==> r.value.pinHash.Some?)
  {
    var title := Strip(titleText);
    var content := Strip(contentText);
    var pin := Strip(pinText);
    var locked := pin != "";
    var pinHash := if locked then Some(HashPin(lib, pin)) else None;
    if title == "" || content == "" then None
    else Some(Note(title, content, locked, pinHash, Some(now)))
  }

  /** save_note refuses a blank title or content; otherwise the note holds
      the stripped texts and the time, is locked exactly when the stripped
      PIN is non-empty, and then stores that PIN's hash. */
  lemma MakeNoteSpec(lib: Library, titleText: string, contentText: string, pinText: string, now: string)
    requires Sound(lib)
    ensures var r := MakeNote(lib, titleText, contentText, pinText, now);
      && (r.None? <==> Strip(titleText) == "" || Strip(contentText) == "")
      && (r.Some? ==> WellFormed(r.value))
      && (r.Some? ==> r.value.title == Strip(titleText) && r.value.content == Strip(contentText))
      && (r.Some? ==> r.value.timestamp == Some(now))
      && (r.Some? ==> (r.value.locked <==> Strip(pinText) != ""))
      && (r.Some? && r.value.locked ==> r.value.pinHash == Some(HashPin(lib, Strip(pinText))))
  {
    var title, content, pin := Strip(titleText), Strip(contentText), Strip(pinText);
    if title != "" && content != "" {
      var note := Note(title, content, pin != "", if pin != "" then Some(HashPin(lib, pin)) else None, Some(now));
      assert MakeNote(lib, titleText, contentText, pinText, now) == Some(note);
      StripIdempotent(titleText);
      StripIdempotent(contentText);
      assert WellFormed(note);
    }
  }

  /** A note saved with a PIN opens with that (stripped) PIN, and is refused
      to any PIN whose hash differs. */
  lemma SavedNoteGate(lib: Library, titleText: string, contentText: string, pinText: string, now: string,
                      entered: string)
    requires Sound(lib)
    requires MakeNote(lib, titleText, contentText, pinText, now).Some?
    ensures CanOpen(lib, MakeNote(lib, titleText, contentText, pinText, now).value, Strip(pinText))
    ensures Strip(pinText) != "" && HashPin(lib, entered) != HashPin(lib, Strip(pinText)) ==>
      !CanOpen(lib, MakeNote(lib, titleText, contentText, pinText, now).value, entered)
  {
    MakeNoteSpec(lib, titleText, contentText, pinText, now);
  }

  /** Where save_note puts the new note: over `notes[selected]` when an index
      is selected, else at the end. `None` is the IndexError raised when the
      selected index is past the end of the list. */
  function PlaceNote(notes: seq<Note>, selected: Option<nat>, note: Note): (r: Option<seq<Note>>)
    ensures r.None? <==> selected.Some? && selected.value >= |notes|
    ensures r.Some? && selected.None? ==> r.value == notes + [note]
    ensures r.Some? && selected.Some? ==>
      |r.value| == |notes| && r.value[selected.value] == note
      && forall j :: 0 <= j < |notes| && j != selected.value ==> r.value[j] == notes[j]
  {
    match selected
    case None => Some(notes + [note])
    case Some(i) => if i < |notes| then Some(notes[i := note]) else None
  }

  /** `del notes[i]`: the list without its i-th note, the others in order. */
  function RemoveAt(notes: seq<Note>, i: nat): (r: seq<Note>)
    requires i < |notes|
    ensures |r| == |notes| - 1
    ensures forall j :: 0 <= j < i ==> r[j] == notes[j]
    ensures forall j :: i <= j < |r| ==> r[j] == notes[j + 1]
    ensures multiset(r) + multiset{notes[i]} == multiset(notes)
  {
    assert notes == notes[..i] + [notes[i]] + notes[i + 1..];
    notes[..i] + notes[i + 1..]
  }

  /** delete_note leaves the selected index as it was, so a save after a
      delete overwrites the note that followed the deleted one. */
  lemma DeleteThenSaveOverwritesNext(notes: seq<Note>, i: nat, note: Note)
    requires i + 1 < |notes|
    ensures PlaceNote(RemoveAt(notes, i), Some(i), note) == Some(notes[..i] + [note] + notes[i + 2..])
  {
    var r := PlaceNote(RemoveAt(notes, i), Some(i), note).value;
    assert r == notes[..i] + [note] + notes[i + 2..];
  }

  /** After deleting the last note with it still selected, save_note raises
      IndexError. */
  lemma DeleteLastThenSaveRaises(notes: seq<Note>, note: Note)
    requires |notes| > 0
    ensures PlaceNote(RemoveAt(notes, |notes| - 1), Some(|notes| - 1), note) == None
  {
  }

  /** unlock_vault: the session password it sets, or `None` when it refuses. */
  function UnlockDecision(lib: Library, settings: Settings, entered: string): (r: Option<string>)
    requires Sound(lib)
    requires settings.deviceKey.Some?
    ensures !settings.vaultLocked ==> r == settings.deviceKey
    ensures settings.vaultLocked ==>
      (r.Some? <==> settings.vaultPinHash == Some(HashPin(lib, entered))) && (r.Some? ==> r.value == entered)
  {
    if !settings.vaultLocked then settings.deviceKey
    else if Some(HashPin(lib, entered)) == settings.vaultPinHash then Some(entered)
    else None
  }

  /** VaultApp.build: the screen shown first. */
  datatype ScreenName = UnlockScreenName | VaultScreenName

  function Route(settings: Settings): (r: ScreenName)
    ensures r == UnlockScreenName <==> settings.vaultLocked
  {
    if settings.vaultLocked then UnlockScreenName else VaultScreenName
  }

  /** What save_settings_callback reads and writes: the settings record
      loaded when the dialog opened, the session password, the vault file
      and the in-memory list. */
  datatype Snapshot = Snapshot(settings: Settings, password: string, vaultFile: Option<string>, notes: seq<Note>)

  /** The settings and password save_settings_callback commits for new-PIN
      text `pinText`: a non-empty stripped PIN locks the vault under its
      hash and becomes the password; otherwise the vault is unlocked and the
      device key is the password. */
  function PinSettings(lib: Library, settings: Settings, pinText: string): (r: (Settings, string))
    requires Sound(lib)
    requires settings.deviceKey.Some?
    ensures r.0.deviceKey == settings.deviceKey
    ensures r.0.vaultLocked <==> r.0.vaultPinHash.Some?
    ensures !r.0.vaultLocked ==> r.1 == settings.deviceKey.value
  {
    var newPin := Strip(pinText);
    if newPin != "" then (settings.(vaultLocked := true, vaultPinHash := Some(HashPin(lib, newPin))), newPin)
    else (settings.(vaultLocked := false, vaultPinHash := None), settings.deviceKey.value)
  }

  /** save_settings_callback with new-PIN text `pinText`: set or clear the
      vault PIN, re-save the notes under the new password only if loading
      them under the old one succeeded, and switch the session password in
      every case. The settings file afterwards holds `r.settings`. */
  function Rekey(lib: Library, st: Snapshot, pinText: string, salt: Bytes, nonce: Bytes): (r: Snapshot)
    requires Sound(lib)
    requires st.settings.deviceKey.Some?
    requires |salt| == SaltLength && |nonce| == NonceLength
    ensures r.settings.deviceKey == st.settings.deviceKey
    ensures r.settings.vaultLocked <==> r.settings.vaultPinHash.Some?
    ensures !r.settings.vaultLocked ==> r.password == st.settings.deviceKey.value
  {
    var (settings, newPassword) := PinSettings(lib, st.settings, pinText);
    var (loaded, success) := ReadVault(lib, st.vaultFile, st.password);
    if success then Snapshot(settings, newPassword, Some(VaultBlob(lib, loaded, newPassword, salt, nonce)), loaded)
    else Snapshot(settings, newPassword, st.vaultFile, st.notes)
  }

  /** The settings a rekey writes keep the device key, are locked exactly
      when the stripped new PIN is non-empty, and then hold that PIN's hash
      and make it the password; otherwise the device key is the password.
      The vault file is rewritten under the new password only when the old
      one opened it. */
  lemma RekeySpec(lib: Library, st: Snapshot, pinText: string, salt: Bytes, nonce: Bytes)
    requires Sound(lib)
    requires st.settings.deviceKey.Some?
    requires |salt| == SaltLength && |nonce| == NonceLength
    ensures var r := Rekey(lib, st, pinText, salt, nonce);
      && r.settings.deviceKey == st.settings.deviceKey
      && (r.settings.vaultLocked <==> Strip(pinText) != "")
      && (r.settings.vaultLocked <==> r.settings.vaultPinHash.Some?)
      && (r.settings.vaultLocked ==>
            r.password == Strip(pinText) && r.settings.vaultPinHash == Some(HashPin(lib, Strip(pinText))))
      && (!r.settings.vaultLocked ==> r.password == st.settings.deviceKey.value)
      && var (loaded, success) := ReadVault(lib, st.vaultFile, st.password);
         && (success ==> r.vaultFile == Some(VaultBlob(lib, loaded, r.password, salt, nonce)) && r.notes == loaded)
         && (!success ==> r.vaultFile == st.vaultFile && r.notes == st.notes)
  {
  }

  /** A rekey from a vault that loads moves its notes to the new password:
      loading under the new password gives exactly the same list. */
  lemma RekeyPreservesContent(lib: Library, st: Snapshot, pinText: string, salt: Bytes, nonce: Bytes)
    requires Sound(lib)
    requires st.settings.deviceKey.Some?
    requires |salt| == SaltLength && |nonce| == NonceLength
    requires ReadVault(lib, st.vaultFile, st.password).1
    ensures var r := Rekey(lib, st, pinText, salt, nonce);
      ReadVault(lib, r.vaultFile, r.password) == (ReadVault(lib, st.vaultFile, st.password).0, true)
  {
    var r := Rekey(lib, st, pinText, salt, nonce);
    VaultRoundTrip(lib, ReadVault(lib, st.vaultFile, st.password).0, r.password, salt, nonce);
  }

  /** A rekey whose load under the old password fails leaves the vault file
      as it was, yet commits the new settings and password: the vault is then
      unreadable under the new password whenever the tag check rejects the
      new password's key. */
  lemma RekeyAfterFailedLoadOrphansVault(lib: Library, st: Snapshot, pinText: string, salt: Bytes, nonce: Bytes,
                                         notes: seq<Note>, writer: string, salt0: Bytes, nonce0: Bytes)
    requires Sound(lib)
    requires st.settings.deviceKey.Some?
    requires |salt| == SaltLength && |nonce| == NonceLength
    requires |salt0| == SaltLength && |nonce0| == NonceLength
    requires st.vaultFile == Some(VaultBlob(lib, notes, writer, salt0, nonce0))
    requires TagRejects(lib, lib.dumpNotes(notes), writer, st.password, salt0, nonce0)
    ensures var r := Rekey(lib, st, pinText, salt, nonce);
      && r.vaultFile == st.vaultFile && r.notes == st.notes
      && (TagRejects(lib, lib.dumpNotes(notes), writer, r.password, salt0, nonce0) ==>
            ReadVault(lib, r.vaultFile, r.password) == ([], false))
  {
    VaultRejectsOtherPassword(lib, notes, writer, st.password, salt0, nonce0);
    var r := Rekey(lib, st, pinText, salt, nonce);
    if TagRejects(lib, lib.dumpNotes(notes), writer, r.password, salt0, nonce0) {
      VaultRejectsOtherPassword(lib, notes, writer, r.password, salt0, nonce0);
    }
  }

  /** After a rekey, a restart reads back the same settings without
      rewriting them, routes to the unlock screen exactly when a PIN was
      set, and unlocking with that PIN yields the password the vault was
      re-saved under. */
  lemma RestartAfterRekey(lib: Library, st: Snapshot, pinText: string, salt: Bytes, nonce: Bytes, random: Bytes)
    requires Sound(lib)
    requires st.settings.deviceKey.Some?
    requires |salt| == SaltLength && |nonce| == NonceLength
    requires |random| == KeyLength
    ensures var r := Rekey(lib, st, pinText, salt, nonce);
      var file := Some(lib.dumpSettings(r.settings));
      var reloaded := LoadedSettings(lib, file, random);
      && !BootstrapWrites(lib, file)
      && reloaded == r.settings
      && (Route(reloaded) == UnlockScreenName <==> Strip(pinText) != "")
      && UnlockDecision(lib, reloaded, Strip(pinText)) == Some(r.password)
  {
    var r := Rekey(lib, st, pinText, salt, nonce);
    assert lib.parseSettings(lib.dumpSettings(r.settings)) == Some(r.settings);
  }

  /** One pass through the vault-settings dialog: the new-PIN text and the
      urandom draws of its save_vault. */
  datatype PinChange = PinChange(pinText: string, salt: Bytes, nonce: Bytes)

  predicate WellSized(changes: seq<PinChange>) {
    forall i :: 0 <= i < |changes| ==> |changes[i].salt| == SaltLength && |changes[i].nonce| == NonceLength
  }

  /** A sequence of rekeys, each starting from the state the last one left. */
  function RekeyAll(lib: Library, st: Snapshot, changes: seq<PinChange>): (r: Snapshot)
    requires Sound(lib)
    requires st.settings.deviceKey.Some?
    requires WellSized(changes)
    ensures r.settings.deviceKey == st.settings.deviceKey
    decreases |changes|
  {
    if changes == [] then st
    else RekeyAll(lib, Rekey(lib, st, changes[0].pinText, changes[0].salt, changes[0].nonce), changes[1..])
  }

  /** Any sequence of PIN sets, changes and removals on a vault that loads
      keeps its notes: the last password opens exactly the original list. */
  lemma {:induction false} RekeyAllPreservesContent(lib: Library, st: Snapshot, changes: seq<PinChange>)
    requires Sound(lib)
    requires st.settings.deviceKey.Some?
    requires WellSized(changes)
    requires ReadVault(lib, st.vaultFile, st.password).1
    ensures var r := RekeyAll(lib, st, changes);
      ReadVault(lib, r.vaultFile, r.password) == (ReadVault(lib, st.vaultFile, st.password).0, true)
    ensures changes != [] ==> RekeyAll(lib, st, changes).notes == ReadVault(lib, st.vaultFile, st.password).0
    decreases |changes|
  {
    if changes != [] {
      var c := changes[0];
      var next := Rekey(lib, st, c.pinText, c.salt, c.nonce);
      RekeyPreservesContent(lib, st, c.pinText, c.salt, c.nonce);
      RekeyAllPreservesContent(lib, next, changes[1..]);
    }
  }

  /** The single-document export: the filename and the exported record. */
  function ExportFilename(title: string): (name: string)
    ensures |name| == |title| + 5 && name[|title|..] == ".venc"
    ensures forall j :: 0 <= j < |title| ==> name[j] != ' '
    ensures forall j :: 0 <= j < |title| && title[j] != ' ' ==> name[j] == title[j]
    ensures forall j :: 0 <= j < |title| && title[j] == ' ' ==> name[j] == '_'
  {
    ReplaceSpaces(title) + ".venc"
  }

  function ExportRecordOf(note: Note, now: string): (e: ExportRecord)
    ensures e.title == note.title && e.content == note.content
    ensures e.timestamp == (if note.timestamp.Some? then note.timestamp.value else now)
  {
    ExportRecord(note.title, note.content, note.timestamp.GetOr(now))
  }

  /** The text written to the `.venc` file. */
  function ExportBlob(lib: Library, note: Note, exportPin: string, now: string, salt: Bytes, nonce: Bytes): (blob: string)
    requires Sound(lib)
    requires |salt| == SaltLength && |nonce| == NonceLength
    ensures Decrypt(lib, blob, exportPin) == Ok(lib.dumpExport(ExportRecordOf(note, now)))
  {
    DecryptInvertsEncrypt(lib, lib.dumpExport(ExportRecordOf(note, now)), exportPin, salt, nonce);
    Encrypt(lib, lib.dumpExport(ExportRecordOf(note, now)), exportPin, salt, nonce)
  }

  /** Decrypting an export with its PIN and parsing it gives back the
      title, content and timestamp of the note. */
  lemma ExportRoundTrip(lib: Library, note: Note, exportPin: string, now: string, salt: Bytes, nonce: Bytes)
    requires Sound(lib)
    requires |salt| == SaltLength && |nonce| == NonceLength
    ensures var plain := Decrypt(lib, ExportBlob(lib, note, exportPin, now, salt, nonce), exportPin);
      plain.Ok? && lib.parseExport(plain.value) == Some(ExportRecordOf(note, now))
  {
    DecryptInvertsEncrypt(lib, lib.dumpExport(ExportRecordOf(note, now)), exportPin, salt, nonce);
  }
}
