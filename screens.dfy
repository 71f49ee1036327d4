/** main.py, lines 131-304, 366-468: the screen objects whose fields the
    source updates in place. Widgets, popups and the PIN prompt are left
    out; the text a prompt or an input field would hold is a parameter, and
    so are the urandom draws and the current time. */
module Screens {
  import opened Wrappers
  import opened Records
  import opened Primitives
  import opened Encryption
  import opened Storage
  import opened Session

  /** What a note-list operation did. `IndexError` is the exception the
      source raises when the selected index is past the end of the list. */
  datatype EditOutcome = Done | Rejected | NoSelection | IndexError

  /** The ScreenManager: the session password and the current screen. */
  class Manager {
    var vaultPassword: Option<string>
    var current: ScreenName

    constructor(vaultPassword: Option<string>, current: ScreenName)
      ensures this.vaultPassword == vaultPassword && this.current == current
    {
      this.vaultPassword := vaultPassword;
      this.current := current;
    }
  }

  class UnlockScreen {
    const disk: Disk
    const manager: Manager
    /** The settings read when the screen was built. */
    var settings: Settings

    /** UnlockScreen.__init__: loads the settings once. */
    constructor(disk: Disk, manager: Manager, random: Bytes)
      requires Sound(disk.lib)
      requires |random| == KeyLength
      modifies disk
      ensures this.disk == disk && this.manager == manager
      ensures settings == LoadedSettings(disk.lib, old(disk.settingsFile), random)
      ensures settings.deviceKey.Some?
      ensures disk.settingsFile == SettingsFileAfterLoad(disk.lib, old(disk.settingsFile), random)
      ensures disk.vaultFile == old(disk.vaultFile)
      ensures disk.writes == old(disk.writes) + if BootstrapWrites(disk.lib, old(disk.settingsFile)) then [SettingsFile] else []
    {
      this.disk := disk;
      this.manager := manager;
      new;
      settings := disk.LoadSettings(random);
    }

    /** unlock_vault with the text of the PIN field. */
    method UnlockVault(enteredPin: string) returns (granted: bool)
      requires Sound(disk.lib)
      requires settings.deviceKey.Some?
      modifies manager
      ensures var decision := UnlockDecision(disk.lib, settings, enteredPin);
        && granted == decision.Some?
        && (granted ==> manager.vaultPassword == decision && manager.current == VaultScreenName)
        && (!granted ==> manager.vaultPassword == old(manager.vaultPassword) && manager.current == old(manager.current))
    {
      if !settings.vaultLocked {
        manager.vaultPassword := settings.deviceKey;
        manager.current := VaultScreenName;
        return true;
      }
      if Some(HashPin(disk.lib, enteredPin)) == settings.vaultPinHash {
        manager.vaultPassword := Some(enteredPin);
        manager.current := VaultScreenName;
        return true;
      }
      return false;
    }
  }

  class VaultScreen {
    const disk: Disk
    const manager: Manager
    var notes: seq<Note>
    var selectedIndex: Option<nat>

    /** The in-memory list is exactly what the vault file decrypts to under
        the session password. */
    ghost predicate Persisted()
      requires Sound(disk.lib)
      reads this, disk, manager
    {
      && manager.vaultPassword.Some?
      && ReadVault(disk.lib, disk.vaultFile, manager.vaultPassword.value) == (notes, true)
    }

    constructor(disk: Disk, manager: Manager)
      ensures this.disk == disk && this.manager == manager
      ensures notes == [] && selectedIndex == None
    {
      this.disk := disk;
      this.manager := manager;
      notes := [];
      selectedIndex := None;
    }

    /** on_enter: fall back to the device key when no session password is
        set, then load the vault; a failed load leaves the list empty. */
    method OnEnter(random: Bytes)
      requires Sound(disk.lib)
      requires |random| == KeyLength
      modifies this, disk, manager
      ensures var reload := old(manager.vaultPassword).None? || old(manager.vaultPassword).value == "";
        && manager.vaultPassword ==
             (if reload then LoadedSettings(disk.lib, old(disk.settingsFile), random).deviceKey
              else old(manager.vaultPassword))
        && disk.settingsFile ==
             (if reload then SettingsFileAfterLoad(disk.lib, old(disk.settingsFile), random)
              else old(disk.settingsFile))
        && disk.writes ==
             old(disk.writes) + if reload && BootstrapWrites(disk.lib, old(disk.settingsFile)) then [SettingsFile] else []
      ensures manager.vaultPassword.Some? && manager.current == old(manager.current)
      ensures disk.vaultFile == old(disk.vaultFile)
      ensures notes == ReadVault(disk.lib, disk.vaultFile, manager.vaultPassword.value).0
      ensures ReadVault(disk.lib, disk.vaultFile, manager.vaultPassword.value).1 ==> Persisted()
      ensures selectedIndex == old(selectedIndex)
    {
      var vaultPassword := manager.vaultPassword;
      if vaultPassword.None? || vaultPassword.value == "" {
        var settings := disk.LoadSettings(random);
        vaultPassword := settings.deviceKey;
        manager.vaultPassword := vaultPassword;
      }
      var loaded, success := disk.LoadVault(vaultPassword.value);
      if success {
        notes := loaded;
      } else {
        notes := [];
      }
    }

    /** select_note(index), with `enteredPin` the answer to the PIN prompt
        shown for a locked note (unused for an unlocked one). `Done` means
        load_note ran and put `title` and `content` in the editor; `Rejected`
        is the "Access Denied" popup; `IndexError` is raised by a list button
        left over from before the list last changed. */
    method SelectNote(index: nat, enteredPin: string) returns (outcome: EditOutcome, title: string, content: string)
      requires Sound(disk.lib)
      modifies this`selectedIndex
      ensures outcome == IndexError <==> index >= |notes|
      ensures outcome == Done <==> index < |notes| && CanOpen(disk.lib, notes[index], enteredPin)
      ensures outcome == Rejected <==> index < |notes| && !CanOpen(disk.lib, notes[index], enteredPin)
      ensures outcome == Done ==> title == notes[index].title && content == notes[index].content
      ensures outcome == Done ==> selectedIndex == Some(index)
      ensures outcome != Done ==> selectedIndex == old(selectedIndex)
    {
      if index >= |notes| {
        return IndexError, "", "";
      }
      var note := notes[index];
      if note.locked && Some(HashPin(disk.lib, enteredPin)) != note.pinHash {
        return Rejected, "", "";
      }
      title, content := LoadNote(index);
      outcome := Done;
    }

    /** load_note(index): select the note and hand its text to the editor. */
    method LoadNote(index: nat) returns (title: string, content: string)
      requires index < |notes|
      modifies this`selectedIndex
      ensures selectedIndex == Some(index)
      ensures title == notes[index].title && content == notes[index].content
    {
      var note := notes[index];
      selectedIndex := Some(index);
      title, content := note.title, note.content;
    }

    /** save_note with the texts of the title, content and PIN fields. */
    method SaveNote(titleText: string, contentText: string, pinText: string, now: string, salt: Bytes, nonce: Bytes)
      returns (outcome: EditOutcome)
      requires Sound(disk.lib)
      requires manager.vaultPassword.Some?
      requires |salt| == SaltLength && |nonce| == NonceLength
      modifies this`notes, disk
      ensures outcome == Rejected <==> MakeNote(disk.lib, titleText, contentText, pinText, now).None?
      ensures var made := MakeNote(disk.lib, titleText, contentText, pinText, now);
        outcome == IndexError <==> made.Some? && PlaceNote(old(notes), old(selectedIndex), made.value).None?
      ensures var made := MakeNote(disk.lib, titleText, contentText, pinText, now);
        outcome == Done <==> made.Some? && PlaceNote(old(notes), old(selectedIndex), made.value).Some?
      ensures outcome != Done ==>
        notes == old(notes) && disk.vaultFile == old(disk.vaultFile) && disk.writes == old(disk.writes)
      ensures outcome == Done ==>
        var made := MakeNote(disk.lib, titleText, contentText, pinText, now);
        && made.Some? && PlaceNote(old(notes), old(selectedIndex), made.value).Some?
        && notes == PlaceNote(old(notes), old(selectedIndex), made.value).value
        && disk.vaultFile == Some(VaultBlob(disk.lib, notes, old(manager.vaultPassword).value, salt, nonce))
        && disk.writes == old(disk.writes) + [VaultFile]
      ensures outcome == Done ==> Persisted()
      ensures disk.settingsFile == old(disk.settingsFile) && selectedIndex == old(selectedIndex)
    {
      var made := MakeNote(disk.lib, titleText, contentText, pinText, now);
      if made.None? {
        return Rejected;
      }
      var placed := PlaceNote(notes, selectedIndex, made.value);
      if placed.None? {
        return IndexError;
      }
      notes := placed.value;
      Store(salt, nonce);
      return Done;
    }

    /** The save_vault call shared by save_note and delete_note: write the
        current list under the session password. */
    method Store(salt: Bytes, nonce: Bytes)
      requires Sound(disk.lib)
      requires manager.vaultPassword.Some?
      requires |salt| == SaltLength && |nonce| == NonceLength
      modifies disk
      ensures disk.vaultFile == Some(VaultBlob(disk.lib, notes, manager.vaultPassword.value, salt, nonce))
      ensures disk.writes == old(disk.writes) + [VaultFile]
      ensures disk.settingsFile == old(disk.settingsFile)
      ensures Persisted()
    {
      disk.SaveVault(notes, manager.vaultPassword.value, salt, nonce);
      VaultRoundTrip(disk.lib, notes, manager.vaultPassword.value, salt, nonce);
    }

    /** delete_note: remove the selected note and re-save the vault. The
        selected index is left as it was. */
    method DeleteNote(salt: Bytes, nonce: Bytes) returns (outcome: EditOutcome)
      requires Sound(disk.lib)
      requires manager.vaultPassword.Some?
      requires |salt| == SaltLength && |nonce| == NonceLength
      modifies this`notes, disk
      ensures old(selectedIndex).None? ==> outcome == NoSelection
      ensures old(selectedIndex).Some? && old(selectedIndex).value >= |old(notes)| ==> outcome == IndexError
      ensures outcome != Done ==>
        notes == old(notes) && disk.vaultFile == old(disk.vaultFile) && disk.writes == old(disk.writes)
      ensures outcome == Done <==> old(selectedIndex).Some? && old(selectedIndex).value < |old(notes)|
      ensures outcome == Done ==>
        && notes == RemoveAt(old(notes), old(selectedIndex).value)
        && disk.vaultFile == Some(VaultBlob(disk.lib, notes, manager.vaultPassword.value, salt, nonce))
        && disk.writes == old(disk.writes) + [VaultFile]
        && Persisted()
      ensures disk.settingsFile == old(disk.settingsFile) && selectedIndex == old(selectedIndex)
    {
      if selectedIndex.None? {
        return NoSelection;
      }
      var i := selectedIndex.value;
      if i >= |notes| {
        return IndexError;
      }
      notes := RemoveAt(notes, i);
      Store(salt, nonce);
      return Done;
    }

    /** new_note: deselect, so that the next save appends. */
    method NewNote()
      modifies this`selectedIndex
      ensures selectedIndex == None
    {
      selectedIndex := None;
    }

    /** export_document with `exportPin` the answer to its PIN prompt:
        returns the file name and the text written to it. */
    method ExportDocument(exportPin: string, now: string, salt: Bytes, nonce: Bytes)
      returns (outcome: EditOutcome, filename: string, blob: string)
      requires Sound(disk.lib)
      requires |salt| == SaltLength && |nonce| == NonceLength
      ensures selectedIndex.None? ==> outcome == NoSelection
      ensures selectedIndex.Some? && selectedIndex.value >= |notes| ==> outcome == IndexError
      ensures outcome == Done <==> selectedIndex.Some? && selectedIndex.value < |notes|
      ensures outcome == Done ==>
        var note := notes[selectedIndex.value];
        filename == ExportFilename(note.title) && blob == ExportBlob(disk.lib, note, exportPin, now, salt, nonce)
    {
      if selectedIndex.None? {
        return NoSelection, "", "";
      }
      if selectedIndex.value >= |notes| {
        return IndexError, "", "";
      }
      var note := notes[selectedIndex.value];
      blob := ExportBlob(disk.lib, note, exportPin, now, salt, nonce);
      filename := ExportFilename(note.title);
      outcome := Done;
    }

    /** The vault step of save_settings_callback: load the notes under the
        old password and, only if that succeeds, make them the list and
        save them under the new one. */
    method Resave(oldPassword: string, newPassword: string, salt: Bytes, nonce: Bytes) returns (success: bool)
      requires Sound(disk.lib)
      requires |salt| == SaltLength && |nonce| == NonceLength
      modifies this`notes, disk
      ensures var (loaded, ok) := ReadVault(disk.lib, old(disk.vaultFile), oldPassword);
        && success == ok
        && (success ==> && disk.vaultFile == Some(VaultBlob(disk.lib, loaded, newPassword, salt, nonce))
                        && notes == loaded
                        && disk.writes == old(disk.writes) + [VaultFile])
        && (!success ==> disk.vaultFile == old(disk.vaultFile) && notes == old(notes) && disk.writes == old(disk.writes))
      ensures success ==> ReadVault(disk.lib, disk.vaultFile, newPassword) == (notes, true)
      ensures disk.settingsFile == old(disk.settingsFile)
    {
      var loaded;
      loaded, success := disk.LoadVault(oldPassword);
      if success {
        disk.SaveVault(loaded, newPassword, salt, nonce);
        notes := loaded;
        VaultRoundTrip(disk.lib, loaded, newPassword, salt, nonce);
      }
    }

    /** open_vault_settings followed by its save_settings_callback, with
        `pinText` the text of the new-PIN field: load the settings, set or
        clear the vault PIN, re-save the notes under the new password if they
        load under the old one, then switch the session password and write
        the settings, whether or not the load succeeded. */
    method ChangeVaultPin(random: Bytes, pinText: string, salt: Bytes, nonce: Bytes)
      requires Sound(disk.lib)
      requires manager.vaultPassword.Some?
      requires |random| == KeyLength
      requires |salt| == SaltLength && |nonce| == NonceLength
      modifies this`notes, disk, manager`vaultPassword
      ensures var dialog := LoadedSettings(disk.lib, old(disk.settingsFile), random);
        var before := Snapshot(dialog, old(manager.vaultPassword.value), old(disk.vaultFile), old(notes));
        var after := Rekey(disk.lib, before, pinText, salt, nonce);
        && disk.settingsFile == Some(disk.lib.dumpSettings(after.settings))
        && disk.vaultFile == after.vaultFile
        && manager.vaultPassword == Some(after.password)
        && notes == after.notes
        && disk.writes == old(disk.writes)
             + (if BootstrapWrites(disk.lib, old(disk.settingsFile)) then [SettingsFile] else [])
             + (if ReadVault(disk.lib, old(disk.vaultFile), old(manager.vaultPassword.value)).1 then [VaultFile] else [])
             + [SettingsFile]
      ensures ReadVault(disk.lib, old(disk.vaultFile), old(manager.vaultPassword.value)).1 ==> Persisted()
    {
      ghost var bootstrap := if BootstrapWrites(disk.lib, disk.settingsFile) then [SettingsFile] else [];
      var settings := disk.LoadSettings(random);
      ghost var writes0 := disk.writes;
      assert writes0 == old(disk.writes) + bootstrap;
      var oldPassword := manager.vaultPassword.value;
      ghost var after := Rekey(disk.lib, Snapshot(settings, oldPassword, disk.vaultFile, notes), pinText, salt, nonce);
      var pinned := PinSettings(disk.lib, settings, pinText);
      var newPassword := pinned.1;
      settings := pinned.0;
      var success := Resave(oldPassword, newPassword, salt, nonce);
      ghost var resave: seq<FileKind> := if success then [VaultFile] else [];
      assert disk.writes == writes0 + resave;
      assert after == Snapshot(settings, newPassword, disk.vaultFile, notes);
      manager.vaultPassword := Some(newPassword);
      ghost var stored := disk.vaultFile;
      disk.SaveSettings(settings);
      assert disk.vaultFile == stored;
      assert disk.writes == old(disk.writes) + bootstrap + resave + [SettingsFile];
      assert success ==> ReadVault(disk.lib, disk.vaultFile, newPassword) == (notes, true);
    }
  }

  /** VaultApp.build: load the settings, make the device key the session
      password, build both screens (the unlock screen loads the settings a
      second time) and show the unlock screen exactly when the vault is
      PIN-locked. `random1` and `random2` are the urandom draws of the two
      loads. Entering the vault screen then runs `OnEnter`. */
  method Build(disk: Disk, random1: Bytes, random2: Bytes)
    returns (manager: Manager, unlock: UnlockScreen, vault: VaultScreen)
    requires Sound(disk.lib)
    requires |random1| == KeyLength && |random2| == KeyLength
    modifies disk
    ensures var settings := LoadedSettings(disk.lib, old(disk.settingsFile), random1);
      && manager.vaultPassword == settings.deviceKey
      && manager.current == Route(settings)
    ensures var afterFirst := SettingsFileAfterLoad(disk.lib, old(disk.settingsFile), random1);
      && unlock.settings == LoadedSettings(disk.lib, afterFirst, random2)
      && disk.settingsFile == SettingsFileAfterLoad(disk.lib, afterFirst, random2)
      && disk.writes == old(disk.writes)
           + (if BootstrapWrites(disk.lib, old(disk.settingsFile)) then [SettingsFile] else [])
           + (if BootstrapWrites(disk.lib, afterFirst) then [SettingsFile] else [])
    ensures disk.vaultFile == old(disk.vaultFile)
    ensures fresh(manager) && fresh(unlock) && fresh(vault)
    ensures unlock.disk == disk && unlock.manager == manager && unlock.settings.deviceKey.Some?
    ensures vault.disk == disk && vault.manager == manager && vault.notes == [] && vault.selectedIndex == None
  {
    var settings := disk.LoadSettings(random1);
    manager := new Manager(settings.deviceKey, UnlockScreenName);
    unlock := new UnlockScreen(disk, manager, random2);
    vault := new VaultScreen(disk, manager);
    if settings.vaultLocked {
      manager.current := UnlockScreenName;
    } else {
      manager.current := VaultScreenName;
    }
  }
}
