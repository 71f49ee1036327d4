/** main.py, lines 25-129: the copy of `EncryptionManager` that swallows
    failures, and the four functions that read and overwrite the settings
    file and the vault file. Each file is an `Option<string>` field of a
    `Disk`: `None` when the file does not exist, else its whole text. */
module Storage {
  import opened Wrappers
  import opened Records
  import opened Primitives
  import opened Encryption

  /** decrypt_data: base64-decodes the UTF-8 bytes of the text (where
      `Decrypt` decodes the text itself), then does what `DecryptRaw` does,
      with every exception caught and turned into `None`. (encrypt_data is
      the same code as `Encrypt`.) */
  function DecryptData(lib: Library, blob: string, password: string): (r: Option<string>)
    requires Sound(lib)
    ensures lib.b64DecodeUtf8(blob).None? ==> r == None
    ensures r.Some? <==> lib.b64DecodeUtf8(blob).Some? && DecryptRaw(lib, lib.b64DecodeUtf8(blob).value, password).Ok?
    ensures r.Some? ==> |lib.b64DecodeUtf8(blob).value| >= SaltLength + NonceLength + TagLength
  {
    match lib.b64DecodeUtf8(blob)
    case None => None
    case Some(raw) =>
      match DecryptRaw(lib, raw, password)
      case Ok(text) => Some(text)
      case Err(_) => None
  }

  /** decrypt_data(encrypt_data(p, s), s) == p. */
  lemma DecryptDataInvertsEncrypt(lib: Library, data: string, password: string, salt: Bytes, nonce: Bytes)
    requires Sound(lib)
    requires |salt| == SaltLength && |nonce| == NonceLength
    ensures DecryptData(lib, Encrypt(lib, data, password, salt, nonce), password) == Some(data)
  {
    DecryptInvertsEncrypt(lib, data, password, salt, nonce);
  }

  /** With another password (one whose key the tag check rejects), with a
      blob that is not base64, or with a blob too short to hold salt, nonce
      and tag, decrypt_data returns `None` rather than raising. */
  lemma DecryptDataFailsClosed(lib: Library, data: string, password: string, other: string,
                               salt: Bytes, nonce: Bytes, blob: string)
    requires Sound(lib)
    requires |salt| == SaltLength && |nonce| == NonceLength
    ensures TagRejects(lib, data, password, other, salt, nonce) ==>
      DecryptData(lib, Encrypt(lib, data, password, salt, nonce), other) == None
    ensures lib.b64DecodeUtf8(blob).None? ==> DecryptData(lib, blob, other) == None
    ensures lib.b64DecodeUtf8(blob).Some? && |lib.b64DecodeUtf8(blob).value| < SaltLength + NonceLength + TagLength ==>
      DecryptData(lib, blob, other) == None
  {
    if TagRejects(lib, data, password, other, salt, nonce) {
      DecryptRejectsOtherPassword(lib, data, password, other, salt, nonce);
    }
  }

  /** The settings written on first run: unlocked, no PIN hash. */
  function DefaultSettings(deviceKey: string): Settings {
    Settings(false, None, Some(deviceKey))
  }

  /** Whether load_settings writes the settings file: when the file is
      missing, or when it parses but has no device key. */
  predicate BootstrapWrites(lib: Library, file: Option<string>) {
    match file
    case None => true
    case Some(text) => lib.parseSettings(text).Some? && lib.parseSettings(text).value.deviceKey.None?
  }

  /** What load_settings returns, given the settings file and the 32 bytes
      `os.urandom` would supply for a fresh device key. */
  function LoadedSettings(lib: Library, file: Option<string>, random: Bytes): (s: Settings)
    requires Sound(lib)
    requires |random| == KeyLength
    ensures s.deviceKey.Some?
    ensures file.None? || lib.parseSettings(file.value).None? ==>
      s == DefaultSettings(GenerateDeviceKey(lib, random))
    ensures file.Some? && lib.parseSettings(file.value).Some? && lib.parseSettings(file.value).value.deviceKey.None? ==>
      s == lib.parseSettings(file.value).value.(deviceKey := Some(GenerateDeviceKey(lib, random)))
    ensures file.Some? && lib.parseSettings(file.value).Some? ==>
      var stored := lib.parseSettings(file.value).value;
      s.vaultLocked == stored.vaultLocked && s.vaultPinHash == stored.vaultPinHash
      && (stored.deviceKey.Some? ==> s == stored)
  {
    var generated := GenerateDeviceKey(lib, random);
    match file
    case None => DefaultSettings(generated)
    case Some(text) =>
      match lib.parseSettings(text)
      case None => DefaultSettings(generated)
      case Some(stored) => if stored.deviceKey.Some? then stored else stored.(deviceKey := Some(generated))
  }

  /** The settings file after load_settings. */
  function SettingsFileAfterLoad(lib: Library, file: Option<string>, random: Bytes): Option<string>
    requires Sound(lib)
    requires |random| == KeyLength
  {
    if BootstrapWrites(lib, file) then Some(lib.dumpSettings(LoadedSettings(lib, file, random))) else file
  }

  /** Whatever load_settings writes reads back as the settings it returned;
      a corrupt file is never overwritten, and a missing one is always created. */
  lemma BootstrapPersistsWhatItReturns(lib: Library, file: Option<string>, random: Bytes)
    requires Sound(lib)
    requires |random| == KeyLength
    ensures file.None? ==> SettingsFileAfterLoad(lib, file, random).Some?
    ensures BootstrapWrites(lib, file) ==>
      lib.parseSettings(SettingsFileAfterLoad(lib, file, random).value) == Some(LoadedSettings(lib, file, random))
    ensures file.Some? && lib.parseSettings(file.value).None? ==> SettingsFileAfterLoad(lib, file, random) == file
  {
  }

  /** Once load_settings has run on a file that was missing or readable,
      running it again returns the same settings and writes nothing, whatever
      random bytes it is given. */
  lemma BootstrapStable(lib: Library, file: Option<string>, random1: Bytes, random2: Bytes)
    requires Sound(lib)
    requires |random1| == KeyLength && |random2| == KeyLength
    requires file.None? || lib.parseSettings(file.value).Some?
    ensures var after := SettingsFileAfterLoad(lib, file, random1);
      && !BootstrapWrites(lib, after)
      && LoadedSettings(lib, after, random2) == LoadedSettings(lib, file, random1)
  {
    var after := SettingsFileAfterLoad(lib, file, random1);
    var s := LoadedSettings(lib, file, random1);
    if BootstrapWrites(lib, file) {
      assert lib.parseSettings(after.value) == Some(s);
    }
  }

  /** load_vault: `(notes, success)`. */
  function ReadVault(lib: Library, file: Option<string>, password: string): (r: (seq<Note>, bool))
    requires Sound(lib)
    ensures file.None? ==> r == ([], true)
    ensures !r.1 ==> r.0 == []
    ensures file.Some? ==> var d := DecryptData(lib, file.value, password);
      && (r.1 <==> d.Some? && d.value != "" && lib.parseNotes(d.value).Some?)
      && (r.1 ==> r.0 == lib.parseNotes(d.value).value)
  {
    match file
    case None => ([], true)
    case Some(blob) =>
      match DecryptData(lib, blob, password)
      case None => ([], false)
      case Some(plain) =>
        if plain == "" then ([], false)
        else
          match lib.parseNotes(plain)
          case None => ([], false)
          case Some(notes) => (notes, true)
  }

  /** The text save_vault writes: the JSON of the list, encrypted. */
  function VaultBlob(lib: Library, notes: seq<Note>, password: string, salt: Bytes, nonce: Bytes): (blob: string)
    requires Sound(lib)
    requires |salt| == SaltLength && |nonce| == NonceLength
    ensures DecryptData(lib, blob, password) == Some(lib.dumpNotes(notes))
  {
    DecryptDataInvertsEncrypt(lib, lib.dumpNotes(notes), password, salt, nonce);
    Encrypt(lib, lib.dumpNotes(notes), password, salt, nonce)
  }

  /** Loading what save_vault wrote, under the same password, gives back
      exactly the list that was saved. */
  lemma VaultRoundTrip(lib: Library, notes: seq<Note>, password: string, salt: Bytes, nonce: Bytes)
    requires Sound(lib)
    requires |salt| == SaltLength && |nonce| == NonceLength
    ensures ReadVault(lib, Some(VaultBlob(lib, notes, password, salt, nonce)), password) == (notes, true)
  {
    DecryptDataInvertsEncrypt(lib, lib.dumpNotes(notes), password, salt, nonce);
  }

  /** Loading a saved vault under a password whose key the tag check
      rejects gives the empty list and the failure flag. */
  lemma VaultRejectsOtherPassword(lib: Library, notes: seq<Note>, password: string, other: string,
                                  salt: Bytes, nonce: Bytes)
    requires Sound(lib)
    requires |salt| == SaltLength && |nonce| == NonceLength
    requires TagRejects(lib, lib.dumpNotes(notes), password, other, salt, nonce)
    ensures ReadVault(lib, Some(VaultBlob(lib, notes, password, salt, nonce)), other) == ([], false)
  {
    DecryptRejectsOtherPassword(lib, lib.dumpNotes(notes), password, other, salt, nonce);
  }

  /** A vault file that is not base64, or that decodes to fewer bytes than
      salt, nonce and tag take, loads as a failure under every password. */
  lemma CorruptVaultFailsToLoad(lib: Library, blob: string, password: string)
    requires Sound(lib)
    requires lib.b64DecodeUtf8(blob).None?
          || |lib.b64DecodeUtf8(blob).value| < SaltLength + NonceLength + TagLength
    ensures ReadVault(lib, Some(blob), password) == ([], false)
  {
    assert DecryptData(lib, blob, password) == None;
  }

  /** `if decrypted:` treats a blob that decrypts to the empty string as a
      failed load, although it decrypted. */
  lemma EmptyPlaintextIsFailedLoad(lib: Library, password: string, salt: Bytes, nonce: Bytes)
    requires Sound(lib)
    requires |salt| == SaltLength && |nonce| == NonceLength
    ensures ReadVault(lib, Some(Encrypt(lib, "", password, salt, nonce)), password) == ([], false)
  {
    DecryptDataInvertsEncrypt(lib, "", password, salt, nonce);
  }

  datatype FileKind = SettingsFile | VaultFile

  /** The working directory's two files. `writes` records, in order, every
      whole-file overwrite, so that the order of writes can be stated. */
  class Disk {
    const lib: Library
    var settingsFile: Option<string>
    var vaultFile: Option<string>
    ghost var writes: seq<FileKind>

    constructor(lib: Library, settingsFile: Option<string>, vaultFile: Option<string>)
      ensures this.lib == lib && this.settingsFile == settingsFile && this.vaultFile == vaultFile
      ensures writes == []
    {
      this.lib := lib;
      this.settingsFile := settingsFile;
      this.vaultFile := vaultFile;
      writes := [];
    }

    /** save_settings: overwrite the settings file with the JSON of `s`. */
    method SaveSettings(s: Settings)
      modifies this
      ensures settingsFile == Some(lib.dumpSettings(s)) && vaultFile == old(vaultFile)
      ensures writes == old(writes) + [SettingsFile]
    {
      settingsFile := Some(lib.dumpSettings(s));
      writes := writes + [SettingsFile];
    }

    /** load_settings, with `random` the bytes for a fresh device key. */
    method LoadSettings(random: Bytes) returns (s: Settings)
      requires Sound(lib)
      requires |random| == KeyLength
      modifies this
      ensures s == LoadedSettings(lib, old(settingsFile), random)
      ensures settingsFile == SettingsFileAfterLoad(lib, old(settingsFile), random)
      ensures vaultFile == old(vaultFile)
      ensures writes == old(writes) + if BootstrapWrites(lib, old(settingsFile)) then [SettingsFile] else []
    {
      if settingsFile.None? {
        var deviceKey := GenerateDeviceKey(lib, random);
        s := Settings(false, None, Some(deviceKey));
        SaveSettings(s);
        return;
      }
      var parsed := lib.parseSettings(settingsFile.value);
      if parsed.None? {
        var deviceKey := GenerateDeviceKey(lib, random);
        s := Settings(false, None, Some(deviceKey));
        return;
      }
      s := parsed.value;
      if s.deviceKey.None? {
        s := s.(deviceKey := Some(GenerateDeviceKey(lib, random)));
        SaveSettings(s);
      }
    }

    /** load_vault(password). */
    method LoadVault(password: string) returns (notes: seq<Note>, success: bool)
      requires Sound(lib)
      ensures (notes, success) == ReadVault(lib, vaultFile, password)
    {
      if vaultFile.None? {
        return [], true;
      }
      var decrypted := DecryptData(lib, vaultFile.value, password);
      if decrypted.Some? && decrypted.value != "" {
        var parsed := lib.parseNotes(decrypted.value);
        if parsed.Some? {
          return parsed.value, true;
        }
      }
      return [], false;
    }

    /** save_vault(notes, password), with `salt` and `nonce` the urandom draws. */
    method SaveVault(notes: seq<Note>, password: string, salt: Bytes, nonce: Bytes)
      requires Sound(lib)
      requires |salt| == SaltLength && |nonce| == NonceLength
      modifies this
      ensures vaultFile == Some(VaultBlob(lib, notes, password, salt, nonce))
      ensures settingsFile == old(settingsFile)
      ensures writes == old(writes) + [VaultFile]
    {
      var data := lib.dumpNotes(notes);
      var encrypted := Encrypt(lib, data, password, salt, nonce);
      vaultFile := Some(encrypted);
      writes := writes + [VaultFile];
    }
  }
}
