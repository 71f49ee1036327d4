# VaultNote: vault storage and access control in Dafny

VaultNote is a Kivy note-keeping app. It keeps its notes as one JSON list,
encrypted with AES-256-GCM under a key derived by PBKDF2, in `vault_data.enc`.
A small JSON settings file, `vault_settings.json`, holds:

- the device key, the password used while no vault PIN is set;
- whether the vault is PIN-locked;
- the SHA-256 hex digest of the vault PIN.

A note may carry its own PIN hash.

This project models that logic:

- `Encryption` models the stand-alone `EncryptionManager` of `encryption.py`.
  - Blob framing is `salt(16) ‖ nonce(12) ‖ ciphertext`, then base64.
  - Decryption slices the blob as Python does and raises on every failure.
  - Also modelled: `hash_pin` and `generate_device_key`.
- `Storage` models the first part of `main.py`.
  - Its `decrypt_data` turns every failure into `None`.
  - Also modelled: `load_settings`, `save_settings`, `load_vault` and `save_vault`.
  - The two files are `Option<string>` fields of a `Disk` object, with `None` for a missing file. `Disk` also keeps a ghost log of the order of its writes.
- `Text` models `str.strip()` and `str.replace(' ', '_')`.
- `Session` holds pure specifications of the screen logic:
  - building a note;
  - replacing or appending it in the list;
  - deleting at an index;
  - the unlock decision and routing;
  - the vault re-key that follows a PIN change;
  - the export file name and record.
- `Screens` holds classes whose fields change in place, proved against the `Session` functions:
  - the screen manager, `Manager`;
  - `UnlockScreen`;
  - `VaultScreen`, which holds `notes` and `selectedIndex`.
  - `Build` models `VaultApp.build`.

The foreign libraries appear as the fields of a `Library` value:

- PBKDF2-HMAC-SHA256, AES-GCM seal and open, and SHA-256 `hexdigest`;
- UTF-8, base64, and JSON for the three kinds of record.

The predicate `Sound(lib)` states what the code relies on from these libraries:

- seal adds a 16-byte tag, and open under the same key and nonce inverts it;
- a ciphertext shorter than the tag is rejected;
- the hexdigest is 64 lower-case hex characters;
- base64 (decoding the text, or the UTF-8 bytes of the text), UTF-8 and JSON round-trip;
- base64 of `n` bytes has `4 * ceil(n / 3)` characters (section 4 of RFC 4648);
- `json.dumps` of a list of notes is never the empty string, so a saved vault passes the `if decrypted:` test.

`Reference` builds one concrete `Library` (constant key derivation and hash,
a zero tag, simple self-delimiting codecs) and proves that it is `Sound`, so
these assumptions are consistent. That the tag check rejects a ciphertext
opened under another password's key is not part of `Sound`: AES-GCM is not
key-committing. The lemmas that need it take it, for the one blob concerned,
as the premise `TagRejects`.

Other inputs are parameters:

- the random bytes from `os.urandom`;
- the time from `datetime.now()`;
- what the user types into a prompt or a text field.

## Model

| member | source | states |
|---|---|---|
| Encryption.DeriveKey | encryption.py:17-25 | the derived key is always 32 bytes, and is a function of password and salt |
| Encryption.Pack | encryption.py:30-38 | the packed blob is 16 + 12 + the ciphertext length long, and slicing it at 16 and 28 returns exactly the salt, nonce and ciphertext that were packed |
| Encryption.Split | encryption.py:45-47 | the three slices concatenate back to the raw bytes; the salt slice is 16 bytes or the whole of a shorter blob, and the nonce slice is 12 bytes, or what is left after 16, or empty |
| Encryption.Encrypt | encryption.py:28-38 | the blob is base64 that both decoders accept; it decodes to 16 + 12 + the UTF-8 length + 16 bytes, whose first two slices are the salt and nonce drawn |
| Encryption.DecryptRaw | encryption.py:44-53 | fewer than 24 raw bytes raise the nonce ValueError; success needs at least 44 bytes, and happens exactly when the tag check under the key derived from the stored salt passes and the plaintext is UTF-8 |
| Encryption.Decrypt | encryption.py:41-53 | a blob that is not base64 raises the base64 error and only such a blob does; a blob that decrypts holds at least 44 bytes |
| Encryption.HashPin | encryption.py:56-58 | a PIN hash is always a 64-character lower-case hex digest |
| Encryption.GenerateDeviceKey | encryption.py:61-63 | a device key from 32 random bytes is 44 characters long |
| Encryption.DecryptInvertsEncrypt | encryption.py:28-53 | decrypting under the encrypting password returns the original text |
| Encryption.DecryptRejectsOtherPassword | encryption.py:41-53 | under a password whose key the tag check rejects, decrypt raises the authentication error and returns no text |
| Encryption.DecryptRejectsShortBlob | encryption.py:43-52 | a blob that decodes to fewer than 24 bytes raises the nonce ValueError, and one of 24 to 43 bytes the authentication error, under every password |
| Encryption.ReencryptPreservesData | test_encryption_standalone.py:71-90 | decrypting under the old password, re-encrypting under a new one and decrypting under the new one gives back the original data |
| Encryption.FreshRandomnessGivesFreshBlob | encryption.py:30-38 | a different salt or nonce gives a different blob for the same data and password |
| Encryption.HashPinIsNotThePin | test_encryption_standalone.py:35-43 | the hash of a PIN whose length is not 64 differs from the PIN |
| Encryption.DeviceKeysDiffer | test_encryption_standalone.py:46-53 | device keys from different random bytes differ, and are never empty |
| Storage.DecryptData | main.py:47-58 | text whose UTF-8 bytes are not base64 gives `None`; the result is text exactly when the decoded bytes decrypt as in `DecryptRaw`, and then they are at least 44 bytes |
| Storage.DecryptDataInvertsEncrypt | main.py:37-56 | decrypt_data of encrypt_data under the same password returns the data |
| Storage.DecryptDataFailsClosed | main.py:47-58 | decrypt_data returns `None` instead of raising in three cases: a password whose key the tag check rejects, a blob that is not base64, and a blob that is too short |
| Storage.LoadedSettings | main.py:87-106 | a missing or unreadable file gives the defaults (unlocked, no PIN hash, a fresh key). A readable file keeps its lock flag and PIN hash, keeps its device key when it has one, and gets the key generated from the random bytes when it has no `device_key` key. A present but null `device_key` cannot be represented (see "## Left out") |
| Storage.BootstrapPersistsWhatItReturns | main.py:87-106 | a missing file is always created. Whatever load_settings writes parses back to the settings it returned. An unreadable file is left as it was |
| Storage.BootstrapStable | main.py:87-106 | a second load_settings after a missing or readable file writes nothing and returns the same settings, whatever random bytes it is given |
| Storage.ReadVault | main.py:112-123 | a missing vault file loads as an empty list with success. An existing file loads with success exactly when it decrypts to non-empty text that parses as a list of notes, and then the list is the parsed one; every failed load gives the empty list |
| Storage.CorruptVaultFailsToLoad | main.py:112-123 | a vault file that is not base64, or decodes to fewer than 44 bytes, loads as `([], False)` under every password |
| Storage.VaultBlob | main.py:125-129 | the text save_vault writes decrypts, under the same password, to the JSON of the list |
| Storage.VaultRoundTrip | main.py:112-129 | loading what save_vault wrote, under the same password, gives back exactly the saved list, with success |
| Storage.VaultRejectsOtherPassword | main.py:112-123 | loading under a password whose key the tag check rejects gives `([], False)` |
| Storage.EmptyPlaintextIsFailedLoad | main.py:118-121 | a vault that decrypts to the empty string counts as a failed load |
| Storage.Disk.SaveSettings | main.py:108-110 | the settings file becomes the JSON of the record, the vault file is untouched, and one settings write is logged |
| Storage.Disk.LoadSettings | main.py:87-106 | returns `LoadedSettings` of the old file. The file becomes `SettingsFileAfterLoad`. A settings write is logged exactly when the file was missing or had no device key |
| Storage.Disk.LoadVault | main.py:112-123 | returns `ReadVault` of the current vault file |
| Storage.Disk.SaveVault | main.py:125-129 | the vault file becomes the encrypted JSON of the list, the settings file is untouched, and one vault write is logged |
| Text.TrimStart | main.py:264-266 | the result is a suffix of the input, everything removed is whitespace, and it does not start with whitespace |
| Text.TrimEnd | main.py:264-266 | the result is a prefix of the input, everything removed is whitespace, and it does not end with whitespace |
| Text.Strip | main.py:264-266 | `strip()` is never longer than its input and does not end with whitespace; the lemmas below state the rest |
| Text.StripIsTrimmedSlice | main.py:264-266 | `strip()` returns a contiguous slice of its input |
| Text.StripHasNoOuterSpace | main.py:264-266 | `strip()` leaves no whitespace at either end |
| Text.StripEmptyIffAllSpace | main.py:264-270 | `strip()` is empty exactly when the input is all whitespace, so a blank title or content is rejected |
| Text.StripIdempotent | main.py:264-266 | stripping twice is stripping once |
| Text.ReplaceSpaces | main.py:386 | same length, every space becomes `_`, every other character is kept |
| Session.CanOpen | main.py:244-254 | an unlocked note opens with any PIN; a locked note with no stored hash, or a stored value that is not a hex digest, opens with none |
| Session.MakeNote | main.py:263-280 | a built note carries the current time, and has a PIN hash exactly when it is locked |
| Session.MakeNoteSpec | main.py:263-280 | save_note rejects input exactly when the stripped title or content is empty. Otherwise the note holds the stripped texts and the time. It is locked exactly when the stripped PIN is non-empty, and then stores that PIN's hash; an unlocked note has no hash |
| Session.SavedNoteGate | main.py:244-254 | a saved note opens with its stripped PIN, and a locked one refuses any PIN whose hash differs |
| Session.PlaceNote | main.py:282-285 | with nothing selected the note is appended. With an index selected, that entry is overwritten and the others are kept, at the same length. The result is `None` (IndexError) exactly when the index is past the end |
| Session.RemoveAt | main.py:293-295 | one shorter; the entries before and after the index keep their order; the multiset loses exactly the removed note |
| Session.DeleteThenSaveOverwritesNext | main.py:282-300 | delete keeps the selected index, so the next save overwrites the note that followed the deleted one |
| Session.DeleteLastThenSaveRaises | main.py:282-300 | after deleting the last note, the next save raises IndexError |
| Session.UnlockDecision | main.py:154-166 | an unlocked vault grants the device key. A locked vault grants the entered PIN exactly when its hash matches the stored one, and refuses otherwise |
| Session.Route | main.py:454-466 | the unlock screen is shown first exactly when the vault is locked |
| Session.PinSettings | main.py:418-430 | the device key is kept, a PIN hash is stored exactly when the vault is locked, and an unlocked vault's password is the device key |
| Session.Rekey | main.py:417-438 | the device key is kept, the vault is locked exactly when a PIN hash is stored, and an unlocked vault's password is the device key |
| Session.RekeySpec | main.py:417-438 | a non-empty new PIN locks the vault, stores the PIN's hash and makes the PIN the password. An empty one unlocks and makes the device key the password. The device key is kept. The vault is re-saved under the new password only if the old one loaded it; otherwise the file and the list are unchanged |
| Session.RekeyPreservesContent | main.py:432-437 | when the old password loads the vault, the new password loads exactly the same list after the rekey |
| Session.RekeyAfterFailedLoadOrphansVault | main.py:432-438 | when the load fails, the vault file is kept but the new password is committed. The vault then fails to load under that password whenever the tag check rejects its key |
| Session.RestartAfterRekey | main.py:417-438 | after a rekey, a restart reads the written settings back unchanged and without a write. It routes to the unlock screen exactly when a PIN was set, and unlocking with that PIN gives the new password |
| Session.RekeyAll | main.py:417-438 | any sequence of rekeys keeps the device key |
| Session.RekeyAllPreservesContent | main.py:417-438 | after any sequence of PIN changes on a vault that loads, the last password still loads exactly the original list |
| Session.ExportFilename | main.py:386 | the name is the title with spaces turned into `_`, then `.venc`, and has no space in the title part |
| Session.ExportRecordOf | main.py:375-379 | the record holds the note's title and content, and its timestamp or else the current time |
| Session.ExportBlob | main.py:375-384 | the export text decrypts, under the export PIN, to the JSON of the export record |
| Session.ExportRoundTrip | main.py:375-384 | decrypting an export with its PIN and parsing it gives back exactly the export record |
| Screens.UnlockScreen.constructor | main.py:132-134 | the screen holds `load_settings`' result, with the file and write log updated as `Disk.LoadSettings` says |
| Screens.UnlockScreen.UnlockVault | main.py:154-166 | access is granted exactly when `UnlockDecision` grants it; then the password and the vault screen are set, and on refusal the manager is unchanged |
| Screens.VaultScreen.constructor | main.py:169-172 | the list starts empty and nothing is selected |
| Screens.VaultScreen.OnEnter | main.py:218-232 | with no session password, the device key is loaded and becomes the password. The list is what `load_vault` returns, empty on failure. A successful load leaves the list equal to the file's contents |
| Screens.VaultScreen.SelectNote | main.py:244-261 | a note is loaded and selected exactly when it exists and `CanOpen` holds; otherwise the selection is unchanged. A stale index raises IndexError, and an existing note that `CanOpen` refuses gives `Rejected` (the "Access Denied" popup) |
| Screens.VaultScreen.LoadNote | main.py:256-261 | selects the index and returns that note's title and content |
| Screens.VaultScreen.SaveNote | main.py:263-291 | blank input is rejected, and only blank input; a stale index raises, and only a stale index; every other save succeeds. After a rejection or a raise nothing changes. Otherwise the list becomes `PlaceNote` of the built note, the vault file holds it under the session password, exactly one vault write is logged, and the file loads back as the list. The selection is unchanged |
| Screens.VaultScreen.Store | main.py:287-288 | the vault file holds the list under the session password and loads back as exactly that list |
| Screens.VaultScreen.Resave | main.py:432-437 | when the old password loads the vault, the list becomes the loaded notes and the vault file holds them under the new password, with one vault write; otherwise nothing changes. After success the file loads back as the list |
| Screens.VaultScreen.DeleteNote | main.py:293-300 | with nothing selected, nothing happens; a stale index raises. Otherwise the list becomes `RemoveAt` of the selected index, is saved and loads back. The selection is kept |
| Screens.VaultScreen.NewNote | main.py:302-304 | nothing is selected afterwards |
| Screens.VaultScreen.ExportDocument | main.py:366-394 | no selection or a stale index gives no export. Otherwise the file name is `ExportFilename` of the title and the text is the export record encrypted under the export PIN |
| Screens.VaultScreen.ChangeVaultPin | main.py:396-438 | the new settings file, vault file, session password and list are exactly those of `Rekey` on the settings loaded when the dialog opened. The write order is the bootstrap write if any, then the vault write only if the old load succeeded, then the settings write. After a successful load the list is persisted under the new password |
| Reference.ReferenceLibraryIsSound | encryption.py:17-63 | the library calls made here can all be met at once: a concrete library satisfies every assumption the model makes of PBKDF2, AES-GCM, SHA-256, UTF-8, base64 and JSON |
| Screens.Build | main.py:453-468 | the session password is the device key and the first screen is `Route` of the loaded settings. The unlock screen holds the settings of a second load, a settings write is logged for each load that writes, the vault file is untouched, and the vault screen starts empty |

## Left out

- The Kivy interface is not modelled: widgets, layouts, popups, the PIN prompt dialogs, and the note-list labels of `refresh_note_list` (main.py:63-85, 234-242). Prompt and field texts are parameters.
- `clear_inputs` (main.py:306-309) only clears text fields and is not modelled.
- File import is not modelled: `import_file` and `process_import` (main.py:311-364) use file choosers, PyPDF2 and python-docx, and only fill two text fields.
- The internals of PBKDF2 (section 5.2 of RFC 8018), AES-256-GCM (NIST SP 800-38D), SHA-256 (FIPS 180-4), base64 and JSON are not modelled. They are the `Library` functions, constrained only by `Sound`.
  - `Reference.ReferenceLibrary` is a witness for consistency only, not a model of the real algorithms.
- Encryption.DecryptRejectsOtherPassword: rejection is proved for a password whose key the tag check rejects on that blob (`TagRejects`), not for every other password. AES-GCM is not key-committing and PBKDF2 with a 32-byte output is not injective, so neither promises rejection for every pair of passwords. The same premise appears in Session.RekeyAfterFailedLoadOrphansVault.
- Storage.DecryptDataFailsClosed: the other-password case is proved only under the premise `TagRejects` for that blob, for the same reason; the non-base64 and short-blob cases hold outright.
- Storage.VaultRejectsOtherPassword: a saved vault is proved to fail to load under another password only under the premise `TagRejects` for that blob, for the same reason.
- Storage.DecryptData: `main.py` decodes the UTF-8 bytes of the text, which discards bytes outside the base64 alphabet, while `encryption.py` decodes the text itself, which raises on a non-ASCII character. The two decoders are separate `Library` functions, related only by their round trip on `b64Encode` output.
- Storage.LoadedSettings: the JSON parser is abstract.
  - A settings file whose JSON is not a settings object counts as unreadable.
  - Keys other than the three known ones are not kept.
  - A missing `vault_locked` reads as `False`, as `settings.get("vault_locked")` does.
- Storage.LoadedSettings: main.py:100 tests only whether the `device_key` key is present. A file holding `"device_key": null` (or a non-string value) is kept as it is, so the session password becomes None and the first `save_note` crashes on `None.encode()` (main.py:34) without overwriting the vault. `Settings.deviceKey` has no way to tell a present null from an absent key, so the model treats such a file as keyless and repairs it with a generated key.
- Storage.ReadVault: `json.loads` of a vault that is valid JSON but not a list of notes returns that value with success at main.py:120. The model's `parseNotes` returns only lists of notes, so such a vault counts as a failed load.
- I/O errors are not modelled. A `save_settings` or `save_vault` write that fails, and the exceptions it would raise, are outside the model; reads fail only through decoding.
- A failed `load_settings` inside `on_enter` or the settings dialog is modelled. The time at which Kivy fires `on_enter`, and the other screen-manager events, are not.
- Export writes the `.venc` file into the working directory. `ExportDocument` returns the file name and text rather than modelling that third file; a write failure shown as "Export Error" is not modelled.
- In the source, the IndexError raised by a stale `selected_index` or a stale list button is an uncaught exception. The model returns it as the `IndexError` outcome, with no state change. That matches the source, because the exception is raised before anything is changed.
- The rekey does not abort when the old password fails to load the vault. The code commits the new settings and password anyway, and the model follows the code. `Session.RekeyAfterFailedLoadOrphansVault` states the consequence.
- A malformed or truncated blob gets no separate format check. After Python's clamped slicing, fewer than 24 bytes leave a nonce shorter than 8 bytes, which AESGCM refuses with ValueError (`NonceRejected`). From 24 to 43 bytes the ciphertext is shorter than the tag and the tag check fails (`AeadRejected`). A nonce longer than 128 bytes, which AESGCM also refuses, cannot come out of the 12-byte slice.
