/** The records VaultNote keeps in its two files and in memory. */
module Records {
  import opened Wrappers

  /** One document of the vault (a dict with keys title, content, locked,
      pin_hash, timestamp). `timestamp` is `None` when the key is absent,
      which `export_document` reads with a default. */
  datatype Note = Note(
    title: string,
    content: string,
    locked: bool,
    pinHash: Option<string>,
    timestamp: Option<string>)

  /** The settings file (keys vault_locked, vault_pin_hash, device_key).
      `deviceKey` is `None` for a file written without that key. */
  datatype Settings = Settings(
    vaultLocked: bool,
    vaultPinHash: Option<string>,
    deviceKey: Option<string>)

  /** The payload of an exported `.venc` document. */
  datatype ExportRecord = ExportRecord(title: string, content: string, timestamp: string)
}
