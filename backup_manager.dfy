/**
 * The settings backup container of `BackupManager`: a 4-byte magic word whose low
 * byte is the format version, then the alias table as `GroupAlias::saveAliases`
 * writes it, then the settings blob as `Settings::serialize` writes it, with no
 * length prefix. `RestoreBackup` reads such a container back into the settings
 * object and the file system.
 */
module Backup {
  import opened Common
  import opened Streams

  const SETTINGS_BACKUP_VERSION: bv8 := 1
  const SETTINGS_MAGIC_HEADER: bv32 := 0x92A7C300 | SETTINGS_BACKUP_VERSION as bv32

  /** The mask the restore path applies to read the format tag ... */
  const FORMAT_MASK: bv32 := 0xFFFFFF00
  /** ... and the one for the version byte. */
  const VERSION_MASK: bv32 := 0xFF

  /** `sizeof(SETTINGS_MAGIC_HEADER)`. */
  const HEADER_SIZE: nat := 4
  /** Capacity of the write buffer in front of the settings file during a restore. */
  const RESTORE_BUFFER_SIZE: nat := 128

  datatype RestoreStatus = OK | INVALID_FILE

  /** The files the core names: `SETTINGS_FILE`, `ALIASES_FILE`, `BACKUP_FILE`, and any other. */
  datatype Path = SettingsFile | AliasesFile | BackupFile | OtherFile(name: string)

  /** The flash file system: path to contents. */
  type Files = map<Path, seq<bv8>>

  datatype BulbId = BulbId(deviceId: nat, groupId: nat, deviceType: nat)
  datatype GroupAlias = GroupAlias(id: nat, bulbId: BulbId)

  /** `Settings::groupIdAliases`: alias name to the bulb group it stands for. */
  type AliasTable = map<string, GroupAlias>

  /** The settings' own fields (everything but the alias table), by name. */
  type Fields = map<string, string>

  /** The value of a `Settings` object. */
  datatype SettingsValue = SettingsValue(groupIdAliases: AliasTable, fields: Fields)

  /** What an alias load yields: the entries read and the number of stream bytes it consumed. */
  datatype AliasLoad = AliasLoad(table: AliasTable, consumed: nat)

  /**
   * The collaborators whose code is not part of this model, as functions:
   * `GroupAlias::saveAliases` / `loadAliases`, `Settings::serialize`, the parser
   * `Settings::load` runs on the settings file, and the defaults `Settings()` starts from.
   */
  datatype Collaborators = Collaborators(
    saveAliases: AliasTable -> seq<bv8>,
    loadAliases: seq<bv8> -> AliasLoad,
    serialize: Fields -> seq<bv8>,
    parse: seq<bv8> -> Fields,
    defaults: Fields)
  {
    /** A loader never consumes more bytes than it is given. */
    ghost predicate LoaderInBounds()
    {
      forall s :: loadAliases(s).consumed <= |s|
    }

    /**
     * On `table`, followed by any bytes `rest`, the loader reads back what the saver
     * wrote, which ends in one null byte that the loader leaves in the stream.
     */
    predicate AliasRoundTrip(table: AliasTable, rest: seq<bv8>)
    {
      var written := saveAliases(table);
      && |written| > 0
      && written[|written| - 1] == 0
      && loadAliases(written + rest) == AliasLoad(table, |written| - 1)
    }

    ghost predicate AliasesInvertible()
    {
      forall table, rest :: AliasRoundTrip(table, rest)
    }

    /** Parsing a serialized blob gives back the fields it was made from. */
    ghost predicate SettingsInvertible()
    {
      forall fields :: parse(serialize(fields)) == fields
    }
  }

  /** What `Settings()` constructs: default fields and no aliases. */
  function Defaults(c: Collaborators): SettingsValue
  {
    SettingsValue(map[], c.defaults)
  }

  /** The files after `Settings::save`: the settings file and the aliases file rewritten. */
  function Persist(v: SettingsValue, files: Files, c: Collaborators): Files
  {
    files[SettingsFile := c.serialize(v.fields)][AliasesFile := c.saveAliases(v.groupIdAliases)]
  }

  /** The settings after `Settings::load`: fields parsed from the settings file, when there is one. */
  function Reload(v: SettingsValue, files: Files, c: Collaborators): SettingsValue
  {
    if SettingsFile in files then v.(fields := c.parse(files[SettingsFile])) else v
  }

  // ---------------------------------------------------------------------------
  // The header word
  // ---------------------------------------------------------------------------

  function ByteAt(bytes: seq<bv8>, i: nat): bv32
  {
    if i < |bytes| then bytes[i] as bv32 else 0
  }

  /**
   * The word `readBytes` leaves in `magicHeader` (which starts at 0) after reading
   * `bytes` into its storage on a little-endian core: byte i lands in bits 8i..8i+7,
   * and the bytes not read stay 0.
   */
  function WordOf(bytes: seq<bv8>): bv32
    requires |bytes| <= HEADER_SIZE
  {
    ByteAt(bytes, 0) | (ByteAt(bytes, 1) << 8) | (ByteAt(bytes, 2) << 16) | (ByteAt(bytes, 3) << 24)
  }

  /** The 4 bytes `stream.write(&word, 4)` sends on a little-endian core. */
  function HeaderBytes(w: bv32): (bytes: seq<bv8>)
    ensures |bytes| == HEADER_SIZE
    ensures WordOf(bytes) == w
  {
    [(w & 0xFF) as bv8, ((w >> 8) & 0xFF) as bv8, ((w >> 16) & 0xFF) as bv8, ((w >> 24) & 0xFF) as bv8]
  }

  /** The two values the restore path logs: the format tag and the version byte. */
  function SplitHeader(w: bv32): (r: (bv32, bv8))
    ensures r.0 | (r.1 as bv32) == w
    ensures r.0 & VERSION_MASK == 0
    ensures r.1 as bv32 & FORMAT_MASK == 0
  {
    (w & FORMAT_MASK, (w & VERSION_MASK) as bv8)
  }

  /** The magic word is 0x92A7C301: format tag 0x92A7C3 over version 1, sent as 01 C3 A7 92. */
  lemma MagicHeaderLayout()
    ensures SETTINGS_MAGIC_HEADER == 0x92A7C301
    ensures SETTINGS_MAGIC_HEADER >> 8 == 0x92A7C3
    ensures SplitHeader(SETTINGS_MAGIC_HEADER) == (0x92A7C300, SETTINGS_BACKUP_VERSION)
    ensures SETTINGS_BACKUP_VERSION == 1
    ensures HeaderBytes(SETTINGS_MAGIC_HEADER) == [0x01, 0xC3, 0xA7, 0x92]
  {
  }

  // ---------------------------------------------------------------------------
  // createBackup
  // ---------------------------------------------------------------------------

  /** The container `createBackup` writes for settings `v`. */
  function BackupImage(v: SettingsValue, c: Collaborators): seq<bv8>
  {
    HeaderBytes(SETTINGS_MAGIC_HEADER) + c.saveAliases(v.groupIdAliases) + c.serialize(v.fields)
  }

  /** `BackupManager::createBackup`: header, alias table, settings blob, in that order. */
  method CreateBackup(settings: Settings, stream: WriteBufferingStream, c: Collaborators)
    requires stream.Valid()
    modifies stream, stream.buffer
    ensures stream.Valid()
    ensures stream.Written() == old(stream.Written()) + BackupImage(settings.Value(), c)
  {
    stream.WriteAll(HeaderBytes(SETTINGS_MAGIC_HEADER));
    stream.WriteAll(c.saveAliases(settings.groupIdAliases));
    stream.WriteAll(c.serialize(settings.fields));
  }

  /**
   * The container starts with exactly the four header bytes, which read back as
   * the magic word, and the alias section and the blob follow with nothing between.
   */
  lemma BackupLayout(v: SettingsValue, c: Collaborators)
    ensures var image := BackupImage(v, c);
      var aliases := c.saveAliases(v.groupIdAliases);
      && |image| == HEADER_SIZE + |aliases| + |c.serialize(v.fields)|
      && WordOf(image[..HEADER_SIZE]) == SETTINGS_MAGIC_HEADER
      && image[HEADER_SIZE..HEADER_SIZE + |aliases|] == aliases
      && image[HEADER_SIZE + |aliases|..] == c.serialize(v.fields)
  {
    var aliases := c.saveAliases(v.groupIdAliases);
    var image := BackupImage(v, c);
    assert image[..HEADER_SIZE] == HeaderBytes(SETTINGS_MAGIC_HEADER);
    assert image[HEADER_SIZE..] == aliases + c.serialize(v.fields);
  }

  // ---------------------------------------------------------------------------
  // restoreBackup
  // ---------------------------------------------------------------------------

  /** All a restore leaves behind. `copied` is what went into the settings file before the reload. */
  datatype RestoreOutcome = RestoreOutcome(
    status: RestoreStatus,
    settings: SettingsValue,
    files: Files,
    rest: seq<bv8>,
    header: bv32,
    copied: Option<seq<bv8>>)

  /** The input after the header read: at most four bytes are taken. */
  function AfterHeader(input: seq<bv8>): seq<bv8>
  {
    input[Min(HEADER_SIZE, |input|)..]
  }

  /** `stream.read()` of the terminator: one byte, if there is one. */
  function DropOne(s: seq<bv8>): seq<bv8>
  {
    if s == [] then [] else s[1..]
  }

  /** The state after the first phase of a restore, up to and including saving the aliases. */
  datatype AliasPhase = AliasPhase(header: bv32, restored: SettingsValue, saved: Files, blob: seq<bv8>)

  /**
   * Phase one of `restoreBackup` on the stream contents `input`: read the header,
   * reset the settings, load the aliases, drop the terminator, save.
   */
  function RestoreAliases(files: Files, input: seq<bv8>, c: Collaborators): AliasPhase
    requires c.LoaderInBounds()
  {
    var afterHeader := AfterHeader(input);
    var loaded := c.loadAliases(afterHeader);
    var reset := Defaults(c);
    var restored := reset.(groupIdAliases := reset.groupIdAliases + loaded.table);
    AliasPhase(WordOf(input[..Min(HEADER_SIZE, |input|)]), restored, Persist(restored, files, c),
               DropOne(afterHeader[loaded.consumed..]))
  }

  /**
   * What `restoreBackup` does, given the stream contents `input` and whether the
   * settings file can be opened for writing. It does not depend on the settings
   * before the call: they are reset first.
   */
  function Restore(files: Files, input: seq<bv8>, c: Collaborators, openSucceeds: bool): RestoreOutcome
    requires c.LoaderInBounds()
  {
    var phase := RestoreAliases(files, input, c);
    if !openSucceeds then
      RestoreOutcome(INVALID_FILE, phase.restored, phase.saved, phase.blob, phase.header, None)
    else
      var copiedFiles := phase.saved[SettingsFile := phase.blob];
      var reloaded := Reload(phase.restored, copiedFiles, c);
      RestoreOutcome(OK, reloaded, Persist(reloaded, copiedFiles, c), [], phase.header, Some(phase.blob))
  }

  /** Writing a file twice leaves only the second contents. */
  lemma OverwriteTwice(files: Files, p: Path, first: seq<bv8>, second: seq<bv8>)
    ensures files[p := first][p := second] == files[p := second]
  {
  }

  /** Reloading right after the blob was copied into the settings file parses that blob. */
  lemma ReloadCopied(v: SettingsValue, files: Files, blob: seq<bv8>, c: Collaborators)
    ensures Reload(v, files[SettingsFile := blob], c) == v.(fields := c.parse(blob))
  {
  }

  /** `GroupAlias::loadAliases(stream, settings.groupIdAliases)`: entries added, bytes consumed. */
  method LoadAliases(stream: ReadStream, settings: Settings, c: Collaborators)
    requires stream.Valid() && c.LoaderInBounds()
    modifies stream, settings
    ensures stream.Valid()
    ensures var loaded := c.loadAliases(old(stream.Remaining()));
      && settings.Value() == old(settings.Value()).(groupIdAliases := old(settings.groupIdAliases) + loaded.table)
      && stream.Remaining() == old(stream.Remaining())[loaded.consumed..]
  {
    var loaded := c.loadAliases(stream.Remaining());
    settings.groupIdAliases := settings.groupIdAliases + loaded.table;
    stream.Skip(loaded.consumed);
  }

  /**
   * The copy loop of `restoreBackup`: every byte left in the stream goes through the
   * buffer, in order; the buffer never holds more than its capacity.
   */
  method CopyRemaining(stream: ReadStream, buffered: WriteBufferingStream)
    requires stream.Valid() && buffered.Valid()
    modifies stream, buffered, buffered.buffer
    ensures stream.Valid() && buffered.Valid()
    ensures buffered.Written() == old(buffered.Written()) + old(stream.Remaining())
    ensures stream.Remaining() == []
  {
    while stream.Available() > 0
      invariant stream.Valid() && buffered.Valid()
      invariant buffered.Written() + stream.Remaining() == old(buffered.Written()) + old(stream.Remaining())
      decreases stream.Available()
    {
      var next := stream.Read();
      buffered.Write(next as bv8);
    }
  }

  /**
   * The bytes left in the stream go through a 128-byte write buffer into the
   * settings file, which has just been opened for writing; then the buffer is
   * flushed and the file closed.
   */
  method CopyIntoSettingsFile(stream: ReadStream, fs: FileSystem)
    requires stream.Valid()
    modifies stream, fs
    ensures stream.Valid() && stream.Remaining() == []
    ensures fs.files == old(fs.files)[SettingsFile := old(stream.Remaining())]
  {
    ghost var blob := stream.Remaining();
    var buffered := new WriteBufferingStream(RESTORE_BUFFER_SIZE);
    CopyRemaining(stream, buffered);
    buffered.Flush();
    assert buffered.target == blob;
    fs.Close(SettingsFile, buffered.target);
  }

  /** `BackupManager::restoreBackup`. */
  method RestoreBackup(settings: Settings, stream: ReadStream, fs: FileSystem, c: Collaborators, openSucceeds: bool)
    returns (status: RestoreStatus, magicHeader: bv32, ghost copied: Option<seq<bv8>>)
    requires stream.Valid() && c.LoaderInBounds()
    modifies settings, stream, fs
    ensures stream.Valid()
    ensures RestoreOutcome(status, settings.Value(), fs.files, stream.Remaining(), magicHeader, copied)
         == Restore(old(fs.files), old(stream.Remaining()), c, openSucceeds)
  {
    ghost var input := stream.Remaining();
    ghost var files := fs.files;
    var headerBytes := stream.ReadBytes(HEADER_SIZE);
    magicHeader := WordOf(headerBytes);
    // the format tag and the version are only logged
    var tagAndVersion := SplitHeader(magicHeader);

    settings.ResetToDefaults(c);
    LoadAliases(stream, settings, c);
    var terminator := stream.Read();
    // persist the aliases
    settings.Save(fs, c);
    ghost var phase := RestoreAliases(files, input, c);
    ghost var restored := settings.Value();
    ghost var blob := stream.Remaining();
    assert AliasPhase(magicHeader, restored, fs.files, blob) == phase;

    var isOpen := fs.OpenForWrite(SettingsFile, openSucceeds);
    if !isOpen {
      status, copied := INVALID_FILE, None;
      return;
    }
    CopyIntoSettingsFile(stream, fs);
    copied := Some(blob);
    OverwriteTwice(phase.saved, SettingsFile, [], blob);
    ghost var copiedFiles := fs.files;
    assert copiedFiles == phase.saved[SettingsFile := blob];

    assert settings.Value() == restored;
    settings.Load(fs, c);
    ghost var reloaded := settings.Value();
    ReloadCopied(restored, phase.saved, blob, c);
    assert reloaded == restored.(fields := c.parse(blob));
    settings.Save(fs, c);
    assert fs.files == Persist(reloaded, copiedFiles, c);
    status := OK;
  }

  // ---------------------------------------------------------------------------
  // What a restore guarantees
  // ---------------------------------------------------------------------------

  /**
   * Phase one on a backup of `v`: the header is the magic word, the aliases are
   * `v`'s, and what is left after the terminator is exactly `v`'s settings blob.
   */
  lemma RestoreAliasesOfBackup(files: Files, v: SettingsValue, c: Collaborators)
    requires c.LoaderInBounds() && c.AliasesInvertible()
    ensures var restored := v.(fields := c.defaults);
      RestoreAliases(files, BackupImage(v, c), c)
      == AliasPhase(SETTINGS_MAGIC_HEADER, restored, Persist(restored, files, c), c.serialize(v.fields))
  {
    var aliases := c.saveAliases(v.groupIdAliases);
    var blob := c.serialize(v.fields);
    var input := BackupImage(v, c);
    assert input[..HEADER_SIZE] == HeaderBytes(SETTINGS_MAGIC_HEADER);
    assert AfterHeader(input) == aliases + blob;
    assert c.AliasRoundTrip(v.groupIdAliases, blob);
    assert (aliases + blob)[|aliases| - 1..] == [0] + blob;
    assert DropOne([0] + blob) == blob;
    assert Defaults(c).groupIdAliases + v.groupIdAliases == v.groupIdAliases;
  }

  /**
   * Restoring a backup of `v` gives back `v` and rewrites the settings and aliases
   * files with `v`'s own serialisations; nothing else changes.
   */
  lemma RestoreInvertsBackup(files: Files, v: SettingsValue, c: Collaborators)
    requires c.LoaderInBounds() && c.AliasesInvertible() && c.SettingsInvertible()
    ensures var r := Restore(files, BackupImage(v, c), c, true);
      && r.status == OK
      && r.settings == v
      && r.header == SETTINGS_MAGIC_HEADER
      && r.copied == Some(c.serialize(v.fields))
      && r.rest == []
      && r.files == Persist(v, files, c)
  {
    var blob := c.serialize(v.fields);
    var restored := v.(fields := c.defaults);
    RestoreAliasesOfBackup(files, v, c);
    var saved := Persist(restored, files, c);
    ReloadCopied(restored, saved, blob, c);
    assert c.parse(blob) == v.fields;
    assert Persist(v, saved[SettingsFile := blob], c) == Persist(v, files, c);
  }

  /**
   * Whatever the input and whether or not the settings file opens, the alias table
   * afterwards is exactly what the loader read after the header (no earlier alias
   * survives), and the aliases file holds it.
   */
  lemma RestoreReplacesAliases(files: Files, input: seq<bv8>, c: Collaborators, openSucceeds: bool)
    requires c.LoaderInBounds()
    ensures var r := Restore(files, input, c, openSucceeds);
      var loaded := c.loadAliases(AfterHeader(input)).table;
      && r.settings.groupIdAliases == loaded
      && AliasesFile in r.files && r.files[AliasesFile] == c.saveAliases(loaded)
  {
    var loaded := c.loadAliases(AfterHeader(input)).table;
    assert map[] + loaded == loaded;
  }

  /**
   * When the settings file cannot be opened the result is INVALID_FILE, and what
   * was saved before stays: the alias file holds the restored aliases and the
   * settings file the DEFAULT settings; no other file changes.
   */
  lemma RestoreAfterOpenFailure(files: Files, input: seq<bv8>, c: Collaborators)
    requires c.LoaderInBounds()
    ensures var r := Restore(files, input, c, false);
      && r.status == INVALID_FILE
      && r.copied == None
      && r.settings.fields == c.defaults
      && r.files == Persist(r.settings, files, c)
      && r.files[SettingsFile] == c.serialize(c.defaults)
  {
  }

  /**
   * The header takes exactly four bytes and the terminator exactly one: when the
   * loader stops in front of a terminator byte `t`, what is copied into the
   * settings file (or left in the stream, if it does not open) is exactly `tail`.
   */
  lemma RestoreConsumesHeaderAndTerminator(files: Files, header: seq<bv8>, aliases: seq<bv8>, t: bv8,
                                           tail: seq<bv8>, c: Collaborators, openSucceeds: bool)
    requires c.LoaderInBounds() && |header| == HEADER_SIZE
    requires c.loadAliases(aliases + [t] + tail).consumed == |aliases|
    ensures var r := Restore(files, header + aliases + [t] + tail, c, openSucceeds);
      && r.header == WordOf(header)
      && (openSucceeds ==> r.copied == Some(tail) && r.settings.fields == c.parse(tail)
                           && r.files[SettingsFile] == c.serialize(c.parse(tail)))
      && (!openSucceeds ==> r.rest == tail)
  {
    var input := header + aliases + [t] + tail;
    assert input[..HEADER_SIZE] == header;
    assert AfterHeader(input) == aliases + [t] + tail;
    assert (aliases + [t] + tail)[|aliases|..] == [t] + tail;
  }

  /**
   * The header never changes what a restore does: two inputs that differ only in
   * their first four bytes restore the same way, whatever those bytes are.
   */
  lemma RestoreIgnoresHeader(files: Files, h1: seq<bv8>, h2: seq<bv8>, body: seq<bv8>,
                             c: Collaborators, openSucceeds: bool)
    requires c.LoaderInBounds() && |h1| == HEADER_SIZE && |h2| == HEADER_SIZE
    ensures Restore(files, h1 + body, c, openSucceeds)
         == Restore(files, h2 + body, c, openSucceeds).(header := WordOf(h1))
  {
    assert AfterHeader(h1 + body) == body;
    assert AfterHeader(h2 + body) == body;
    assert (h1 + body)[..HEADER_SIZE] == h1;
  }

  /**
   * A stream shorter than the header is not rejected: the missing header bytes read
   * as zero, the loader is given nothing, and an openable settings file gives OK.
   */
  lemma RestoreShortInput(files: Files, input: seq<bv8>, c: Collaborators, openSucceeds: bool)
    requires c.LoaderInBounds() && |input| < HEADER_SIZE
    ensures var r := Restore(files, input, c, openSucceeds);
      && r.status == (if openSucceeds then OK else INVALID_FILE)
      && r.header == WordOf(input)
      && r.settings.groupIdAliases == c.loadAliases([]).table
  {
    RestoreReplacesAliases(files, input, c, openSucceeds);
    assert input[..|input|] == input;
  }

  // ---------------------------------------------------------------------------
  // The settings object and the file system
  // ---------------------------------------------------------------------------

  /** The settings object `restoreBackup` rebuilds in place. */
  class Settings {
    var groupIdAliases: AliasTable
    var fields: Fields

    function Value(): SettingsValue
      reads this
    {
      SettingsValue(groupIdAliases, fields)
    }

    constructor (c: Collaborators)
      ensures Value() == Defaults(c)
    {
      groupIdAliases := map[];
      fields := c.defaults;
    }

    /** `settings = Settings()`. */
    method ResetToDefaults(c: Collaborators)
      modifies this
      ensures Value() == Defaults(c)
    {
      groupIdAliases := map[];
      fields := c.defaults;
    }

    /** `settings.save()`: persists the fields and the alias table. */
    method Save(fs: FileSystem, c: Collaborators)
      modifies fs
      ensures fs.files == Persist(Value(), old(fs.files), c)
    {
      fs.files := fs.files[SettingsFile := c.serialize(fields)];
      fs.files := fs.files[AliasesFile := c.saveAliases(groupIdAliases)];
    }

    /** `Settings::load(settings)`: the fields are read back from the settings file. */
    method Load(fs: FileSystem, c: Collaborators)
      modifies this
      ensures Value() == Reload(old(Value()), fs.files, c)
    {
      if SettingsFile in fs.files {
        fields := c.parse(fs.files[SettingsFile]);
      }
    }
  }

  /** `ProjectFS`. Whether an open succeeds is a parameter: the flash is not modelled. */
  class FileSystem {
    var files: Files

    constructor (files: Files)
      ensures this.files == files
    {
      this.files := files;
    }

    /** `open(p, "w")`: on success the file exists and is empty. */
    method OpenForWrite(p: Path, succeeds: bool) returns (isOpen: bool)
      modifies this
      ensures isOpen == succeeds
      ensures files == if succeeds then old(files)[p := []] else old(files)
    {
      isOpen := succeeds;
      if succeeds {
        files := files[p := []];
      }
    }

    /** `close()` of a file opened for writing: it holds the bytes written to it. */
    method Close(p: Path, written: seq<bv8>)
      modifies this
      ensures files == old(files)[p := written]
    {
      files := files[p := written];
    }

    /** `open(p, "r")` and reading it to the end; None when there is no such file. */
    method ReadAll(p: Path) returns (contents: Option<seq<bv8>>)
      ensures contents == Lookup(files, p)
    {
      contents := Lookup(files, p);
    }

    /** `remove(p)`. */
    method Remove(p: Path)
      modifies this
      ensures files == old(files) - {p}
    {
      files := files - {p};
    }
  }
}
