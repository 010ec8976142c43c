# Settings backup and HTTP response framing of the MiLight hub

This project models two parts of the ESP8266/ESP32 MiLight hub firmware and
proves properties of them.

- **The settings backup container** (`BackupManager`). `createBackup` writes
  three things in this order:
  - a 4-byte magic word, `0x92A7C300 | 1`, in the core's little-endian order;
  - the alias table, as `GroupAlias::saveAliases` writes it;
  - the settings blob, as `Settings::serialize` writes it.

  `restoreBackup` reads the magic word and only logs it. Then it:
  - resets the settings;
  - loads the aliases and drops one terminator byte;
  - saves;
  - copies the rest of the stream into the settings file through a 128-byte
    write buffer;
  - reloads the settings and saves again.
- **The HTTP response framing** of `MiLightHttpServer`:
  - the websocket client counter;
  - the chunked body `handleServe_P` writes in 4096-byte chunks;
  - the chunked JSON array `handleListGroups` writes one group at a time;
  - the backup download, `handleCreateBackup`.

Files:
- `common.dfy`: `Option`, `Min`, `Lookup` and associativity of `+` on sequences.
- `streams.dfy`:
  - the input stream, a byte sequence with a read cursor;
  - StreamUtils' `WriteBufferingStream`, a class with a fixed `array` buffer in
    front of its target.
- `backup_manager.dfy`:
  - the constants and the header word;
  - `CreateBackup` and `RestoreBackup`, as methods over a `Settings` object and
    a `FileSystem` object;
  - the functions `BackupImage` and `Restore` that specify them;
  - the lemmas about those functions.
- `chunked.dfy`: chunked transfer coding (section 7.1 of RFC 9112).
  - `Hex` is `printf("%X")`/`printf("%x")`.
  - `Chunk` and `Frame` build chunks.
  - `DecodeChunked` is a reader of chunked bodies. It is the reference every
    encoder is proved against.
- `http_server.dfy`:
  - the `MiLightHttpServer` class, with its `numWsClients` field and the four
    handlers;
  - the functions `ServeBody`, `ListBody` and `ClientsAfter` that specify them;
  - their lemmas.

The code whose source is not part of this model is a field of the
`Backup.Collaborators` datatype, as a function value:
- `GroupAlias::saveAliases` and `GroupAlias::loadAliases`;
- `Settings::serialize` and the parser behind `Settings::load`;
- the default field values.

What the proofs need from these collaborators is stated as predicates. Only the
lemmas that need a predicate require it:
- `LoaderInBounds`: the loader never consumes more than it is given.
- `AliasesInvertible`: the loader reads back what the saver wrote, and leaves
  the saver's final null byte in the stream.
- `SettingsInvertible`: parsing a serialized blob gives back the fields it came
  from.

`Settings::save` is taken to rewrite the settings file with `serialize(fields)`
and the aliases file with `saveAliases(groupIdAliases)`. `Settings::load` is
taken to replace the fields with what the settings file parses to.

The stream `restoreBackup` reads is a byte sequence that is fully available:
`available()` is the number of bytes left. A handler's client connection is the
sequence of bytes the handler writes to it. Whether a file opens is a boolean
parameter of the operation that opens it.

The header masks are `& 0xFFFFFF00` and `& 0xFF`, and the restore only logs
them. A backup with a wrong magic word or version is restored like any other;
the log messages call it an error, but nothing branches on it. The model follows
the code: `RestoreIgnoresHeader` and `RestoreShortInput` state this behaviour.

## Model

| member | source | states |
|---|---|---|
| Backup.MagicHeaderLayout | lib/Settings/BackupManager.cpp:21-22 | The magic word is 0x92A7C301. Its high 24 bits are 0x92A7C3 and its low byte, the version, is 1. The two logged masks split it into (0x92A7C300, 1). It goes on the wire as 01 C3 A7 92. |
| Backup.HeaderBytes | lib/Settings/BackupManager.cpp:25 | Writing the 32-bit word gives exactly 4 bytes, and reading them back little-endian gives the same word. |
| Backup.SplitHeader | lib/Settings/BackupManager.cpp:38-51 | The format tag (`& 0xFFFFFF00`) and the version byte (`& 0xFF`) partition the word: they do not overlap, and OR-ing them gives the word back. |
| Backup.CreateBackup | lib/Settings/BackupManager.cpp:24-29 | Everything written to the stream is what was there before, followed by the header bytes, then the saved alias table, then the serialized settings. |
| Backup.BackupLayout | lib/Settings/BackupManager.cpp:24-29 | The backup is exactly 4 header bytes that read back as the magic word, the alias section right after them, and the settings blob after that, with nothing in between or after. |
| Backup.LoadAliases | lib/Settings/BackupManager.cpp:85 | The loaded entries are added to the alias table, and the stream advances by exactly the number of bytes the loader consumed. |
| Backup.CopyRemaining | lib/Settings/BackupManager.cpp:104-106 | Every remaining stream byte reaches the buffered writer, in order. Nothing is dropped or added, the buffer stays within its capacity, and the stream ends up empty. |
| Backup.CopyIntoSettingsFile | lib/Settings/BackupManager.cpp:102-109 | After the 128-byte buffered copy, the flush and the close, the settings file holds exactly the rest of the stream, and no other file changes. |
| Backup.RestoreBackup | lib/Settings/BackupManager.cpp:31-116 | Status, header word, the settings afterwards, all the files and what is left in the stream are exactly what `Restore` gives for the old files and the stream contents. |
| Backup.RestoreAliasesOfBackup | lib/Settings/BackupManager.cpp:81-91 | On a backup of v, the first phase reads the magic word, restores v's aliases over the default fields and saves them. What is left after the terminator is exactly v's settings blob. |
| Backup.RestoreInvertsBackup | lib/Settings/BackupManager.cpp:81-116 | Restoring a backup of v gives OK and settings equal to v. It reads the magic word, copies v's serialized blob into the settings file and leaves the stream empty. The files end up as saving v would leave them. |
| Backup.RestoreReplacesAliases | lib/Settings/BackupManager.cpp:81-91 | In every case the alias table afterwards is exactly what the loader read after the header: no earlier alias survives. The aliases file holds that table. |
| Backup.RestoreAfterOpenFailure | lib/Settings/BackupManager.cpp:90-99 | When the settings file cannot be opened the result is INVALID_FILE and nothing is copied. What was saved before the open stays: the restored aliases, and the settings file with the default settings. |
| Backup.RestoreConsumesHeaderAndTerminator | lib/Settings/BackupManager.cpp:32-88 | The header takes exactly 4 bytes and the terminator exactly one. When the loader stops in front of a terminator byte t, what follows t is exactly what goes into the settings file, or what stays in the stream if the file does not open. |
| Backup.RestoreIgnoresHeader | lib/Settings/BackupManager.cpp:36-52 | Two inputs that differ only in their 4 header bytes restore identically, apart from the header word returned. |
| Backup.RestoreShortInput | lib/Settings/BackupManager.cpp:32-34 | A stream shorter than 4 bytes is not rejected. The bytes that are missing read as 0, the loader gets nothing, and the status depends only on whether the settings file opens. |
| Backup.Settings.constructor | lib/Settings/BackupManager.cpp:82 | A new settings object holds the default fields and no aliases. |
| Backup.Settings.ResetToDefaults | lib/Settings/BackupManager.cpp:82 | `settings = Settings()` replaces the whole value with the defaults. |
| Backup.Settings.Save | lib/Settings/BackupManager.cpp:91 | The settings and aliases files are rewritten from the current value, and no other file changes. |
| Backup.Settings.Load | lib/Settings/BackupManager.cpp:113 | The fields become what the settings file parses to. The alias table is untouched. |
| Backup.FileSystem.OpenForWrite | lib/Settings/BackupManager.cpp:95-97 | A successful open truncates the file. A failed open changes nothing. The result reports which of the two happened. |
| Backup.FileSystem.Close | lib/Settings/BackupManager.cpp:109 | The closed file holds exactly the bytes written to it. |
| Backup.FileSystem.ReadAll | lib/WebServer/MiLightHttpServer.cpp:223-225 | Reading a file gives its contents, or None when it does not exist. |
| Backup.FileSystem.Remove | lib/WebServer/MiLightHttpServer.cpp:227 | The file is gone and every other file is unchanged. |
| Streams.ReadStream.Available | lib/Settings/BackupManager.cpp:104 | The count is the number of unread bytes. It is 0 exactly when nothing is left. |
| Streams.ReadStream.Read | lib/Settings/BackupManager.cpp:88 | On an exhausted stream the result is -1. Otherwise it is the next byte, which is consumed. |
| Streams.ReadStream.ReadBytes | lib/Settings/BackupManager.cpp:34 | The result is the first n unread bytes, or all of them when fewer are left, and exactly those are consumed. |
| Streams.ReadStream.Skip | lib/Settings/BackupManager.cpp:85 | Exactly n bytes are consumed. |
| Streams.WriteBufferingStream.constructor | lib/Settings/BackupManager.cpp:102 | A new writer has an empty buffer of the given capacity and has sent nothing to its target. |
| Streams.WriteBufferingStream.Write | lib/Settings/BackupManager.cpp:105 | The byte is appended to everything written so far. The target receives nothing unless the buffer was full. |
| Streams.WriteBufferingStream.WriteAll | lib/Settings/BackupManager.cpp:25-28 | The bytes are appended to everything written so far, in order. |
| Streams.WriteBufferingStream.Flush | lib/Settings/BackupManager.cpp:108 | The target has received everything written so far, and the buffer is empty. |
| Chunked.HexDigit | lib/WebServer/MiLightHttpServer.cpp:303 | A digit of the requested case whose value is d. It is `0` exactly when d is 0. |
| Chunked.Hex | lib/WebServer/MiLightHttpServer.cpp:303 | `%X`/`%x` gives a non-empty run of digits of the requested case that denotes n and has no leading zero. |
| Chunked.DecodeChunk | lib/WebServer/MiLightHttpServer.cpp:303-307 | A reader takes a non-empty chunk's hex size line, its data and its CRLF, then goes on with what follows. |
| Chunked.DecodeFrame | lib/WebServer/MiLightHttpServer.cpp:299-314 | Chunks for non-empty payloads followed by `0\r\n\r\n` make a well-formed chunked body. Reading it gives the payloads concatenated in order. |
| Chunked.EmptyChunkIsLast | lib/WebServer/MiLightHttpServer.cpp:276 | An empty chunk, as `sendContent("")` writes it, is the last chunk `0\r\n\r\n`. |
| HttpServer.MiLightHttpServer.HandleWsEvent | lib/WebServer/MiLightHttpServer.cpp:191-207 | CONNECTED adds one. DISCONNECTED takes one away only when the count is positive, so it never underflows. Every other event leaves the count unchanged. |
| HttpServer.ClientsAfterBounds | lib/WebServer/MiLightHttpServer.cpp:191-207 | After any sequence of events the count is at most the start plus the connects. Every connect not matched by a disconnect is still counted. |
| HttpServer.ClientsAfterBalanced | lib/WebServer/MiLightHttpServer.cpp:191-207 | When no prefix has more disconnects than known clients, the count is exactly the start plus the connects minus the disconnects. |
| HttpServer.ClientsAfterOtherEvents | lib/WebServer/MiLightHttpServer.cpp:203-205 | Events that are neither connects nor disconnects never change the count. |
| HttpServer.SplitChunks | lib/WebServer/MiLightHttpServer.cpp:299-311 | The pieces concatenate back to the data. Each piece holds 1 to n bytes, and every piece except the last holds exactly n. |
| HttpServer.SplitChunksCount | lib/WebServer/MiLightHttpServer.cpp:299-311 | There are k pieces, where k·n is at least the length of the data and (k-1)·n is below it. |
| HttpServer.ServeChunkCount | lib/WebServer/MiLightHttpServer.cpp:287-311 | `handleServe_P` writes ceil(length / 4096) data chunks. |
| HttpServer.ServeChunksFrame | lib/WebServer/MiLightHttpServer.cpp:299-311 | The chunks the loop writes are those of the 4096-byte pieces of the data, each with an upper-case hex size line. |
| HttpServer.ServeStep | lib/WebServer/MiLightHttpServer.cpp:300-310 | One turn of the loop writes the next chunk, of min(4096, remaining) bytes. That chunk and what remains after it make up what remained before. |
| HttpServer.ServeBodyDecodes | lib/WebServer/MiLightHttpServer.cpp:296-314 | The served body is a well-formed chunked body, and reading it gives back exactly the data, at any length. |
| HttpServer.ServeEmpty | lib/WebServer/MiLightHttpServer.cpp:299-314 | A zero-length buffer is served as the last chunk alone. |
| HttpServer.MiLightHttpServer.HandleServeP | lib/WebServer/MiLightHttpServer.cpp:284-316 | The bytes written to the client are exactly the chunks of the 4096-byte pieces, then `0\r\n\r\n`. |
| HttpServer.WriteChunk | lib/WebServer/MiLightHttpServer.cpp:303-307 | The size line, the data and CRLF, written one after the other, form one chunk carrying that data. |
| HttpServer.WriteCommaChunk | lib/WebServer/MiLightHttpServer.cpp:261-266 | When the size line announces the text's length plus one, the comma and the text together are exactly the chunk's data. |
| HttpServer.ListStepFirst | lib/WebServer/MiLightHttpServer.cpp:261-268 | The first group's turn adds its chunk, without a comma, after the `[` chunk. |
| HttpServer.ListStepNext | lib/WebServer/MiLightHttpServer.cpp:261-268 | Each later group's turn adds one chunk: a comma, then the text. |
| HttpServer.FlattenListPayloads | lib/WebServer/MiLightHttpServer.cpp:242-270 | The groups' chunk data, concatenated, is their texts joined by commas. |
| HttpServer.ListBodyFrame | lib/WebServer/MiLightHttpServer.cpp:240-276 | The listing is the `[` chunk, one chunk per group, the `]` chunk, then the last chunk. |
| HttpServer.FlattenListChunks | lib/WebServer/MiLightHttpServer.cpp:240-273 | The listing's chunk data, concatenated, is `[`, then the texts joined by commas, then `]`. |
| HttpServer.ListBodyDecodes | lib/WebServer/MiLightHttpServer.cpp:240-276 | A reader of the listing gets exactly `[` + the texts joined by `,` + `]`. The only requirement is that the first text is non-empty. |
| HttpServer.MiLightHttpServer.HandleListGroups | lib/WebServer/MiLightHttpServer.cpp:230-278 | The bytes written are exactly the listing body for the groups' texts, in order. |
| HttpServer.MiLightHttpServer.HandleCreateBackup | lib/WebServer/MiLightHttpServer.cpp:209-228 | When the open fails the response code is 500, but the handler does not stop. When the file opens, the bytes sent are exactly the backup of the current settings. When it does not, they are whatever the backup file held before. Either way the backup file is gone afterwards and no other file changes. |

## Left out

- Logging is not modelled: the `Serial.printf`/`println` calls, including the
  header and version messages.
- Lines 54-79 of `lib/Settings/BackupManager.cpp` are build notes pasted into
  the body of `restoreBackup`. They are prose, not C++, and the model reads the
  function without them.
- Platform `#if` branches are not modelled; they differ only in the logging
  call.
- The code of `GroupAlias::saveAliases`/`loadAliases`, `Settings::serialize`,
  `Settings::load` and `Settings::save` is not part of this model. These appear
  only as function values with the contracts stated above.
- `ProjectFS` is a map from path to bytes. Whether an open succeeds is a
  parameter; the flash is not modelled.
- The file bytes land when the file is closed. A write to a file that failed
  to open goes nowhere.
- Opening the backup file for reading is modelled as reading it whole, or None
  when it is missing.
- Stream blocking, read timeouts and concurrency between requests are not
  modelled. `available()` is the number of bytes left in a fully received
  stream.
- The JSON documents of `handleListGroups` are inputs. The model does not build
  them with ArduinoJson from the alias table and the state store, and takes them
  in the order the alias map yields them. `measureJson` is their length and
  `serializeJson` writes them.
- `stateStore->flush()`, `yield()` and `client.stop()` are not modelled.
- The status line and headers the server library sends are not modelled:
  `send(200, ...)`, `sendHeader`, `setContentLength(CONTENT_LENGTH_UNKNOWN)`,
  and the headers of `streamFile`.
- `sendContent(s)` on a body of unknown length is taken to write `s` as one
  chunk with a lower-case hex size, as the ESP8266 and ESP32 web server
  libraries do.
- The JSON error body that `handleCreateBackup` sets when the open fails is not
  modelled; only the response code is.
- HttpServer.MiLightHttpServer.HandleWsEvent: the counter is an unbounded
  `nat`. The declared width of `numWsClients` is in a header that is not part of
  this model, so a wrap-around on increment is not captured.
- HttpServer.MiLightHttpServer.HandleServeP: `length` is an unbounded `nat`
  rather than `size_t`. Nothing wraps, since each chunk is at most 4096 bytes.
- Route registration in `begin`, `handleClient`, `client`, `on`, the other
  handlers and the `handleDeleteAlias` stub are not modelled. They are wiring
  to the server libraries or constant responses.
- `ColorConverter.h` is floating-point colour arithmetic and is not modelled.
  `PlatformEspressif.h` holds only includes and type aliases.
