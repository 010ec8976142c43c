/**
 * The parts of `MiLightHttpServer` this model covers: the websocket client
 * counter, the chunked body of a static asset served from program memory, the
 * chunked JSON array listing the group aliases, and the backup download.
 *
 * The bytes a handler writes to the client are returned as a sequence; the
 * status line and the headers the server library writes are not part of it.
 */
module HttpServer {
  import opened Common
  import opened Chunked
  import opened Streams
  import opened Backup

  // ---------------------------------------------------------------------------
  // Websocket clients
  // ---------------------------------------------------------------------------

  /** The websocket library's event kinds (`WStype_t`). */
  datatype WsEventType =
    | WsError
    | WsDisconnected
    | WsConnected
    | WsText
    | WsBin
    | WsFragmentTextStart
    | WsFragmentBinStart
    | WsFragment
    | WsFragmentFin
    | WsPing
    | WsPong

  /** The client count after one event: a connect adds one, a disconnect takes one away but not below zero. */
  function NextClientCount(n: nat, t: WsEventType): nat
  {
    match t
    case WsDisconnected => if n > 0 then n - 1 else n
    case WsConnected => n + 1
    case _ => n
  }

  /** The client count after `events`, in order, starting from `n`. */
  function ClientsAfter(n: nat, events: seq<WsEventType>): nat
  {
    if events == [] then n
    else NextClientCount(ClientsAfter(n, events[..|events| - 1]), events[|events| - 1])
  }

  /** How many of `events` are `t`. */
  function Occurrences(events: seq<WsEventType>, t: WsEventType): nat
  {
    if events == [] then 0
    else Occurrences(events[..|events| - 1], t) + (if events[|events| - 1] == t then 1 else 0)
  }

  /**
   * The counter never exceeds the start plus the connects, and every connect
   * not matched by a disconnect is still counted.
   */
  lemma {:induction false} ClientsAfterBounds(n: nat, events: seq<WsEventType>)
    ensures ClientsAfter(n, events) <= n + Occurrences(events, WsConnected)
    ensures ClientsAfter(n, events) + Occurrences(events, WsDisconnected) >= n + Occurrences(events, WsConnected)
  {
    if events != [] {
      ClientsAfterBounds(n, events[..|events| - 1]);
    }
  }

  /** No prefix of `events` has more disconnects than the clients known before it. */
  predicate Balanced(n: nat, events: seq<WsEventType>)
  {
    forall k :: 0 <= k <= |events| ==>
      Occurrences(events[..k], WsDisconnected) <= n + Occurrences(events[..k], WsConnected)
  }

  /**
   * When every disconnect has a client to drop, the counter is exact: the
   * start plus the connects minus the disconnects. The floor at zero only
   * matters for a disconnect the counter never saw connect.
   */
  lemma {:induction false} ClientsAfterBalanced(n: nat, events: seq<WsEventType>)
    requires Balanced(n, events)
    ensures ClientsAfter(n, events) + Occurrences(events, WsDisconnected)
         == n + Occurrences(events, WsConnected)
  {
    if events != [] {
      var init := events[..|events| - 1];
      assert Balanced(n, init) by {
        forall k | 0 <= k <= |init|
          ensures Occurrences(init[..k], WsDisconnected) <= n + Occurrences(init[..k], WsConnected)
        {
          assert init[..k] == events[..k];
        }
      }
      ClientsAfterBalanced(n, init);
      assert events[..|events|] == events;
    }
  }

  /** Events other than connect and disconnect leave the counter alone. */
  lemma {:induction false} ClientsAfterOtherEvents(n: nat, events: seq<WsEventType>)
    requires Occurrences(events, WsConnected) == 0 && Occurrences(events, WsDisconnected) == 0
    ensures ClientsAfter(n, events) == n
  {
    if events != [] {
      ClientsAfterOtherEvents(n, events[..|events| - 1]);
    }
  }

  // ---------------------------------------------------------------------------
  // Serving a buffer from program memory
  // ---------------------------------------------------------------------------

  /** `handleServe_P` writes at most this many bytes per chunk. */
  const CHUNK_SIZE: nat := 4096

  /** `data` cut into consecutive pieces of `n` bytes, the last one possibly shorter. */
  function SplitChunks(data: seq<bv8>, n: nat): (pieces: seq<seq<bv8>>)
    requires 0 < n
    ensures Flatten(pieces) == data
    ensures forall i :: 0 <= i < |pieces| ==> 0 < |pieces[i]| <= n
    ensures forall i :: 0 <= i < |pieces| - 1 ==> |pieces[i]| == n
    decreases |data|
  {
    if data == [] then []
    else
      var size := Min(n, |data|);
      var pieces := [data[..size]] + SplitChunks(data[size..], n);
      assert pieces[1..] == SplitChunks(data[size..], n);
      assert data == data[..size] + data[size..];
      pieces
  }

  /** There are as many pieces as `n`-byte blocks are needed to hold `data`, and no more. */
  lemma {:induction false} SplitChunksCount(data: seq<bv8>, n: nat)
    requires 0 < n
    ensures var k := |SplitChunks(data, n)|;
      |data| <= k * n && (k == 0 || (k - 1) * n < |data|)
    decreases |data|
  {
    if data != [] {
      var size := Min(n, |data|);
      SplitChunksCount(data[size..], n);
      MulSucc(|SplitChunks(data[size..], n)|, n);
    }
  }

  lemma MulSucc(k: nat, n: nat)
    ensures (k + 1) * n == k * n + n
  {
  }

  /** `handleServe_P` writes one chunk per started 4096 bytes, before the last chunk. */
  lemma ServeChunkCount(data: seq<bv8>)
    ensures |SplitChunks(data, CHUNK_SIZE)| == (|data| + CHUNK_SIZE - 1) / CHUNK_SIZE
  {
    SplitChunksCount(data, CHUNK_SIZE);
  }

  /** The chunks `handleServe_P` writes for `data`: at most 4096 bytes each, the size in upper-case hex. */
  function ServeChunks(data: seq<bv8>): seq<bv8>
    decreases |data|
  {
    if data == [] then []
    else
      var size := Min(CHUNK_SIZE, |data|);
      Chunk(data[..size], Upper) + ServeChunks(data[size..])
  }

  /** The chunks written are those of the 4096-byte pieces of `data`. */
  lemma {:induction false} ServeChunksFrame(data: seq<bv8>)
    ensures ServeChunks(data) == Frame(SplitChunks(data, CHUNK_SIZE), Upper)
    decreases |data|
  {
    if data != [] {
      var size := Min(CHUNK_SIZE, |data|);
      ServeChunksFrame(data[size..]);
      var pieces := SplitChunks(data, CHUNK_SIZE);
      assert pieces[0] == data[..size];
      assert pieces[1..] == SplitChunks(data[size..], CHUNK_SIZE);
    }
  }

  /** The body `handleServe_P` writes for `data`: its chunks, then the last chunk. */
  function ServeBody(data: seq<bv8>): seq<bv8>
  {
    ServeChunks(data) + LAST_CHUNK
  }

  /** A reader of the served body gets `data` back, whatever its length. */
  lemma ServeBodyDecodes(data: seq<bv8>)
    ensures DecodeChunked(ServeBody(data)) == Some(data)
  {
    ServeChunksFrame(data);
    DecodeFrame(SplitChunks(data, CHUNK_SIZE), Upper);
  }

  /** An empty buffer is served as the last chunk alone. */
  lemma ServeEmpty()
    ensures ServeBody([]) == LAST_CHUNK
  {
  }

  /** What is left from `p` on: the next chunk, then the chunks after it. */
  lemma ServeChunksStep(data: seq<bv8>, p: nat, size: nat)
    requires p < |data| && size == Min(CHUNK_SIZE, |data| - p)
    ensures ServeChunks(data[p..]) == Chunk(data[p..p + size], Upper) + ServeChunks(data[p + size..])
  {
    var d := data[p..];
    assert d[..size] == data[p..p + size];
    assert d[size..] == data[p + size..];
  }

  /** One turn of `handleServe_P`'s loop: what it writes and what is left make up what was left. */
  lemma ServeStep(out: seq<bv8>, data: seq<bv8>, p: nat, size: nat)
    requires p < |data| && size == Min(CHUNK_SIZE, |data| - p)
    ensures out + Hex(size, Upper) + CRLF + data[p..p + size] + CRLF + ServeChunks(data[p + size..])
         == out + ServeChunks(data[p..])
  {
    var piece, after := data[p..p + size], ServeChunks(data[p + size..]);
    ServeChunksStep(data, p, size);
    WriteChunk(out, piece, Upper);
    AppendAssoc(out, Chunk(piece, Upper), after);
  }

  /** Writing a chunk's size line, its data and CRLF one after the other appends the chunk. */
  lemma WriteChunk(out: seq<bv8>, data: seq<bv8>, cs: HexCase)
    ensures out + Hex(|data|, cs) + CRLF + data + CRLF == out + Chunk(data, cs)
  {
  }

  /** The same for a chunk whose data starts with a comma written on its own. */
  lemma WriteCommaChunk(out: seq<bv8>, data: seq<bv8>, cs: HexCase)
    ensures out + Hex(|data| + 1, cs) + CRLF + [COMMA] + data + CRLF == out + Chunk([COMMA] + data, cs)
  {
    assert |[COMMA] + data| == |data| + 1;
  }

  // ---------------------------------------------------------------------------
  // Listing the groups
  // ---------------------------------------------------------------------------

  const OPEN_BRACKET: bv8 := 0x5B
  const CLOSE_BRACKET: bv8 := 0x5D
  const COMMA: bv8 := 0x2C

  /**
   * `sendContent(s)` on a response of unknown length: `s` as one chunk with its
   * size in lower-case hex, so that `sendContent("")` ends the body.
   */
  function SendContent(s: seq<bv8>): seq<bv8>
  {
    Chunk(s, Lower)
  }

  /** The data of the chunk written for each group: its JSON text, after a comma for all but the first. */
  function ListPayloads(elements: seq<seq<bv8>>): seq<seq<bv8>>
  {
    seq(|elements|, i requires 0 <= i < |elements| => if i == 0 then elements[0] else [COMMA] + elements[i])
  }

  /** The texts joined by commas. */
  function JoinComma(elements: seq<seq<bv8>>): seq<bv8>
  {
    if |elements| <= 1 then (if elements == [] then [] else elements[0])
    else JoinComma(elements[..|elements| - 1]) + [COMMA] + elements[|elements| - 1]
  }

  /** The body `handleListGroups` writes for the groups' JSON texts, in the order the alias table yields them. */
  function ListBody(elements: seq<seq<bv8>>): seq<bv8>
  {
    SendContent([OPEN_BRACKET]) + Frame(ListPayloads(elements), Lower) + SendContent([CLOSE_BRACKET]) + SendContent([])
  }

  /** One more group adds one chunk to the listing. */
  lemma ListPayloadsSnoc(elements: seq<seq<bv8>>, i: nat)
    requires i < |elements|
    ensures ListPayloads(elements[..i + 1])
         == ListPayloads(elements[..i]) + [if i == 0 then elements[i] else [COMMA] + elements[i]]
  {
  }

  /** The chunk data, concatenated, is the comma-separated list. */
  lemma {:induction false} FlattenListPayloads(elements: seq<seq<bv8>>)
    ensures Flatten(ListPayloads(elements)) == JoinComma(elements)
    decreases |elements|
  {
    var n := |elements|;
    if n == 1 {
      assert ListPayloads(elements) == [elements[0]];
      assert Flatten([elements[0]]) == elements[0] + Flatten([]);
    } else if n > 1 {
      var init, last := elements[..n - 1], [COMMA] + elements[n - 1];
      assert ListPayloads(elements) == ListPayloads(init) + [last] by {
        ListPayloadsSnoc(elements, n - 1);
        assert elements[..n] == elements;
      }
      FlattenListPayloads(init);
      FlattenAppend(ListPayloads(init), [last]);
      assert Flatten([last]) == last + Flatten([]);
      AppendAssoc(JoinComma(init), [COMMA], elements[n - 1]);
    }
  }

  /** The first turn of `handleListGroups`' loop: size line, text, CRLF give the first group's chunk. */
  lemma ListStepFirst(out: seq<bv8>, elements: seq<seq<bv8>>)
    requires 0 < |elements|
    requires out == SendContent([OPEN_BRACKET]) + Frame(ListPayloads(elements[..0]), Lower)
    ensures out + Hex(|elements[0]|, Lower) + CRLF + elements[0] + CRLF
         == SendContent([OPEN_BRACKET]) + Frame(ListPayloads(elements[..1]), Lower)
  {
    WriteChunk(out, elements[0], Lower);
    ListPayloadsSnoc(elements, 0);
    FrameSnoc(ListPayloads(elements[..0]), elements[0], Lower);
    AppendAssoc(SendContent([OPEN_BRACKET]), Frame(ListPayloads(elements[..0]), Lower), Chunk(elements[0], Lower));
  }

  /**
   * A later turn: size line, comma, text, CRLF give the chunk of group `i`,
   * after the chunks of the groups before it.
   */
  lemma ListStepNext(out: seq<bv8>, elements: seq<seq<bv8>>, i: nat)
    requires 0 < i < |elements|
    requires out == SendContent([OPEN_BRACKET]) + Frame(ListPayloads(elements[..i]), Lower)
    ensures out + Hex(|elements[i]| + 1, Lower) + CRLF + [COMMA] + elements[i] + CRLF
         == SendContent([OPEN_BRACKET]) + Frame(ListPayloads(elements[..i + 1]), Lower)
  {
    var payload := [COMMA] + elements[i];
    WriteCommaChunk(out, elements[i], Lower);
    ListPayloadsSnoc(elements, i);
    FrameSnoc(ListPayloads(elements[..i]), payload, Lower);
    AppendAssoc(SendContent([OPEN_BRACKET]), Frame(ListPayloads(elements[..i]), Lower), Chunk(payload, Lower));
  }

  /** The chunks of a frame followed by one more chunk. */
  lemma FrameSnoc(payloads: seq<seq<bv8>>, last: seq<bv8>, cs: HexCase)
    ensures Frame(payloads + [last], cs) == Frame(payloads, cs) + Chunk(last, cs)
  {
    FrameAppend(payloads, [last], cs);
    assert Frame([last], cs) == Chunk(last, cs) + Frame([], cs);
  }

  /** The data of every chunk of the listing, brackets included. */
  function ListChunks(elements: seq<seq<bv8>>): seq<seq<bv8>>
  {
    [[OPEN_BRACKET]] + ListPayloads(elements) + [[CLOSE_BRACKET]]
  }

  /** The listing is a frame of its chunks followed by the last chunk. */
  lemma ListBodyFrame(elements: seq<seq<bv8>>)
    ensures ListBody(elements) == Frame(ListChunks(elements), Lower) + LAST_CHUNK
  {
    var open, middle, close := [[OPEN_BRACKET]], ListPayloads(elements), [[CLOSE_BRACKET]];
    FrameAppend(open, middle, Lower);
    assert Frame(open, Lower) == Chunk([OPEN_BRACKET], Lower) + Frame([], Lower);
    FrameSnoc(open + middle, [CLOSE_BRACKET], Lower);
    EmptyChunkIsLast(Lower);
  }

  /** The listing's chunk data, concatenated, is the JSON array. */
  lemma FlattenListChunks(elements: seq<seq<bv8>>)
    ensures Flatten(ListChunks(elements)) == [OPEN_BRACKET] + JoinComma(elements) + [CLOSE_BRACKET]
  {
    var open, middle, close := [[OPEN_BRACKET]], ListPayloads(elements), [[CLOSE_BRACKET]];
    FlattenAppend(open, middle);
    FlattenAppend(open + middle, close);
    assert Flatten(open) == [OPEN_BRACKET] + Flatten([]);
    assert Flatten(close) == [CLOSE_BRACKET] + Flatten([]);
    FlattenListPayloads(elements);
  }

  /**
   * A reader of the listing gets the JSON array of the groups' texts, provided
   * the first text is not empty (an empty first chunk would end the body).
   */
  lemma ListBodyDecodes(elements: seq<seq<bv8>>)
    requires elements == [] || 0 < |elements[0]|
    ensures DecodeChunked(ListBody(elements)) == Some([OPEN_BRACKET] + JoinComma(elements) + [CLOSE_BRACKET])
  {
    var chunks := ListChunks(elements);
    assert forall i :: 0 <= i < |chunks| ==> 0 < |chunks[i]|;
    ListBodyFrame(elements);
    DecodeFrame(chunks, Lower);
    FlattenListChunks(elements);
  }

  // ---------------------------------------------------------------------------
  // The server
  // ---------------------------------------------------------------------------

  /** A file written twice and then removed leaves no trace. */
  lemma RemoveRewritten(files: Files, p: Path, first: seq<bv8>, second: seq<bv8>)
    ensures files[p := first][p := second] - {p} == files - {p}
  {
  }

  /** `handleCreateBackup` buffers the backup file's writes 64 bytes at a time. */
  const BACKUP_BUFFER_SIZE: nat := 64

  class MiLightHttpServer {
    var numWsClients: nat
    const settings: Settings

    constructor (settings: Settings)
      ensures this.settings == settings && numWsClients == 0
    {
      this.settings := settings;
      numWsClients := 0;
    }

    /** `handleWsEvent`: connects and disconnects move the counter, other events only get logged. */
    method HandleWsEvent(t: WsEventType)
      modifies this`numWsClients
      ensures numWsClients == NextClientCount(old(numWsClients), t)
      ensures t == WsConnected ==> numWsClients == old(numWsClients) + 1
      ensures t == WsDisconnected ==> numWsClients == if old(numWsClients) > 0 then old(numWsClients) - 1 else 0
      ensures t != WsConnected && t != WsDisconnected ==> numWsClients == old(numWsClients)
    {
      match t {
        case WsDisconnected =>
          if numWsClients > 0 {
            numWsClients := numWsClients - 1;
          }
        case WsConnected =>
          numWsClients := numWsClients + 1;
        case _ =>
      }
    }

    /** `handleServe_P`: the bytes written to the client for the buffer `data`. */
    method HandleServeP(data: seq<bv8>) returns (out: seq<bv8>)
      ensures out == ServeBody(data)
    {
      var p: nat := 0;
      var remaining: nat := |data|;
      out := [];
      while remaining > 0
        invariant p + remaining == |data|
        invariant out + ServeChunks(data[p..]) == ServeChunks(data)
      {
        var chunk := if remaining > CHUNK_SIZE then CHUNK_SIZE else remaining;
        ServeStep(out, data, p, chunk);
        out := out + Hex(chunk, Upper) + CRLF;
        out := out + data[p..p + chunk];
        out := out + CRLF;
        p := p + chunk;
        remaining := remaining - chunk;
      }
      assert data[p..] == [];
      out := out + LAST_CHUNK;
    }

    /**
     * `handleListGroups`: the bytes written to the client for the groups' JSON
     * texts `elements`, in the order the alias table yields them.
     */
    method HandleListGroups(elements: seq<seq<bv8>>) returns (out: seq<bv8>)
      ensures out == ListBody(elements)
    {
      out := SendContent([OPEN_BRACKET]);
      var firstGroup := true;
      var i := 0;
      while i < |elements|
        invariant 0 <= i <= |elements|
        invariant firstGroup <==> i == 0
        invariant out == SendContent([OPEN_BRACKET]) + Frame(ListPayloads(elements[..i]), Lower)
      {
        var element := elements[i];
        var size := |element| + (if firstGroup then 0 else 1);
        if firstGroup {
          ListStepFirst(out, elements);
        } else {
          ListStepNext(out, elements, i);
        }
        out := out + Hex(size, Lower) + CRLF;
        if !firstGroup {
          out := out + [COMMA];
        }
        out := out + element;
        out := out + CRLF;
        firstGroup := false;
        i := i + 1;
      }
      assert elements[..i] == elements;
      out := out + SendContent([CLOSE_BRACKET]);
      out := out + SendContent([]);
    }

    /**
     * `handleCreateBackup`: writes a backup of the settings to the backup file
     * through a 64-byte buffer, sends the file back and removes it. When the
     * file cannot be opened the response code is 500 and whatever the backup
     * file held before is what gets sent.
     */
    method HandleCreateBackup(fs: FileSystem, c: Collaborators, openSucceeds: bool)
      returns (responseCode: Option<nat>, sent: Option<seq<bv8>>)
      modifies fs
      ensures responseCode == if openSucceeds then None else Some(500)
      ensures sent == if openSucceeds then Some(BackupImage(settings.Value(), c)) else Lookup(old(fs.files), BackupFile)
      ensures fs.files == old(fs.files) - {BackupFile}
    {
      ghost var files := fs.files;
      var isOpen := fs.OpenForWrite(BackupFile, openSucceeds);
      responseCode := None;
      if !isOpen {
        responseCode := Some(500);
      }
      var bufferedStream := new WriteBufferingStream(BACKUP_BUFFER_SIZE);
      CreateBackup(settings, bufferedStream, c);
      bufferedStream.Flush();
      assert bufferedStream.target == BackupImage(settings.Value(), c);
      if isOpen {
        fs.Close(BackupFile, bufferedStream.target);
        RemoveRewritten(files, BackupFile, [], bufferedStream.target);
      }
      sent := fs.ReadAll(BackupFile);
      fs.Remove(BackupFile);
    }
  }
}
