/**
 * What a replication run does, as the trace of effects it has on the
 * object store, the source connection and the target connection.
 *
 * The outside world is an Environment: the store's answer to each put and
 * delete, and the buffers the source yields for each table. A Run is the
 * trace a step leaves and whether it finished or stopped the process.
 */
module Replication {

  import opened ObjectKeys
  import opened Gateway
  import opened Chunking
  import opened Warehouse

  datatype Event =
    | DeleteObject(key: Key, deleted: bool)
    | ExportRows(table: string, columns: string)
    | PutObject(key: Key, content: seq<byte>, acknowledged: bool)
    | ResetSource
    | Execute(statement: Statement)

  datatype Run = Run(events: seq<Event>, completed: bool)

  datatype Environment = Environment(
    put: (Key, seq<byte>) -> PutResponse,
    delete: Key -> DeleteResponse,
    rows: Table -> seq<Buffer>)

  /** The load statements as events on the target connection. */
  function Executed(ss: seq<Statement>): (es: seq<Event>)
    ensures |es| == |ss|
    ensures forall i :: 0 <= i < |ss| ==> es[i] == Execute(ss[i])
  {
    seq(|ss|, i requires 0 <= i < |ss| => Execute(ss[i]))
  }

  /**
   * Uploads `chunks`, the i-th (counting from 0) as chunk number i + 1;
   * the first upload the store does not acknowledge stops the process, so
   * nothing after it is attempted.
   */
  function PutChunks(env: Environment, target: string, chunks: seq<seq<byte>>): (r: Run)
    decreases |chunks|
  {
    if chunks == [] then Run([], true)
    else
      var prev := PutChunks(env, target, chunks[..|chunks| - 1]);
      if !prev.completed then prev
      else
        var key := ChunkKey(target, |chunks|);
        var content := chunks[|chunks| - 1];
        var ok := ObjectUploaded(env.put(key, content));
        Run(prev.events + [PutObject(key, content, ok)], ok)
  }

  /** Exporting one table: pre-delete, stream, upload each chunk, reset the source. */
  function CopyTableRun(env: Environment, t: Table): (r: Run) {
    var key := ExportKey(t.targetName);
    var uploads := PutChunks(env, t.targetName, Chunks(env.rows(t), ChunkSize));
    Run([DeleteObject(key, ObjectDeleted(env.delete(key))), ExportRows(t.name, t.columnsForCopy)]
        + uploads.events + (if uploads.completed then [ResetSource] else []),
        uploads.completed)
  }

  function EnsureTable(t: Table): Event {
    Execute(CreateTableIfNotExists(t.targetName, t.columnsForCreate))
  }

  /** The trace of one table that went through all three steps. */
  function TableEvents(t: Table, copy: Table -> Run): seq<Event> {
    [EnsureTable(t)] + copy(t).events + Executed(LoadStatements(t))
  }

  /**
   * The orchestrator over the tables in order: for each, ensure the table
   * exists, run its export `copy`, then load it; a failed export stops
   * the run.
   */
  function Orchestrate(tables: seq<Table>, copy: Table -> Run): (r: Run)
    decreases |tables|
  {
    if tables == [] then Run([], true)
    else
      var prev := Orchestrate(tables[..|tables| - 1], copy);
      if !prev.completed then prev
      else
        var t := tables[|tables| - 1];
        if !copy(t).completed then Run(prev.events + [EnsureTable(t)] + copy(t).events, false)
        else Run(prev.events + TableEvents(t, copy), true)
  }

  /** The whole run: the orchestrator with the export of each table as its copy step. */
  function UpdateTablesRun(env: Environment, tables: seq<Table>): (r: Run) {
    Orchestrate(tables, t => CopyTableRun(env, t))
  }

  /** One more table after a completed run, for the export of the environment. */
  lemma UpdateTablesStep(env: Environment, tables: seq<Table>, i: nat)
    requires i < |tables|
    requires UpdateTablesRun(env, tables[..i]).completed
    ensures var prev, t := UpdateTablesRun(env, tables[..i]), tables[i];
      var c := CopyTableRun(env, t);
      UpdateTablesRun(env, tables[..i + 1])
        == if c.completed then Run(prev.events + [EnsureTable(t)] + c.events + Executed(LoadStatements(t)), true)
           else Run(prev.events + [EnsureTable(t)] + c.events, false)
  {
    assert tables[..i + 1] == tables[..i] + [tables[i]];
    OrchestrateExtend(tables[..i], t => CopyTableRun(env, t), tables[i]);
  }

  /** A run that stopped in the export of `tables[k - 1]` is the whole run. */
  lemma UpdateTablesStopped(env: Environment, tables: seq<Table>, k: nat)
    requires k <= |tables|
    requires !UpdateTablesRun(env, tables[..k]).completed
    ensures UpdateTablesRun(env, tables) == UpdateTablesRun(env, tables[..k])
  {
    OrchestrateStopped(tables, t => CopyTableRun(env, t), k);
  }

  /** The traces of the tables, one after the other. */
  function AllTableEvents(tables: seq<Table>, copy: Table -> Run): seq<Event>
    decreases |tables|
  {
    if tables == [] then []
    else AllTableEvents(tables[..|tables| - 1], copy) + TableEvents(tables[|tables| - 1], copy)
  }

  /** The contents the store acknowledged, in the order they were put. */
  function Uploaded(events: seq<Event>): seq<seq<byte>> {
    if events == [] then []
    else
      (if events[0].PutObject? && events[0].acknowledged then [events[0].content] else [])
      + Uploaded(events[1..])
  }

  lemma {:induction false} UploadedAppend(a: seq<Event>, b: seq<Event>)
    ensures Uploaded(a + b) == Uploaded(a) + Uploaded(b)
  {
    if a == [] {
      assert a + b == b;
    } else {
      assert (a + b)[1..] == a[1..] + b;
      UploadedAppend(a[1..], b);
    }
  }

  /** How many uploads a run of `PutChunks` attempts. */
  lemma {:induction false} PutChunksSize(env: Environment, target: string, chunks: seq<seq<byte>>)
    ensures var r := PutChunks(env, target, chunks);
      && |r.events| <= |chunks|
      && (chunks != [] ==> 1 <= |r.events|)
      && (r.completed ==> |r.events| == |chunks|)
    decreases |chunks|
  {
    if chunks != [] {
      PutChunksSize(env, target, chunks[..|chunks| - 1]);
    }
  }

  /**
   * Numbering and halting: the i-th upload is chunk number i + 1 with the
   * i-th content and the store's answer to it; every upload before the
   * last was acknowledged, and the run completes exactly when the last
   * one was.
   */
  lemma {:induction false} PutChunksAt(env: Environment, target: string, chunks: seq<seq<byte>>, i: nat)
    requires i < |PutChunks(env, target, chunks).events|
    ensures var r := PutChunks(env, target, chunks);
      && i < |chunks|
      && r.events[i] == PutObject(ChunkKey(target, i + 1), chunks[i],
                                  ObjectUploaded(env.put(ChunkKey(target, i + 1), chunks[i])))
      && (i < |r.events| - 1 ==> r.events[i].acknowledged)
      && (i == |r.events| - 1 ==> (r.events[i].acknowledged <==> r.completed))
    decreases |chunks|
  {
    var n := |chunks|;
    var init := chunks[..n - 1];
    var prev := PutChunks(env, target, init);
    PutChunksSize(env, target, init);
    if !prev.completed {
      PutChunksAt(env, target, init, i);
    } else if i < n - 1 {
      PutChunksAt(env, target, init, i);
    }
  }

  /** What the store acknowledged is the chunk list, or the part of it before the refused upload. */
  lemma {:induction false} PutChunksUploaded(env: Environment, target: string, chunks: seq<seq<byte>>)
    ensures var r := PutChunks(env, target, chunks);
      var u := Uploaded(r.events);
      && |u| <= |chunks| && u == chunks[..|u|]
      && (r.completed ==> u == chunks)
      && (!r.completed ==> |u| == |r.events| - 1)
    decreases |chunks|
  {
    if chunks != [] {
      var n := |chunks|;
      var init := chunks[..n - 1];
      var prev := PutChunks(env, target, init);
      PutChunksUploaded(env, target, init);
      if prev.completed {
        PutChunksSize(env, target, init);
        var r := PutChunks(env, target, chunks);
        var e := r.events[n - 1];
        assert r.events == prev.events + [e];
        UploadedAppend(prev.events, [e]);
        assert [e][1..] == [];
        assert chunks == init + [chunks[n - 1]];
      }
    }
  }

  /** One more chunk after a run of acknowledged uploads is put under the next chunk number. */
  lemma PutChunksExtend(env: Environment, target: string, chunks: seq<seq<byte>>, c: seq<byte>)
    requires PutChunks(env, target, chunks).completed
    ensures var key := ChunkKey(target, |chunks| + 1);
      var ok := ObjectUploaded(env.put(key, c));
      PutChunks(env, target, chunks + [c]) == Run(PutChunks(env, target, chunks).events + [PutObject(key, c, ok)], ok)
  {
    assert (chunks + [c])[..|chunks|] == chunks;
  }

  /** Once an upload was refused, the chunks after it change nothing. */
  lemma {:induction false} PutChunksStopped(env: Environment, target: string, chunks: seq<seq<byte>>, k: nat)
    requires k <= |chunks|
    requires !PutChunks(env, target, chunks[..k]).completed
    ensures PutChunks(env, target, chunks) == PutChunks(env, target, chunks[..k])
    decreases |chunks|
  {
    if k < |chunks| {
      var init := chunks[..|chunks| - 1];
      assert init[..k] == chunks[..k];
      PutChunksStopped(env, target, init, k);
    } else {
      assert chunks[..k] == chunks;
    }
  }

  /** The events of one table's export, split into its three parts. */
  lemma CopyTableParts(env: Environment, t: Table)
    ensures var key := ExportKey(t.targetName);
      var up := PutChunks(env, t.targetName, Chunks(env.rows(t), ChunkSize));
      var r := CopyTableRun(env, t);
      && r.completed == up.completed
      && r.events == [DeleteObject(key, ObjectDeleted(env.delete(key))), ExportRows(t.name, t.columnsForCopy)]
                     + up.events + (if up.completed then [ResetSource] else [])
  {
  }

  /**
   * Round trip: a completed export uploaded exactly the chunks of its
   * stream, which concatenate back to the stream; an export that stopped
   * uploaded a prefix of the stream.
   */
  lemma CopyTableRoundTrip(env: Environment, t: Table)
    ensures var r := CopyTableRun(env, t);
      && (r.completed ==> Uploaded(r.events) == Chunks(env.rows(t), ChunkSize))
      && (r.completed ==> Concat(Uploaded(r.events)) == Concat(env.rows(t)))
      && Concat(Uploaded(r.events)) <= Concat(env.rows(t))
  {
    var key := ExportKey(t.targetName);
    var cs := Chunks(env.rows(t), ChunkSize);
    var up := PutChunks(env, t.targetName, cs);
    var r := CopyTableRun(env, t);
    var head := [DeleteObject(key, ObjectDeleted(env.delete(key))), ExportRows(t.name, t.columnsForCopy)];
    var tail: seq<Event> := if up.completed then [ResetSource] else [];
    CopyTableParts(env, t);
    UploadedAppend(head + up.events, tail);
    UploadedAppend(head, up.events);
    assert Uploaded(head) == [] by {
      assert head[1..][1..] == [];
    }
    assert Uploaded(tail) == [] by {
      assert up.completed ==> tail[1..] == [];
    }
    var u := Uploaded(up.events);
    assert Uploaded(r.events) == u;
    PutChunksUploaded(env, t.targetName, cs);
    ChunksRoundTrip(env.rows(t), ChunkSize);
    assert cs == u + cs[|u|..];
    ConcatAppend(u, cs[|u|..]);
  }

  /**
   * Shape of one table's export: the unsuffixed key is pre-deleted, the
   * stream is opened, at least one chunk is uploaded, and only an export
   * whose every chunk was acknowledged resets the source and completes.
   */
  lemma CopyTableShape(env: Environment, t: Table)
    ensures var r := CopyTableRun(env, t);
      var n := |r.events| - (if r.completed then 3 else 2);
      && 1 <= n <= |Chunks(env.rows(t), ChunkSize)|
      && r.events[0] == DeleteObject(ExportKey(t.targetName), ObjectDeleted(env.delete(ExportKey(t.targetName))))
      && r.events[1] == ExportRows(t.name, t.columnsForCopy)
      && (r.completed ==> r.events[|r.events| - 1] == ResetSource && n == |Chunks(env.rows(t), ChunkSize)|)
  {
    CopyTableParts(env, t);
    PutChunksSize(env, t.targetName, Chunks(env.rows(t), ChunkSize));
  }

  /**
   * Chunk numbering: the uploads of a table's export are chunks 1..n in
   * order, the i-th carrying the i-th chunk; all but the last were
   * acknowledged, and the export completed exactly when the last one was.
   */
  lemma CopyTableUploadAt(env: Environment, t: Table, i: nat)
    requires 2 <= i < |CopyTableRun(env, t).events| - (if CopyTableRun(env, t).completed then 1 else 0)
    ensures var r := CopyTableRun(env, t);
      var last := |r.events| - (if r.completed then 2 else 1);
      var cs := Chunks(env.rows(t), ChunkSize);
      && i - 2 < |cs|
      && r.events[i] == PutObject(ChunkKey(t.targetName, i - 1), cs[i - 2],
                                  ObjectUploaded(env.put(ChunkKey(t.targetName, i - 1), cs[i - 2])))
      && (i < last ==> r.events[i].acknowledged)
      && (i == last ==> (r.events[i].acknowledged <==> r.completed))
  {
    var cs := Chunks(env.rows(t), ChunkSize);
    var up := PutChunks(env, t.targetName, cs);
    CopyTableParts(env, t);
    assert CopyTableRun(env, t).events[i] == up.events[i - 2];
    PutChunksAt(env, t.targetName, cs, i - 2);
  }

  /** No repeats: the chunk keys a table's export uploads are pairwise different. */
  lemma ChunkKeysDistinct(env: Environment, t: Table)
    ensures var r := CopyTableRun(env, t);
      forall i, j :: 0 <= i < j < |r.events| && r.events[i].PutObject? && r.events[j].PutObject?
        ==> r.events[i].key != r.events[j].key
  {
    CopyTableShape(env, t);
    var r := CopyTableRun(env, t);
    var end := |r.events| - (if r.completed then 1 else 0);
    forall i, j | 0 <= i < j < |r.events| && r.events[i].PutObject? && r.events[j].PutObject?
      ensures r.events[i].key != r.events[j].key
    {
      assert 2 <= i && j < end;
      CopyTableUploadAt(env, t, i);
      CopyTableUploadAt(env, t, j);
      if r.events[i].key == r.events[j].key {
        ChunkKeyInjective(t.targetName, i - 1, j - 1);
      }
    }
  }

  /** An empty stream still uploads exactly one chunk: number 1, with no content. */
  lemma EmptyStream(env: Environment, t: Table)
    requires env.rows(t) == []
    ensures var key := ChunkKey(t.targetName, 1);
      var ok := ObjectUploaded(env.put(key, []));
      CopyTableRun(env, t).events
        == [ DeleteObject(ExportKey(t.targetName), ObjectDeleted(env.delete(ExportKey(t.targetName)))),
             ExportRows(t.name, t.columnsForCopy),
             PutObject(key, [], ok) ]
           + (if ok then [ResetSource] else [])
  {
    var cs := Chunks([], ChunkSize);
    assert Groups([], ChunkSize, []) == [[]];
    assert cs == [[]] by {
      assert cs[0] == Concat<byte>([]);
    }
    assert cs[..0] == [];
    CopyTableParts(env, t);
  }

  /** The run stopped in the export of `tables[k]`, every earlier table having been fully replicated. */
  ghost predicate StoppedAt(tables: seq<Table>, copy: Table -> Run, k: nat, events: seq<Event>)
    requires k < |tables|
  {
    && (forall j :: 0 <= j < k ==> copy(tables[j]).completed)
    && !copy(tables[k]).completed
    && events == AllTableEvents(tables[..k], copy) + [EnsureTable(tables[k])] + copy(tables[k]).events
  }

  /**
   * Orchestration order: each table is ensured, exported and loaded before
   * the next one starts. A run completes exactly when every export did; a
   * run that stopped did so inside the export of the first table whose
   * export failed, after the earlier tables went through all their steps,
   * and without loading that table or touching any later one.
   */
  lemma {:induction false} OrchestrateShape(tables: seq<Table>, copy: Table -> Run)
    ensures var r := Orchestrate(tables, copy);
      && (r.completed <==> forall k :: 0 <= k < |tables| ==> copy(tables[k]).completed)
      && (r.completed ==> r.events == AllTableEvents(tables, copy))
      && (!r.completed ==> exists k :: 0 <= k < |tables| && StoppedAt(tables, copy, k, r.events))
    decreases |tables|
  {
    if tables != [] {
      var n := |tables|;
      var init := tables[..n - 1];
      var prev := Orchestrate(init, copy);
      var r := Orchestrate(tables, copy);
      OrchestrateShape(init, copy);
      assert forall k :: 0 <= k < n - 1 ==> init[k] == tables[k];
      if !prev.completed {
        var k :| 0 <= k < n - 1 && StoppedAt(init, copy, k, prev.events);
        assert init[..k] == tables[..k];
        assert StoppedAt(tables, copy, k, r.events);
      } else if !copy(tables[n - 1]).completed {
        assert StoppedAt(tables, copy, n - 1, r.events);
      }
    }
  }

  /** One more table after a completed run: it is replicated, or the run stops in its export. */
  lemma OrchestrateExtend(tables: seq<Table>, copy: Table -> Run, t: Table)
    requires Orchestrate(tables, copy).completed
    ensures var prev := Orchestrate(tables, copy);
      Orchestrate(tables + [t], copy)
        == if copy(t).completed then Run(prev.events + TableEvents(t, copy), true)
           else Run(prev.events + [EnsureTable(t)] + copy(t).events, false)
  {
    assert (tables + [t])[..|tables|] == tables;
  }

  /** Once a table's export failed, the tables after it change nothing. */
  lemma {:induction false} OrchestrateStopped(tables: seq<Table>, copy: Table -> Run, k: nat)
    requires k <= |tables|
    requires !Orchestrate(tables[..k], copy).completed
    ensures Orchestrate(tables, copy) == Orchestrate(tables[..k], copy)
    decreases |tables|
  {
    if k < |tables| {
      var init := tables[..|tables| - 1];
      assert init[..k] == tables[..k];
      OrchestrateStopped(init, copy, k);
    } else {
      assert tables[..k] == tables;
    }
  }

  /** An event with the outcome of a delete forgotten. */
  function Blind(e: Event): Event {
    if e.DeleteObject? then DeleteObject(e.key, false) else e
  }

  function BlindAll(es: seq<Event>): (bs: seq<Event>)
    ensures |bs| == |es|
  {
    if es == [] then [] else [Blind(es[0])] + BlindAll(es[1..])
  }

  lemma {:induction false} BlindAllAppend(a: seq<Event>, b: seq<Event>)
    ensures BlindAll(a + b) == BlindAll(a) + BlindAll(b)
  {
    if a == [] {
      assert a + b == b;
    } else {
      assert (a + b)[1..] == a[1..] + b;
      BlindAllAppend(a[1..], b);
    }
  }

  lemma {:induction false} PutChunksIgnoresDelete(env: Environment, delete: Key -> DeleteResponse, target: string, chunks: seq<seq<byte>>)
    ensures PutChunks(env.(delete := delete), target, chunks) == PutChunks(env, target, chunks)
    decreases |chunks|
  {
    if chunks != [] {
      PutChunksIgnoresDelete(env, delete, target, chunks[..|chunks| - 1]);
    }
  }

  lemma CopyTableIgnoresDelete(env: Environment, delete: Key -> DeleteResponse, t: Table)
    ensures var c := CopyTableRun(env, t);
      var c' := CopyTableRun(env.(delete := delete), t);
      c'.completed == c.completed && BlindAll(c'.events) == BlindAll(c.events)
  {
    var env' := env.(delete := delete);
    PutChunksIgnoresDelete(env, delete, t.targetName, Chunks(env.rows(t), ChunkSize));
    CopyTableParts(env, t);
    CopyTableParts(env', t);
    var key := ExportKey(t.targetName);
    var up := PutChunks(env, t.targetName, Chunks(env.rows(t), ChunkSize));
    var exporting := ExportRows(t.name, t.columnsForCopy);
    var head := [DeleteObject(key, ObjectDeleted(env.delete(key))), exporting];
    var head' := [DeleteObject(key, ObjectDeleted(delete(key))), exporting];
    assert BlindAll(head') == BlindAll(head) by {
      assert head[1..] == head'[1..] == [exporting];
    }
    var rest := up.events + (if up.completed then [ResetSource] else []);
    BlindAllExtend(head, head', rest, rest);
    assert CopyTableRun(env, t).events == head + rest;
    assert CopyTableRun(env', t).events == head' + rest;
  }

  /** Appending the same events to two traces that agree but for delete outcomes keeps them so. */
  lemma BlindAllExtend(a: seq<Event>, a': seq<Event>, b: seq<Event>, b': seq<Event>)
    requires BlindAll(a') == BlindAll(a) && BlindAll(b') == BlindAll(b)
    ensures BlindAll(a' + b') == BlindAll(a + b)
  {
    BlindAllAppend(a, b);
    BlindAllAppend(a', b');
  }

  /**
   * The orchestrator only looks at whether an export completed: two copy
   * steps that complete alike and differ only in delete outcomes give runs
   * that complete alike and differ only in delete outcomes.
   */
  lemma {:induction false} OrchestrateBlind(tables: seq<Table>, copy: Table -> Run, copy': Table -> Run)
    requires forall i :: 0 <= i < |tables| ==>
      copy'(tables[i]).completed == copy(tables[i]).completed
      && BlindAll(copy'(tables[i]).events) == BlindAll(copy(tables[i]).events)
    ensures var r, r' := Orchestrate(tables, copy), Orchestrate(tables, copy');
      r'.completed == r.completed && BlindAll(r'.events) == BlindAll(r.events)
    decreases |tables|
  {
    if tables != [] {
      var n := |tables|;
      var init := tables[..n - 1];
      var t := tables[n - 1];
      assert forall i :: 0 <= i < |init| ==> init[i] == tables[i];
      OrchestrateBlind(init, copy, copy');
      var prev, prev' := Orchestrate(init, copy), Orchestrate(init, copy');
      var c, c' := copy(t), copy'(t);
      assert c'.completed == c.completed && BlindAll(c'.events) == BlindAll(c.events);
      if prev.completed {
        var ensure := [EnsureTable(t)];
        BlindAllExtend(prev.events, prev'.events, ensure, ensure);
        if c.completed {
          TableEventsBlind(t, copy, copy');
          BlindAllExtend(prev.events, prev'.events, TableEvents(t, copy), TableEvents(t, copy'));
        } else {
          BlindAllExtend(prev.events + ensure, prev'.events + ensure, c.events, c'.events);
        }
      }
    }
  }

  lemma TableEventsBlind(t: Table, copy: Table -> Run, copy': Table -> Run)
    requires BlindAll(copy'(t).events) == BlindAll(copy(t).events)
    ensures BlindAll(TableEvents(t, copy')) == BlindAll(TableEvents(t, copy))
  {
    var ensure, load := [EnsureTable(t)], Executed(LoadStatements(t));
    BlindAllExtend(ensure, ensure, copy(t).events, copy'(t).events);
    BlindAllExtend(ensure + copy(t).events, ensure + copy'(t).events, load, load);
  }

  /**
   * A delete is advisory: whatever the store answers to the pre-deletes,
   * the run does the same thing and completes or stops alike.
   */
  lemma DeleteOutcomeIsAdvisory(env: Environment, delete: Key -> DeleteResponse, tables: seq<Table>)
    ensures var r := UpdateTablesRun(env, tables);
      var r' := UpdateTablesRun(env.(delete := delete), tables);
      r'.completed == r.completed && BlindAll(r'.events) == BlindAll(r.events)
  {
    var env' := env.(delete := delete);
    forall i | 0 <= i < |tables|
      ensures CopyTableRun(env', tables[i]).completed == CopyTableRun(env, tables[i]).completed
      ensures BlindAll(CopyTableRun(env', tables[i]).events) == BlindAll(CopyTableRun(env, tables[i]).events)
    {
      CopyTableIgnoresDelete(env, delete, tables[i]);
    }
    OrchestrateBlind(tables, t => CopyTableRun(env, t), t => CopyTableRun(env', t));
  }

  /** The key of an upload ends in a digit, and a bulk load names the unsuffixed key of its table. */
  predicate KeyShaped(e: Event) {
    && (e.PutObject? ==> |e.key| > 0 && IsDigit(e.key[|e.key| - 1]))
    && (e.Execute? && e.statement.CopyFrom? ==> e.statement.key == ExportKey(e.statement.table))
  }

  lemma {:induction false} PutChunksKeysShaped(env: Environment, target: string, chunks: seq<seq<byte>>)
    ensures forall e :: e in PutChunks(env, target, chunks).events ==> KeyShaped(e)
    decreases |chunks|
  {
    if chunks != [] {
      PutChunksKeysShaped(env, target, chunks[..|chunks| - 1]);
    }
  }

  lemma {:induction false} OrchestrateKeysShaped(tables: seq<Table>, copy: Table -> Run)
    requires forall t, e :: t in tables && e in copy(t).events ==> KeyShaped(e)
    ensures forall e :: e in Orchestrate(tables, copy).events ==> KeyShaped(e)
    decreases |tables|
  {
    if tables != [] {
      var n := |tables|;
      var t := tables[n - 1];
      OrchestrateKeysShaped(tables[..n - 1], copy);
      assert forall e :: e in Executed(LoadStatements(t)) ==> KeyShaped(e);
    }
  }

  lemma KeysShapedRun(env: Environment, tables: seq<Table>)
    ensures forall e :: e in UpdateTablesRun(env, tables).events ==> KeyShaped(e)
  {
    forall t, e | t in tables && e in CopyTableRun(env, t).events
      ensures KeyShaped(e)
    {
      PutChunksKeysShaped(env, t.targetName, Chunks(env.rows(t), ChunkSize));
      CopyTableParts(env, t);
    }
    OrchestrateKeysShaped(tables, t => CopyTableRun(env, t));
  }

  /**
   * The load names the unsuffixed key `export/<t>.psv.gz` while every chunk
   * is uploaded under a numbered key, so in any run no key a bulk load
   * statement names is a key that was uploaded.
   */
  lemma CopyKeyIsNeverAPutKey(env: Environment, tables: seq<Table>)
    ensures var es := UpdateTablesRun(env, tables).events;
      forall i, j :: 0 <= i < |es| && 0 <= j < |es| && es[i].Execute? && es[i].statement.CopyFrom? && es[j].PutObject?
        ==> es[i].statement.key != es[j].key
  {
    KeysShapedRun(env, tables);
    var es := UpdateTablesRun(env, tables).events;
    forall i, j | 0 <= i < |es| && 0 <= j < |es| && es[i].Execute? && es[i].statement.CopyFrom? && es[j].PutObject?
      ensures es[i].statement.key != es[j].key
    {
      assert KeyShaped(es[i]) && KeyShaped(es[j]);
    }
  }
}
