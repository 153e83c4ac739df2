/**
 * The replication process itself, as the object that carries it out. Its
 * state is the trace of effects it has had so far and whether it has
 * stopped the process; the answers of the outside world come from a fixed
 * Environment. Each method is proved to leave exactly the trace its
 * specification function in module Replication describes.
 */
module Pipeline {

  import opened ObjectKeys
  import opened Gateway
  import opened Chunking
  import opened Warehouse
  import opened Replication

  /**
   * The compressing writer over a temporary file that one chunk is written
   * to. Compression is the identity here, so the sink holds the bytes
   * written to it and its position is their number.
   */
  class Sink {
    var data: seq<byte>

    constructor()
      ensures data == []
    {
      data := [];
    }

    /** Uncompressed bytes written so far. */
    function Pos(): nat
      reads this
    {
      |data|
    }

    method Write(buf: Buffer)
      modifies this
      ensures data == old(data) + buf
    {
      data := data + buf;
    }
  }

  class PostgresToRedshift {
    const env: Environment
    /** The effects so far, in order. */
    var trace: seq<Event>
    /** Whether a refused upload has stopped the process. */
    var exited: bool

    constructor(env: Environment)
      ensures this.env == env && trace == [] && !exited
    {
      this.env := env;
      trace := [];
      exited := false;
    }

    /** One statement sent to the target connection. */
    method Exec(s: Statement)
      modifies this
      ensures trace == old(trace) + [Execute(s)] && exited == old(exited)
    {
      trace := trace + [Execute(s)];
    }

    /**
     * Puts one chunk under its numbered key; a refused upload stops the
     * process.
     */
    method UploadTable(t: Table, buffer: seq<byte>, chunk: nat)
      requires !exited
      modifies this
      ensures var key := ChunkKey(t.targetName, chunk);
        var ok := ObjectUploaded(env.put(key, buffer));
        trace == old(trace) + [PutObject(key, buffer, ok)] && exited == !ok
    {
      var objectName := ChunkKey(t.targetName, chunk);
      var ok := ObjectUploaded(env.put(objectName, buffer));
      trace := trace + [PutObject(objectName, buffer, ok)];
      if !ok {
        exited := true;
      }
    }

    /**
     * Exports one table: deletes the unsuffixed export key, streams the
     * table's rows into a sink, cuts and uploads the sink whenever it holds
     * more than ChunkSize bytes, uploads the last sink when the stream ends
     * and resets the source connection.
     */
    method CopyTable(t: Table)
      requires !exited
      modifies this
      ensures trace == old(trace) + CopyTableRun(env, t).events
      ensures exited == !CopyTableRun(env, t).completed
    {
      ghost var pre := trace;
      var zip := new Sink();
      var chunk := 1;
      var objectName := ExportKey(t.targetName);
      var deleted := ObjectDeleted(env.delete(objectName));
      trace := trace + [DeleteObject(objectName, deleted)];
      trace := trace + [ExportRows(t.name, t.columnsForCopy)];
      var rows := env.rows(t);
      ghost var head := trace;
      ghost var all := Groups(rows, ChunkSize, []);
      ghost var done: seq<seq<Buffer>> := [];
      ghost var group: seq<Buffer> := [];
      assert rows[0..] == rows;
      var i := 0;
      while i < |rows|
        invariant 0 <= i <= |rows|
        invariant fresh(zip)
        invariant zip.data == Concat(group) && |Concat(group)| <= ChunkSize
        invariant done + Groups(rows[i..], ChunkSize, group) == all
        invariant chunk == |done| + 1
        invariant PutChunks(env, t.targetName, Contents(done)).completed && !exited
        invariant trace == head + PutChunks(env, t.targetName, Contents(done)).events
      {
        zip.Write(rows[i]);
        WriteKeepsSplit(rows, i, ChunkSize, done, group, all);
        group := group + [rows[i]];
        if zip.Pos() > ChunkSize {
          UploadNext(env, t.targetName, done, group, head);
          UploadTable(t, zip.data, chunk);
          done := done + [group];
          if exited {
            StopInExport(env, t, done, i + 1, pre, head);
            return;
          }
          chunk := chunk + 1;
          zip := new Sink();
          group := [];
        }
        i := i + 1;
      }
      assert rows[i..] == [];
      FinishExport(env, t, done, group, pre, head);
      UploadTable(t, zip.data, chunk);
      if !exited {
        trace := trace + [ResetSource];
      }
    }

    /** The rename-swap load of one exported table, one statement after another. */
    method ImportTable(t: Table)
      modifies this
      ensures trace == old(trace) + Executed(LoadStatements(t)) && exited == old(exited)
    {
      var updating := UpdatingName(t.targetName);
      Exec(DropTableIfExists(updating));
      Exec(Begin);
      Exec(RenameTable(t.targetName, updating));
      Exec(CreateTable(t.targetName, t.columnsForCreate));
      Exec(CopyFrom(t.targetName, ExportKey(t.targetName)));
      Exec(Commit);
    }

    /**
     * The whole run over the source's tables in order: ensure the target
     * table, export it, load it. A refused upload ends the run inside that
     * table's export.
     */
    static method UpdateTables(env: Environment, tables: seq<Table>) returns (p: PostgresToRedshift)
      ensures fresh(p) && p.env == env
      ensures p.trace == UpdateTablesRun(env, tables).events
      ensures p.exited == !UpdateTablesRun(env, tables).completed
    {
      p := new PostgresToRedshift(env);
      var i := 0;
      while i < |tables|
        invariant 0 <= i <= |tables|
        invariant UpdateTablesRun(env, tables[..i]).completed && !p.exited
        invariant p.trace == UpdateTablesRun(env, tables[..i]).events
      {
        var t := tables[i];
        UpdateTablesStep(env, tables, i);
        p.Exec(CreateTableIfNotExists(t.targetName, t.columnsForCreate));
        p.CopyTable(t);
        if p.exited {
          UpdateTablesStopped(env, tables, i + 1);
          return;
        }
        p.ImportTable(t);
        i := i + 1;
      }
      assert tables[..i] == tables;
    }
  }

  /** Writing the next buffer of the stream to the open sink keeps the split on course. */
  lemma WriteKeepsSplit(bufs: seq<Buffer>, i: nat, limit: nat, done: seq<seq<Buffer>>, open: seq<Buffer>, all: seq<seq<Buffer>>)
    requires i < |bufs|
    requires done + Groups(bufs[i..], limit, open) == all
    ensures var g := open + [bufs[i]];
      && Concat(g) == Concat(open) + bufs[i]
      && (|Concat(g)| > limit ==> (done + [g]) + Groups(bufs[i + 1..], limit, []) == all)
      && (|Concat(g)| <= limit ==> done + Groups(bufs[i + 1..], limit, g) == all)
  {
    GroupsStep(bufs, i, limit, open);
    ConcatAppend(open, [bufs[i]]);
    ConcatSingle(bufs[i]);
  }

  /** Uploading the content of the group just cut extends the uploads by the next chunk. */
  lemma UploadNext(env: Environment, target: string, done: seq<seq<Buffer>>, g: seq<Buffer>, head: seq<Event>)
    requires PutChunks(env, target, Contents(done)).completed
    ensures var key := ChunkKey(target, |done| + 1);
      var ok := ObjectUploaded(env.put(key, Concat(g)));
      var up := PutChunks(env, target, Contents(done + [g]));
      && up.completed == ok
      && head + up.events == head + PutChunks(env, target, Contents(done)).events + [PutObject(key, Concat(g), ok)]
  {
    PutChunksExtend(env, target, Contents(done), Concat(g));
    ContentsAppend(done, [g]);
  }

  /**
   * An export that stopped at the upload of the last group in `done` left
   * the trace its specification describes.
   */
  lemma StopInExport(env: Environment, t: Table, done: seq<seq<Buffer>>, i: nat, pre: seq<Event>, head: seq<Event>)
    requires i <= |env.rows(t)|
    requires done + Groups(env.rows(t)[i..], ChunkSize, []) == Groups(env.rows(t), ChunkSize, [])
    requires !PutChunks(env, t.targetName, Contents(done)).completed
    requires var key := ExportKey(t.targetName);
      head == pre + [DeleteObject(key, ObjectDeleted(env.delete(key)))] + [ExportRows(t.name, t.columnsForCopy)]
    ensures head + PutChunks(env, t.targetName, Contents(done)).events == pre + CopyTableRun(env, t).events
    ensures !CopyTableRun(env, t).completed
  {
    var all := Groups(env.rows(t), ChunkSize, []);
    var rest := Groups(env.rows(t)[i..], ChunkSize, []);
    ContentsAppend(done, rest);
    assert Contents(all)[..|done|] == Contents(done);
    PutChunksStopped(env, t.targetName, Contents(all), |done|);
    CopyTableParts(env, t);
  }

  /**
   * An export whose stream ended with `last` open, all earlier groups
   * uploaded, finishes with the upload of `last` and, if that was
   * acknowledged, the reset of the source.
   */
  lemma FinishExport(env: Environment, t: Table, done: seq<seq<Buffer>>, last: seq<Buffer>, pre: seq<Event>, head: seq<Event>)
    requires done + [last] == Groups(env.rows(t), ChunkSize, [])
    requires PutChunks(env, t.targetName, Contents(done)).completed
    requires var key := ExportKey(t.targetName);
      head == pre + [DeleteObject(key, ObjectDeleted(env.delete(key)))] + [ExportRows(t.name, t.columnsForCopy)]
    ensures var key := ChunkKey(t.targetName, |done| + 1);
      var ok := ObjectUploaded(env.put(key, Concat(last)));
      && CopyTableRun(env, t).completed == ok
      && pre + CopyTableRun(env, t).events
         == head + PutChunks(env, t.targetName, Contents(done)).events + [PutObject(key, Concat(last), ok)]
            + (if ok then [ResetSource] else [])
  {
    UploadNext(env, t.targetName, done, last, head);
    CopyTableParts(env, t);
    var key := ExportKey(t.targetName);
    var up := PutChunks(env, t.targetName, Contents(done + [last]));
    assert Chunks(env.rows(t), ChunkSize) == Contents(done + [last]);
    assert CopyTableRun(env, t).events
        == [DeleteObject(key, ObjectDeleted(env.delete(key))), ExportRows(t.name, t.columnsForCopy)]
           + up.events + (if up.completed then [ResetSource] else []);
  }
}
