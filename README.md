# postgres_to_redshift, modelled in Dafny

This project models the replication pipeline of `postgres_to_redshift`. The
pipeline copies every table of a PostgreSQL source into Amazon Redshift in
three steps per table:

1. it ensures the target table exists (`CREATE TABLE IF NOT EXISTS`);
2. it exports the table (`copy_table`). The pre-existing export object is
   deleted, the table is streamed out with `COPY ... TO STDOUT`, and the
   stream is written into gzip sinks. A sink is cut as soon as it holds more
   than 1 GiB of uncompressed bytes, and each sink is uploaded to S3 as a
   numbered chunk. A refused upload stops the process;
3. it loads the export with a rename swap (`import_table`). The leftover
   `<t>_updating` table is dropped. Then, inside one transaction, the live
   table is renamed to `<t>_updating`, recreated and filled with `COPY ...
   FROM` the export key.

The model has six modules, one file each:

- `ObjectKeys` (`keys.dfy`) builds the object keys. The pre-deleted and
  loaded key is `export/<t>.psv.gz`. Chunk `n` is uploaded under
  `export/<t>.psv.gz.<n>`.
- `Gateway` (`gateway.dfy`) maps an S3 response, or the error it raised, to
  the boolean the pipeline acts on (`object_uploaded?`, `object_deleted?`).
- `Chunking` (`chunking.dfy`) splits the stream of buffers into chunks. It
  holds the round-trip and size-bound lemmas. It also gives an independent
  characterisation of a correct split (`WellCut`) and proves it unique.
- `Warehouse` (`warehouse.dfy`) has the statements sent to Redshift, as
  values, and the rename-swap sequence.
- `Replication` (`replication.dfy`) is the specification of a run. A run is
  the trace of effects it leaves (deletes, the export stream, puts, the
  source reset, statements) and a flag telling whether it completed or
  stopped the process. The lemmas about whole runs live here.
- `Pipeline` (`pipeline.dfy`) is the imperative model. The class
  `PostgresToRedshift` has a `trace` field and an `exited` field. Its
  methods `UploadTable`, `CopyTable`, `ImportTable` and `UpdateTables` loop
  and update state as the Ruby methods do, and each is proved to leave
  exactly the trace of its specification function. The gzip writer over a
  temp file is the class `Sink`.

The outside world is a parameter, an `Environment` with three total
functions:

- S3's response to a put of given bytes under a given key;
- S3's response to a delete of a given key;
- the buffers the source's bulk export yields for a table.

The compressor is the identity, so a chunk's bytes are the bytes written to
its sink and `zip.pos` is their number.

The load statement names the unsuffixed key `export/<t>.psv.gz`, but every
upload goes to a key ending in `.<n>`. The model reproduces this as the code
has it and does not correct it. `CopyKeyIsNeverAPutKey` states the
consequence: in every run, no key a `COPY ... FROM` names is a key that was
uploaded. `ChunkKeyIsNotExportKey` states the other side: the pre-delete
never removes an uploaded chunk. Which objects Redshift then loads for
that name is outside the model (see "## Left out").

Two consequences of the code that are easy to miss:

- The chunk count is not `ceil(total / 1 GiB)`. A sink is cut only when it
  holds strictly more than the limit, and the last sink is always uploaded,
  even when it is empty. `Chunking.ChunksCountBound` gives the bound that
  holds, and `Chunking.SmallStreamIsOneChunk` shows that a stream within
  the limit gives a single chunk.
- The pre-delete removes only the unsuffixed key, never a numbered chunk,
  so chunks left by an earlier, longer export remain.

## Model

| member | source | states |
|---|---|---|
| ObjectKeys.Decimal | lib/postgres_to_redshift.rb:172 | the chunk number is rendered as a non-empty string of decimal digits |
| ObjectKeys.DecimalRoundTrip | lib/postgres_to_redshift.rb:172 | reading the rendered chunk number back as decimal gives the number |
| ObjectKeys.ExportKeyShape | lib/postgres_to_redshift.rb:135 | the export key is `export/`, the target name, then `.psv.gz`; it does not end in a digit |
| ObjectKeys.ChunkKeyShape | lib/postgres_to_redshift.rb:172 | the key of chunk n is the export key, a dot, and digits that read back as n; it ends in a digit |
| ObjectKeys.ChunkKeyIsNotExportKey | lib/postgres_to_redshift.rb:135-136 | no chunk key of any table equals the unsuffixed export key of any table |
| ObjectKeys.ChunkKeyInjective | lib/postgres_to_redshift.rb:172 | two chunk numbers of one table give the same key only if they are equal |
| Gateway.ObjectUploaded | lib/postgres_to_redshift.rb:93-107 | a put succeeds exactly when the response carries an etag; a raised error is a failure |
| Gateway.ObjectDeleted | lib/postgres_to_redshift.rb:109-128 | a delete succeeds exactly when the response lists one deleted object; a raised error is a failure |
| Chunking.Groups | lib/postgres_to_redshift.rb:145-162 | the buffers of each chunk: at least one chunk, because the last sink is uploaded after the stream ends |
| Chunking.Chunks | lib/postgres_to_redshift.rb:145-162 | the chunk contents in chunk-number order; there is at least one |
| Chunking.GroupsFrom | lib/postgres_to_redshift.rb:145-162 | from any open sink within the limit, the chunks hold the open buffers then the rest of the stream, and the split is well cut |
| Chunking.GroupsAreWholeBuffers | lib/postgres_to_redshift.rb:145-162 | the chunks are made of whole buffers that, in order, are exactly the stream's buffers |
| Chunking.GroupsAreWellCut | lib/postgres_to_redshift.rb:147-148 | each chunk but the last was cut at the first write that took it above the limit; the last never exceeded it |
| Chunking.WellCutUnique | lib/postgres_to_redshift.rb:147-148 | any two well-cut splits of the same stream are equal, so the split is fully determined by the cut rule |
| Chunking.CutIsFirstCrossing | lib/postgres_to_redshift.rb:147-148 | a shorter prefix of a chunk that was cut is still within the limit |
| Chunking.SingleChunkIsOnlyCut | lib/postgres_to_redshift.rb:147-148 | a stream that stays within the limit has only single-chunk well-cut splits |
| Chunking.ConcatContents | lib/postgres_to_redshift.rb:145-162 | concatenating chunk contents equals concatenating all their buffers |
| Chunking.ChunksRoundTrip | lib/postgres_to_redshift.rb:145-162 | the chunks, concatenated in order, give back the stream's bytes |
| Chunking.ChunkSizes | lib/postgres_to_redshift.rb:147-148 | every chunk but the last holds strictly more than the limit; the last holds at most the limit |
| Chunking.ChunkCountBound | lib/postgres_to_redshift.rb:147-152 | with every chunk but the last above the limit, the chunks hold at least (count - 1) * (limit + 1) bytes |
| Chunking.ChunksCountBound | lib/postgres_to_redshift.rb:145-162 | a stream split into n chunks holds at least (n - 1) * (limit + 1) bytes |
| Chunking.SmallStreamIsOneChunk | lib/postgres_to_redshift.rb:145-162 | a stream of at most limit bytes is split into exactly one chunk |
| Warehouse.UpdatingName | lib/postgres_to_redshift.rb:186 | the parking name strictly extends the target name |
| Warehouse.RenameSwapOrder | lib/postgres_to_redshift.rb:186-196 | six statements: drop `<t>_updating`, BEGIN, rename `<t>` to exactly the dropped name, create `<t>`, copy from the unsuffixed key, COMMIT; nothing else inside the transaction |
| Replication.PutChunksSize | lib/postgres_to_redshift.rb:145-162 | at most one put per chunk, at least one when there are chunks, exactly one per chunk when all were acknowledged |
| Replication.PutChunksAt | lib/postgres_to_redshift.rb:145-178 | the i-th put is chunk i + 1 with the i-th content and the store's answer; all puts before the last were acknowledged, and the run goes on exactly when the last was |
| Replication.PutChunksUploaded | lib/postgres_to_redshift.rb:145-178 | the acknowledged contents are a prefix of the chunks: all of them if the run completed, all puts but the refused one otherwise |
| Replication.PutChunksStopped | lib/postgres_to_redshift.rb:173-178 | after a refused put, later chunks add nothing to the run |
| Replication.CopyTableRoundTrip | lib/postgres_to_redshift.rb:145-162 | a completed export uploaded exactly the chunks, which concatenate to the streamed bytes; a stopped one uploaded a prefix of them |
| Replication.CopyTableShape | lib/postgres_to_redshift.rb:130-168 | the delete and the stream come first, at least one chunk is put, and the source is reset last exactly on completion |
| Replication.CopyTableUploadAt | lib/postgres_to_redshift.rb:134-172 | the puts of an export are chunks 1..n in order, with their contents; all but the last acknowledged |
| Replication.ChunkKeysDistinct | lib/postgres_to_redshift.rb:151-172 | no key is put twice in one export |
| Replication.EmptyStream | lib/postgres_to_redshift.rb:160-162 | an empty stream puts exactly one empty chunk, number 1 |
| Replication.OrchestrateShape | lib/postgres_to_redshift.rb:21-29 | a run completes exactly when every export did, and is then each table's ensure, export, load in order; a stopped run stopped in the first failed export after fully replicating the earlier tables |
| Replication.OrchestrateStopped | lib/postgres_to_redshift.rb:24-28 | once an export failed, later tables add nothing |
| Replication.UpdateTablesStopped | lib/postgres_to_redshift.rb:24-28 | the same stop for the run over the environment's exports |
| Replication.PutChunksIgnoresDelete | lib/postgres_to_redshift.rb:136-140 | the uploads do not depend on the store's delete answers |
| Replication.CopyTableIgnoresDelete | lib/postgres_to_redshift.rb:136-140 | an export with other delete answers completes alike and differs only in the delete outcome |
| Replication.TableEventsBlind | lib/postgres_to_redshift.rb:24-28 | a table's full trace differs only in delete outcomes when its export does |
| Replication.OrchestrateBlind | lib/postgres_to_redshift.rb:24-28 | the orchestrator looks only at whether an export completed |
| Replication.DeleteOutcomeIsAdvisory | lib/postgres_to_redshift.rb:136-140 | whatever the store answers to the pre-deletes, the run completes alike and does the same thing |
| Replication.PutChunksKeysShaped | lib/postgres_to_redshift.rb:172 | every put key ends in a digit |
| Replication.OrchestrateKeysShaped | lib/postgres_to_redshift.rb:24-28 | the orchestrator keeps put keys ending in a digit and load keys unsuffixed |
| Replication.KeysShapedRun | lib/postgres_to_redshift.rb:172-194 | in any run, every put key ends in a digit and every load names its table's unsuffixed key |
| Replication.CopyKeyIsNeverAPutKey | lib/postgres_to_redshift.rb:135-194 | in any run, no key a load statement names is a key that was put |
| Pipeline.Sink.constructor | lib/postgres_to_redshift.rb:131-132 | a fresh sink holds no bytes |
| Pipeline.Sink.Write | lib/postgres_to_redshift.rb:147 | a write appends the buffer to the sink |
| Pipeline.PostgresToRedshift.constructor | lib/postgres_to_redshift.rb:22 | a new pipeline has no effects and has not stopped |
| Pipeline.PostgresToRedshift.Exec | lib/postgres_to_redshift.rb:25 | one statement appended to the trace |
| Pipeline.PostgresToRedshift.UploadTable | lib/postgres_to_redshift.rb:170-180 | puts the buffer under the chunk's numbered key; the process stops exactly when the put was refused |
| Pipeline.PostgresToRedshift.CopyTable | lib/postgres_to_redshift.rb:130-168 | the loop leaves exactly the export trace of `CopyTableRun`, and stops the process exactly when that run did not complete |
| Pipeline.PostgresToRedshift.ImportTable | lib/postgres_to_redshift.rb:182-197 | appends exactly the rename-swap statements, in order |
| Pipeline.PostgresToRedshift.UpdateTables | lib/postgres_to_redshift.rb:21-29 | a new pipeline run over the tables leaves exactly the trace of `UpdateTablesRun` and has stopped exactly when that run did not complete |
| Pipeline.StopInExport | lib/postgres_to_redshift.rb:151-178 | an export stopped by a refused put left the trace its specification describes |

## Left out

- Connections are out of scope: PostgreSQL connection setup, the lazy class-level connections and the read-only session (lines 31-54, 60-66). The source reset at line 163 is a trace event only.
- Configuration comes from environment variables and is left out: `ENV`, the target schema, `SKIP_TABLES`, the bucket name, the credentials and URI parsing. Statements carry no schema, and keys carry no bucket.
- `quote_ident` is not modelled. Table names in statements are the target name as given.
- The catalog queries in `tables` and `column_definitions` are left out (lines 68-79), including the `^pg_` name filter. `Pipeline.PostgresToRedshift.UpdateTables` takes the list of tables as a parameter.
- `Table` and `Column` (lib/postgres_to_redshift/table.rb, column.rb) are not part of this model. The target name and the two column renderings are opaque strings.
- The S3 client construction and `bucket_objects` listing (lines 81-91) are thin SDK wrappers. Only the response-to-boolean mapping is modelled.
- Gzip compression is the identity. The temp file's lifecycle and the `ensure` cleanup are not modelled (lines 131-132, 153-156, 164-167).
- `Pipeline.PostgresToRedshift.UploadTable`: `exit 1` is modelled by setting `exited`. Every caller then returns at once, so nothing later is done. The exit status itself is not modelled.
- Errors raised by `exec` or `copy_data` on the database connections are not modelled. Every statement and the export stream are assumed to go through.
- What Redshift does with the statements (transactions, rollback, rename, what COPY loads) is not modelled. The properties are about the statements issued.
- Log output (`puts`) is not modelled, including the message at line 176 that says "uploaded." on a failed upload.
- S3's answer to a put is a function of the key and the bytes. The model does not capture answers that differ between two identical puts, which never occur within one export since its keys are distinct.
- Redshift treats the path in `COPY ... FROM` as a key prefix and loads every object whose key starts with it, so the statement at line 194 does load the numbered chunks, and also any stale higher-numbered chunks from an earlier, longer export. This prefix matching is not modelled: `Replication.CopyKeyIsNeverAPutKey` only shows that the key the statement names is never itself a key that was put.
