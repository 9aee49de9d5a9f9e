/** The upload half of the Streamlit page (app.py, lines 42-97): the file is
    dispatched on its type, its text is cut into chunks, and on "Upload to
    Supabase" every chunk is embedded and inserted into the `papers` table,
    one at a time, a failure on one chunk being reported and skipped. */
module Upload {
  import opened Remote
  import Text
  import Chunker
  import FileType

  /** The chunk-size slider: 300 to 1000 characters, 500 by default. */
  const MinChunkSize := 300
  const MaxChunkSize := 1000
  const DefaultChunkSize := 500

  /** A row of the `papers` table as the upload page writes it. */
  datatype Row = Row(title: string, chunk: string, embedding: Embedding)

  /** The answers the two remote calls give for one chunk: the embedding
      request, and the insert that is made only if the embedding came back. */
  datatype ChunkReplies = ChunkReplies(embedding: Outcome<Embedding>, insert: Outcome<()>)

  /** What the Streamlit page displays. The progress bar shows
      `progress / len(chunks)`; its numerator is kept as a whole number. */
  class Page {
    var infos: seq<string>
    var errors: seq<string>
    var successes: seq<string>
    var progress: nat
    var stopped: bool

    constructor ()
      ensures infos == [] && errors == [] && successes == [] && progress == 0 && !stopped
    {
      infos, errors, successes, progress, stopped := [], [], [], 0, false;
    }

    /** `st.info(message)`. */
    method Info(message: string)
      modifies this`infos
      ensures infos == old(infos) + [message]
    {
      infos := infos + [message];
    }

    /** `st.error(message)`. */
    method Error(message: string)
      modifies this`errors
      ensures errors == old(errors) + [message]
    {
      errors := errors + [message];
    }

    /** `st.success(message)`. */
    method Success(message: string)
      modifies this`successes
      ensures successes == old(successes) + [message]
    {
      successes := successes + [message];
    }

    /** `progress.progress(done / len(chunks))`. */
    method SetProgress(done: nat)
      modifies this`progress
      ensures progress == done
    {
      progress := done;
    }

    /** `st.stop()`: nothing after it on the page runs. */
    method Stop()
      modifies this`stopped
      ensures stopped
    {
      stopped := true;
    }
  }

  /** The OpenAI embedding endpoint as the page uses it. It records every
      request (model and input) it was sent; `reply` is what the service
      answers. */
  class EmbeddingClient {
    var requests: seq<EmbedRequest>

    constructor ()
      ensures requests == []
    {
      requests := [];
    }

    method Create(model: string, input: string, reply: Outcome<Embedding>) returns (r: Outcome<Embedding>)
      modifies this`requests
      ensures requests == old(requests) + [EmbedRequest(model, input)]
      ensures r == reply
    {
      requests := requests + [EmbedRequest(model, input)];
      r := reply;
    }
  }

  /** The Supabase `papers` table: a row is added when the insert succeeds. */
  class PapersTable {
    var rows: seq<Row>

    constructor ()
      ensures rows == []
    {
      rows := [];
    }

    method Insert(row: Row, reply: Outcome<()>) returns (r: Outcome<()>)
      modifies this`rows
      ensures r == reply
      ensures rows == if reply.Returned? then old(rows) + [row] else old(rows)
    {
      if reply.Returned? {
        rows := rows + [row];
      }
      r := reply;
    }
  }

  /** The Comet experiment the upload logs to. */
  class Experiment {
    var name: string
    var texts: seq<string>
    var others: seq<(string, string)>
    var ended: bool

    constructor ()
      ensures name == "" && texts == [] && others == [] && !ended
    {
      name, texts, others, ended := "", [], [], false;
    }

    method SetName(n: string)
      modifies this`name
      ensures name == n
    {
      name := n;
    }

    method LogText(text: string)
      modifies this`texts
      ensures texts == old(texts) + [text]
    {
      texts := texts + [text];
    }

    method LogOther(key: string, value: string)
      modifies this`others
      ensures others == old(others) + [(key, value)]
    {
      others := others + [(key, value)];
    }

    method End()
      modifies this`ended
      ensures ended
    {
      ended := true;
    }
  }

  function FoundMessage(count: nat): string
  {
    "\U{1F4E6} Found " + Text.Decimal(count) + " chunks to embed and store."
  }

  /** Lines 49-62: dispatch on the file type, pick the extracted text and
      cut it into chunks. `utf8Text` and `pdfText` stand for the two
      extractors' results (UTF-8 decoding, PyMuPDF); only the one the file
      type selects is used. */
  method PrepareUpload(page: Page, filename: string, utf8Text: string, pdfText: string, chunkSize: nat)
    returns (proceed: bool, chunks: seq<string>)
    requires MinChunkSize <= chunkSize <= MaxChunkSize
    modifies page
    ensures proceed <==> FileType.Dispatch(filename).Supported?
    ensures !proceed ==> (
      && chunks == [] && page.stopped
      && page.errors == old(page.errors) + [FileType.UnsupportedMessage]
      && page.infos == old(page.infos))
    ensures proceed ==> (
      var text := if FileType.Dispatch(filename).kind == FileType.Txt then utf8Text else pdfText;
      && chunks == Chunker.Chunks(text, chunkSize)
      && page.infos == old(page.infos) + [FoundMessage(|chunks|)]
      && page.errors == old(page.errors) && page.stopped == old(page.stopped))
    ensures page.successes == old(page.successes) && page.progress == old(page.progress)
  {
    var dispatched := FileType.Dispatch(filename);
    if dispatched.Unsupported? {
      page.Error(dispatched.message);
      page.Stop();
      return false, [];
    }
    var text := if dispatched.kind == FileType.Txt then utf8Text else pdfText;
    chunks := Chunker.Chunks(text, chunkSize);
    page.Info(FoundMessage(|chunks|));
    proceed := true;
  }

  /** The title every row of one upload carries. */
  function Title(filename: string): string
  {
    "Upload: " + filename
  }

  function ExperimentName(filename: string, count: nat): string
  {
    "Upload: " + filename + " (" + Text.Decimal(count) + " chunks)"
  }

  function PreviewText(firstChunk: string): string
  {
    "First chunk preview:\n" + firstChunk
  }

  /** The page error for a failed chunk, with its 1-based number. */
  function FailureMessage(number: nat, message: string): string
  {
    "\U{274C} Failed to insert chunk " + Text.Decimal(number) + ": " + message
  }

  /** The experiment key under which a failed chunk's exception is logged. */
  function FailureKey(number: nat): string
  {
    "Chunk " + Text.Decimal(number) + " failed"
  }

  function SuccessMessage(count: nat): string
  {
    "\U{2705} Uploaded " + Text.Decimal(count) + " chunks to Supabase and logged to Comet!"
  }

  /** The end result for one chunk: the embedding that was stored with it, or
      the message of the first call that raised. */
  function Attempt(r: ChunkReplies): Outcome<Embedding>
  {
    match r.embedding
    case Raised(m) => Raised(m)
    case Returned(v) =>
      match r.insert
      case Raised(m) => Raised(m)
      case Returned(_) => Returned(v)
  }

  /** The rows the first `n` chunks add to the table. */
  function StoredRows(title: string, chunks: seq<string>, replies: seq<ChunkReplies>, n: nat): seq<Row>
    requires n <= |chunks| == |replies|
  {
    if n == 0 then [] else StoredRows(title, chunks, replies, n - 1) + RowOf(title, chunks[n - 1], replies[n - 1])
  }

  /** The row chunk `chunk` adds to the table: one if both calls returned. */
  function RowOf(title: string, chunk: string, r: ChunkReplies): seq<Row>
  {
    match Attempt(r)
    case Returned(v) => [Row(title, chunk, v)]
    case Raised(_) => []
  }

  /** The page errors for the first `n` chunks. */
  function FailureMessages(replies: seq<ChunkReplies>, n: nat): seq<string>
    requires n <= |replies|
  {
    if n == 0 then [] else FailureMessages(replies, n - 1) + ErrorOf(n, replies[n - 1])
  }

  /** The page error for chunk number `number`: one if a call raised. */
  function ErrorOf(number: nat, r: ChunkReplies): seq<string>
  {
    match Attempt(r)
    case Returned(_) => []
    case Raised(m) => [FailureMessage(number, m)]
  }

  /** The experiment entries for the first `n` chunks. */
  function FailureLog(replies: seq<ChunkReplies>, n: nat): seq<(string, string)>
    requires n <= |replies|
  {
    if n == 0 then [] else FailureLog(replies, n - 1) + LogOf(n, replies[n - 1])
  }

  /** The experiment entry for chunk number `number`: one if a call raised. */
  function LogOf(number: nat, r: ChunkReplies): seq<(string, string)>
  {
    match Attempt(r)
    case Returned(_) => []
    case Raised(m) => [(FailureKey(number), m)]
  }

  /** The progress bar after the first `n` chunks: the 1-based number of the
      last chunk stored so far, 0 before any. */
  function Progress(replies: seq<ChunkReplies>, n: nat): nat
    requires n <= |replies|
  {
    if n == 0 then 0
    else if Attempt(replies[n - 1]).Returned? then n
    else Progress(replies, n - 1)
  }

  /** The indices, in increasing order, of the first `n` chunks that were
      stored, and of those that failed. */
  function Indices(replies: seq<ChunkReplies>, n: nat, stored: bool): seq<nat>
    requires n <= |replies|
  {
    if n == 0 then []
    else
      var prior := Indices(replies, n - 1, stored);
      if Attempt(replies[n - 1]).Returned? == stored then prior + [n - 1] else prior
  }

  predicate Increasing(s: seq<nat>)
  {
    forall j, k :: 0 <= j < k < |s| ==> s[j] < s[k]
  }

  /** Lines 77-94: the stored indices are exactly the chunks whose own calls
      both succeeded, and the failed ones exactly the chunks where a call
      raised, whatever happened to the other chunks; both lists are in chunk
      order. */
  lemma {:induction false} IndicesShape(replies: seq<ChunkReplies>, n: nat, stored: bool)
    requires n <= |replies|
    ensures var idx := Indices(replies, n, stored);
      && Increasing(idx)
      && (forall i: nat :: i in idx <==> i < n && Attempt(replies[i]).Returned? == stored)
  {
    if n > 0 {
      IndicesShape(replies, n - 1, stored);
      var prior := Indices(replies, n - 1, stored);
      assert forall j :: 0 <= j < |prior| ==> prior[j] in prior;
    }
  }

  /** Every chunk is either stored or failed: no chunk is skipped. */
  lemma {:induction false} IndicesCount(replies: seq<ChunkReplies>, n: nat)
    requires n <= |replies|
    ensures |Indices(replies, n, true)| + |Indices(replies, n, false)| == n
  {
    if n > 0 {
      IndicesCount(replies, n - 1);
    }
  }

  /** The table receives one row per stored chunk, in chunk order: the
      chunk's text, the upload title and the embedding the service returned
      for that chunk. */
  lemma {:induction false} StoredRowsAre(title: string, chunks: seq<string>, replies: seq<ChunkReplies>, n: nat)
    requires n <= |chunks| == |replies|
    ensures var ok := Indices(replies, n, true);
      && |StoredRows(title, chunks, replies, n)| == |ok|
      && forall k :: 0 <= k < |ok| ==>
           ok[k] < n
           && replies[ok[k]].embedding.Returned?
           && StoredRows(title, chunks, replies, n)[k]
              == Row(title, chunks[ok[k]], replies[ok[k]].embedding.value)
  {
    if n > 0 {
      StoredRowsAre(title, chunks, replies, n - 1);
      var ok, rows := Indices(replies, n - 1, true), StoredRows(title, chunks, replies, n - 1);
      var a := Attempt(replies[n - 1]);
      if a.Returned? {
        assert Indices(replies, n, true) == ok + [n - 1];
        assert StoredRows(title, chunks, replies, n) == rows + [Row(title, chunks[n - 1], a.value)];
      } else {
        assert Indices(replies, n, true) == ok && StoredRows(title, chunks, replies, n) == rows;
      }
    }
  }

  /** One page error per failed chunk, in chunk order, labelled with the
      chunk's 1-based number and carrying the message of the call that
      raised. */
  lemma {:induction false} FailureMessagesAre(replies: seq<ChunkReplies>, n: nat)
    requires n <= |replies|
    ensures var bad := Indices(replies, n, false);
      && |FailureMessages(replies, n)| == |bad|
      && forall k :: 0 <= k < |bad| ==>
           bad[k] < n && Attempt(replies[bad[k]]).Raised?
           && FailureMessages(replies, n)[k] == FailureMessage(bad[k] + 1, Attempt(replies[bad[k]]).message)
  {
    if n > 0 {
      FailureMessagesAre(replies, n - 1);
      var bad, msgs := Indices(replies, n - 1, false), FailureMessages(replies, n - 1);
      var a := Attempt(replies[n - 1]);
      if a.Raised? {
        assert Indices(replies, n, false) == bad + [n - 1];
        assert FailureMessages(replies, n) == msgs + [FailureMessage(n, a.message)];
      } else {
        assert Indices(replies, n, false) == bad && FailureMessages(replies, n) == msgs;
      }
    }
  }

  /** One experiment entry per failed chunk, in chunk order, keyed by the
      chunk's 1-based number, with the message of the call that raised. */
  lemma {:induction false} FailureLogIs(replies: seq<ChunkReplies>, n: nat)
    requires n <= |replies|
    ensures var bad := Indices(replies, n, false);
      && |FailureLog(replies, n)| == |bad|
      && forall k :: 0 <= k < |bad| ==>
           bad[k] < n && Attempt(replies[bad[k]]).Raised?
           && FailureLog(replies, n)[k] == (FailureKey(bad[k] + 1), Attempt(replies[bad[k]]).message)
  {
    if n > 0 {
      FailureLogIs(replies, n - 1);
      var bad, log := Indices(replies, n - 1, false), FailureLog(replies, n - 1);
      var a := Attempt(replies[n - 1]);
      if a.Raised? {
        assert Indices(replies, n, false) == bad + [n - 1];
        assert FailureLog(replies, n) == log + [(FailureKey(n), a.message)];
      } else {
        assert Indices(replies, n, false) == bad && FailureLog(replies, n) == log;
      }
    }
  }

  /** The number of decimal digits `s` starts with. */
  function LeadingDigits(s: string): nat
  {
    if s == [] || !Text.IsDigit(s[0]) then 0 else 1 + LeadingDigits(s[1..])
  }

  lemma {:induction false} LeadingDigitsOfNumber(digits: string, rest: string)
    requires forall i :: 0 <= i < |digits| ==> Text.IsDigit(digits[i])
    ensures LeadingDigits(digits + ": " + rest) == |digits|
    decreases |digits|
  {
    if digits != [] {
      LeadingDigitsOfNumber(digits[1..], rest);
      assert (digits + ": " + rest)[1..] == digits[1..] + ": " + rest;
    }
  }

  /** Two failure messages for different chunks always differ, whatever the
      exception texts are. */
  lemma FailureMessageDistinct(a: nat, b: nat, ma: string, mb: string)
    requires FailureMessage(a, ma) == FailureMessage(b, mb)
    ensures a == b
  {
    var head := "\U{274C} Failed to insert chunk ";
    var da, db := Text.Decimal(a), Text.Decimal(b);
    var x, y := FailureMessage(a, ma), FailureMessage(b, mb);
    assert x == head + (da + ": " + ma);
    assert y == head + (db + ": " + mb);
    assert x[|head|..] == da + ": " + ma;
    LeadingDigitsOfNumber(da, ma);
    LeadingDigitsOfNumber(db, mb);
    assert |da| == |db|;
    assert da == x[|head|..|head| + |da|] == db;
    Text.DecimalInjective(a, b);
  }

  /** The progress bar reaches the end exactly when the last chunk is
      stored, whatever failed before it; it stays at 0 exactly when nothing
      is stored; and it never passes the chunks attempted. */
  lemma {:induction false} ProgressReading(replies: seq<ChunkReplies>, n: nat)
    requires n <= |replies|
    ensures Progress(replies, n) <= n
    ensures n > 0 ==> (Progress(replies, n) == n <==> Attempt(replies[n - 1]).Returned?)
    ensures Progress(replies, n) == 0 <==> forall i :: 0 <= i < n ==> Attempt(replies[i]).Raised?
    ensures Progress(replies, n) > 0 ==> Attempt(replies[Progress(replies, n) - 1]).Returned?
    ensures forall j :: Progress(replies, n) <= j < n ==> Attempt(replies[j]).Raised?
  {
    if n > 0 {
      ProgressReading(replies, n - 1);
    }
  }

  /** The embedding requests for the first `n` chunks, in order, each for
      the `text-embedding-ada-002` model. */
  function EmbedRequests(chunks: seq<string>, n: nat): (r: seq<EmbedRequest>)
    requires n <= |chunks|
    ensures |r| == n
    ensures forall k :: 0 <= k < n ==> r[k] == EmbedRequest(EmbeddingModel, chunks[k])
  {
    if n == 0 then [] else EmbedRequests(chunks, n - 1) + [EmbedRequest(EmbeddingModel, chunks[n - 1])]
  }

  /** Lines 77-94, the loop over the chunks: every chunk is sent to the
      embedding service in order; a chunk is inserted only when its embedding
      came back; a failure is reported with the chunk's 1-based number and
      the loop goes on; the progress bar moves only on a successful insert.
      The stored rows, page errors, experiment entries and progress are
      those of the specification functions above. */
  method IngestChunks(page: Page, client: EmbeddingClient, table: PapersTable, experiment: Experiment,
                      title: string, chunks: seq<string>, replies: seq<ChunkReplies>)
    requires |replies| == |chunks| && page.progress == 0
    modifies page`errors, page`progress, client`requests, table`rows, experiment`others
    ensures client.requests == old(client.requests) + EmbedRequests(chunks, |chunks|)
    ensures table.rows == old(table.rows) + StoredRows(title, chunks, replies, |chunks|)
    ensures page.errors == old(page.errors) + FailureMessages(replies, |chunks|)
    ensures page.progress == Progress(replies, |chunks|)
    ensures experiment.others == old(experiment.others) + FailureLog(replies, |chunks|)
  {
    for i := 0 to |chunks|
      invariant client.requests == old(client.requests) + EmbedRequests(chunks, i)
      invariant table.rows == old(table.rows) + StoredRows(title, chunks, replies, i)
      invariant page.errors == old(page.errors) + FailureMessages(replies, i)
      invariant page.progress == Progress(replies, i)
      invariant experiment.others == old(experiment.others) + FailureLog(replies, i)
    {
      IngestChunk(page, client, table, experiment, title, chunks, replies, i);
      AppendAssoc(old(client.requests), EmbedRequests(chunks, i), [EmbedRequest(EmbeddingModel, chunks[i])]);
      AppendAssoc(old(table.rows), StoredRows(title, chunks, replies, i), RowOf(title, chunks[i], replies[i]));
      AppendAssoc(old(page.errors), FailureMessages(replies, i), ErrorOf(i + 1, replies[i]));
      AppendAssoc(old(experiment.others), FailureLog(replies, i), LogOf(i + 1, replies[i]));
    }
  }

  lemma AppendAssoc<T>(a: seq<T>, b: seq<T>, c: seq<T>)
    ensures a + b + c == a + (b + c)
  {
  }


  /** One pass of the loop body (lines 78-94) for chunk `i`: the chunk is
      embedded; if that succeeds it is inserted, and a successful insert
      moves the progress bar to `i + 1`; a call that raises is reported on
      the page and in the experiment with the number `i + 1`. */
  method IngestChunk(page: Page, client: EmbeddingClient, table: PapersTable, experiment: Experiment,
                     title: string, chunks: seq<string>, replies: seq<ChunkReplies>, i: nat)
    requires i < |chunks| == |replies| && page.progress == Progress(replies, i)
    modifies page`errors, page`progress, client`requests, table`rows, experiment`others
    ensures client.requests == old(client.requests) + [EmbedRequest(EmbeddingModel, chunks[i])]
    ensures table.rows == old(table.rows) + RowOf(title, chunks[i], replies[i])
    ensures page.errors == old(page.errors) + ErrorOf(i + 1, replies[i])
    ensures experiment.others == old(experiment.others) + LogOf(i + 1, replies[i])
    ensures page.progress == Progress(replies, i + 1)
  {
    var embedded := client.Create(EmbeddingModel, chunks[i], replies[i].embedding);
    var failure: Outcome<()> := Returned(());
    match embedded {
      case Raised(m) =>
        failure := Raised(m);
      case Returned(v) =>
        failure := table.Insert(Row(title, chunks[i], v), replies[i].insert);
        if failure.Returned? {
          page.SetProgress(i + 1);
        }
    }
    if failure.Raised? {
      page.Error(FailureMessage(i + 1, failure.message));
      experiment.LogOther(FailureKey(i + 1), failure.message);
    }
  }

  /** Lines 64-97, the "Upload to Supabase" button. The progress bar starts
      at 0 and the experiment is created and named. With no chunk at all,
      `chunks[0]` raises outside the `try`: nothing is embedded, stored or
      reported as a success. Otherwise the first chunk is logged as a
      preview, the chunks are ingested as `IngestChunks` says, the
      experiment is ended, and the final message reports `len(chunks)`
      chunks whatever failed. */
  method UploadToSupabase(page: Page, client: EmbeddingClient, table: PapersTable,
                          filename: string, chunks: seq<string>, replies: seq<ChunkReplies>)
    returns (experiment: Experiment, completed: bool)
    requires |replies| == |chunks|
    modifies page`errors, page`progress, page`successes, client`requests, table`rows
    ensures fresh(experiment)
    ensures experiment.name == ExperimentName(filename, |chunks|)
    ensures completed <==> chunks != []
    ensures !completed ==>
      && client.requests == old(client.requests)
      && table.rows == old(table.rows)
      && page.errors == old(page.errors)
      && page.successes == old(page.successes)
      && page.progress == 0
      && experiment.texts == [] && experiment.others == [] && !experiment.ended
    ensures completed ==>
      && client.requests == old(client.requests) + EmbedRequests(chunks, |chunks|)
      && table.rows == old(table.rows) + StoredRows(Title(filename), chunks, replies, |chunks|)
      && page.errors == old(page.errors) + FailureMessages(replies, |chunks|)
      && page.progress == Progress(replies, |chunks|)
      && page.successes == old(page.successes) + [SuccessMessage(|chunks|)]
      && experiment.texts == [PreviewText(chunks[0])]
      && experiment.others == FailureLog(replies, |chunks|)
      && experiment.ended
    ensures page.infos == old(page.infos) && page.stopped == old(page.stopped)
  {
    page.SetProgress(0);
    experiment := new Experiment();
    experiment.SetName(ExperimentName(filename, |chunks|));
    if |chunks| == 0 {
      return experiment, false;
    }
    RunUpload(page, client, table, experiment, filename, chunks, replies);
    completed := true;
  }

  /** Lines 75-97 once there is a first chunk: the preview is logged, the
      chunks are ingested, the experiment is ended and the success message
      shown. */
  method RunUpload(page: Page, client: EmbeddingClient, table: PapersTable, experiment: Experiment,
                   filename: string, chunks: seq<string>, replies: seq<ChunkReplies>)
    requires chunks != [] && |replies| == |chunks| && page.progress == 0
    requires experiment.texts == [] && experiment.others == []
    modifies page`errors, page`progress, page`successes, client`requests, table`rows
    modifies experiment`texts, experiment`others, experiment`ended
    ensures client.requests == old(client.requests) + EmbedRequests(chunks, |chunks|)
    ensures table.rows == old(table.rows) + StoredRows(Title(filename), chunks, replies, |chunks|)
    ensures page.errors == old(page.errors) + FailureMessages(replies, |chunks|)
    ensures page.progress == Progress(replies, |chunks|)
    ensures page.successes == old(page.successes) + [SuccessMessage(|chunks|)]
    ensures experiment.texts == [PreviewText(chunks[0])]
    ensures experiment.others == FailureLog(replies, |chunks|)
    ensures experiment.ended
  {
    experiment.LogText(PreviewText(chunks[0]));
    IngestChunks(page, client, table, experiment, Title(filename), chunks, replies);
    assert experiment.others == [] + FailureLog(replies, |chunks|);
    experiment.End();
    page.Success(SuccessMessage(|chunks|));
  }
}
