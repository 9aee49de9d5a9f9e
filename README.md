# rag-uploader core, modelled in Dafny

The application is a small retrieval-augmented-generation tool. A Streamlit
page (`app.py`) takes a `.txt` or `.pdf` upload, cuts its text into
fixed-size chunks, and on "Upload to Supabase" embeds every chunk with the
OpenAI embedding endpoint and inserts it into the `papers` table, logging to
a Comet experiment. A FastAPI backend (`main.py`) answers `POST /generate`:
it embeds the question, asks the `match_papers` database procedure for the
three nearest chunks, and sends a fixed prompt with those chunks to the chat
model. `GET /health` reports `{"status": "ok"}`.

The model covers the sequential logic between the remote calls:

- `text.dfy` (module `Text`): Python's `str.split` on one character,
  `str.join`, ASCII `str.lower` and the decimal rendering of integers in
  f-strings, with their round trips.
- `chunker.dfy` (module `Chunker`): the list comprehension of `app.py`
  line 61, written over Python's `range` and slicing, with the chunk
  formula, the chunk count, the chunk lengths and the concatenation round
  trip proved.
- `filetype.dfy` (module `FileType`): the file type as the lower-cased text
  after the last dot, and the `txt` / `pdf` / refuse dispatch.
- `upload.dfy` (module `Upload`): the upload preparation and the
  "Upload to Supabase" loop as imperative code over objects standing for the
  page, the embedding client, the `papers` table and the Comet experiment.
  The loop is proved against specification functions of the processed
  prefix, and lemmas about those functions state which chunks are stored,
  in what order, what is reported for each failure, and where the progress
  bar ends.
- `backend.dfy` (module `Backend`): `generate_answer` as a function from the
  three remote replies to the calls it makes and the JSON it returns, and
  `health`.
- `remote.dfy` (module `Remote`): the outcome of a remote call (a value, or
  an exception's `str(e)`) and the embedding type.

Remote services are not called. Each is represented by the reply it gives:
a `ChunkReplies` value per chunk for the upload loop, and one
`Outcome` per call for the backend. The embedding client records every
request it is sent (model and input), and the `papers` table keeps the rows
that were written, so that the contracts can state which chunks were sent
and which rows were stored. An insert that raises leaves no trace in the
table. The progress bar shows
`(i + 1) / len(chunks)`. The model keeps the whole-number numerator `i + 1`.

Three behaviours of the code are worth stating plainly, and the model keeps
them:

- The final message always reports `len(chunks)` uploaded chunks, whatever
  failed (`app.py:97`, `Upload.SuccessMessage`).
- The handler asks `match_papers` for `match_count` 3 and uses whatever rows
  come back, in the order they come (`main.py:41-52`). The model states that
  every returned row is quoted, however many there are.
- The upload button reads `chunks[0]` outside the `try` (`app.py:75`), so an
  upload with no text raises there after the experiment is created and
  named. Nothing is embedded or stored, and no success message is shown.

## Model

| member | source | states |
|---|---|---|
| `Text.JoinSplit` | app.py:51 | `Join(Split(s, sep), [sep])`, the model of `sep.join(s.split(sep))`, gives `s` back |
| `Text.SplitParts` | app.py:51 | no part of `Split(s, sep)` (`s.split(sep)`) contains the separator, and there is exactly one part iff the string has no separator |
| `Text.SplitLast` | app.py:51 | the last part of `Split(s, sep)`, i.e. `s.split(sep)[-1]`, is the suffix of `s` after its last separator, or all of `s` when it has none |
| `Text.LowerProperties` | app.py:51 | `Lower(s)` (`s.lower()`) leaves no upper-case ASCII letter, changes no other character, and is idempotent |
| `Text.Decimal` | app.py:62 | an integer in an f-string renders as a non-empty string of digits with no leading zero |
| `Text.DecimalRoundTrip` | app.py:93 | reading a rendered number back gives the number |
| `Text.DecimalInjective` | app.py:93 | different numbers render differently |
| `Text.JoinContainsPart` | main.py:52 | every part of `Join(parts, sep)` (`sep.join(parts)`, here `"\n\n".join`) appears verbatim at the offset given by the parts before it |
| `Chunker.Slice` | app.py:61 | `s[lo:hi]` clamps both bounds to the text and is empty past its end |
| `Chunker.RangeShape` | app.py:61 | `range(start, stop, step)` yields `start + k*step` for exactly the `k` that keep it below `stop` |
| `Chunker.ChunkAt` | app.py:61 | chunk `k` of `Chunks(text, S)`, the comprehension over `range(0, len(text), S)`, is `text[k*S .. min((k+1)*S, len(text))]`, and it starts inside the text |
| `Chunker.ChunkCount` | app.py:61-62 | there are exactly ceil(len(text)/S) chunks, and none exactly when the text is empty |
| `Chunker.CeilDivIsLeast` | app.py:61 | the chunk count formula is the least `k` with `k*S >= len(text)` |
| `Chunker.ChunkLengths` | app.py:61 | every chunk but the last has exactly `S` characters; the last has between 1 and `S` |
| `Chunker.ChunkFull` | app.py:61 | a chunk that is not the last one holds exactly `S` characters |
| `Chunker.UnfoldCount` | app.py:61 | a text longer than `S` has one chunk more than the text after its first `S` characters |
| `Chunker.UnfoldAt` | app.py:61 | chunk `k > 0` of a text longer than `S` is chunk `k - 1` of the text after its first `S` characters |
| `Chunker.ChunksUnfold` | app.py:61 | the chunks of a text longer than `S` are its first `S` characters followed by the chunks of the rest |
| `Chunker.ChunksConcat` | app.py:61 | concatenating `Chunks(text, S)` in order reproduces the text exactly |
| `Chunker.ChunksExample` | app.py:61 | "ABCDEFGHIJ" in chunks of 4 gives "ABCD", "EFGH", "IJ" |
| `FileType.ExtensionIsLastSegment` | app.py:51 | `Extension(name)`, the model of `filename.split(".")[-1].lower()`, has no dot and is the lower-cased suffix after the name's last dot, or the whole lower-cased name when there is no dot |
| `FileType.ExtensionBySuffix` | app.py:51 | a dot-free `e` is the file type iff the lower-cased name is `e` or ends in `.e` |
| `FileType.DispatchBySuffix` | app.py:50-59 | `Dispatch(name)` reads a file as text iff its lower-cased name is `txt` or ends in `.txt`, as PDF iff it is `pdf` or ends in `.pdf`; everything else stops with `UnsupportedMessage`, "Unsupported file type." |
| `FileType.DispatchIgnoresCase` | app.py:51-59 | lower-casing the file name never changes the dispatch |
| `FileType.DispatchUpperCasePdf` | app.py:51-59 | "Report.PDF" is read as a PDF |
| `FileType.DispatchBareName` | app.py:51-59 | a name without a dot that is "txt" is read as text |
| `FileType.DispatchDoubleExtension` | app.py:51-59 | "paper.txt.gz" is refused |
| `Upload.PrepareUpload` | app.py:49-62 | a supported file's text (the one its type selects) is cut into `Chunks` and `FoundMessage(n)` ("📦 Found n chunks to embed and store.") is shown with their number; an unsupported one shows the error and stops the page |
| `Upload.Page.Info` | app.py:62 | `st.info` adds one message |
| `Upload.Page.Error` | app.py:93 | `st.error` adds one message |
| `Upload.Page.Success` | app.py:97 | `st.success` adds one message |
| `Upload.Page.SetProgress` | app.py:90 | the progress bar shows the given value |
| `Upload.Page.Stop` | app.py:59 | `st.stop` stops the page |
| `Upload.EmbeddingClient.Create` | app.py:79-82 | the request, with its model and input, is recorded and the service's reply returned |
| `Upload.PapersTable.Insert` | app.py:84-88 | a successful insert adds exactly the row; a failed one adds nothing |
| `Upload.Experiment.constructor` | app.py:68-73 | a new experiment has no name, no logs and is not ended |
| `Upload.Experiment.SetName` | app.py:74 | the experiment gets the name |
| `Upload.Experiment.LogText` | app.py:75 | one text is logged |
| `Upload.Experiment.LogOther` | app.py:94 | one key/value entry is logged |
| `Upload.Experiment.End` | app.py:96 | the experiment is ended |
| `Upload.IndicesShape` | app.py:77-94 | the stored chunks are exactly those whose own embedding and insert both succeeded and the failed ones exactly those where a call raised, whatever happened to other chunks, both in chunk order |
| `Upload.IndicesCount` | app.py:77-94 | every chunk is either stored or failed |
| `Upload.StoredRowsAre` | app.py:79-88 | the table gets one row per stored chunk in chunk order, with `Title(filename)` ("Upload: " + filename, app.py:85), the chunk's text and the embedding returned for that chunk |
| `Upload.FailureMessagesAre` | app.py:92-93 | each failed chunk gives exactly one page error `FailureMessage(i + 1, str(e))`, in chunk order, labelled with its 1-based number and carrying the raised message |
| `Upload.FailureLogIs` | app.py:92-94 | each failed chunk gives exactly one experiment entry `(FailureKey(i + 1), str(e))` (key "Chunk N failed"), in chunk order, keyed by its 1-based number and holding the raised message |
| `Upload.FailureMessageDistinct` | app.py:93 | `FailureMessage` texts for different chunks always differ, whatever the exception texts |
| `Upload.ProgressReading` | app.py:90 | the progress bar ends full iff the last chunk was stored, stays at 0 iff nothing was stored, and otherwise shows the number of the last stored chunk |
| `Upload.EmbedRequests` | app.py:77-82 | the requests for the first `n` chunks are `n` requests, the `k`-th for chunk `k` with model `text-embedding-ada-002` |
| `Upload.IngestChunk` | app.py:78-94 | one pass for chunk `i`: one embedding request for the chunk; the row `RowOf` (one iff both calls returned), the page error `ErrorOf` and the experiment entry `LogOf` (one each iff a call raised, numbered `i + 1`) are appended, and the progress bar becomes the progress after chunk `i` |
| `Upload.IngestChunks` | app.py:77-94 | every chunk is sent to the embedding service once, in order, as an `EmbedRequests` entry for `text-embedding-ada-002`; the rows added, the page errors, the experiment entries and the progress after the loop are those the specification functions give for all chunks, so a failure never stops later chunks |
| `Upload.UploadToSupabase` | app.py:64-97 | the experiment is named `ExperimentName(filename, n)` ("Upload: filename (n chunks)"); with no chunk the `PreviewText` of `chunks[0]` raises before any chunk is sent; otherwise the preview "First chunk preview:
" + first chunk is logged, every chunk is sent in order, a failure never stops later chunks, rows, errors, experiment entries and progress are those of the specification functions, and the success message `SuccessMessage(len(chunks))` reports `len(chunks)` |
| `Upload.RunUpload` | app.py:75-97 | with a first chunk: the preview is the only text logged, the chunks are ingested as `IngestChunks` states, the experiment ends and `SuccessMessage(len(chunks))` is shown |
| `Backend.Health` | main.py:22-24 | the health check always returns `{"status": "ok"}` |
| `Backend.ChunkTexts` | main.py:52 | the context pieces are the rows' `chunk` fields in the store's order, or a `KeyError` with message `'chunk'` when some row has none |
| `Backend.GenerateAnswer` | main.py:26-72 | the question is embedded first; the store is asked with that embedding for 3 rows; no rows gives the sentinel answer and no chat call; the chat call, made exactly when rows with chunks came back, carries the prompt built from them; a completion yields exactly `{"question": question, "answer": completion}`; each call that raises (embedding, procedure, the `'chunk'` `KeyError`, chat) yields exactly `{"error": str(e)}` with that call's message, and an error response occurs exactly when a step raised |
| `Backend.PromptQuotesChunk` | main.py:52-55 | every retrieved chunk appears verbatim in `Prompt(context, question)`, the f-string of line 55, at the offset fixed by the chunks before it |
| `Backend.PartInFrame` | main.py:52-55 | a part of `sep.join(parts)` stays verbatim, shifted by the head's length, when the joined text is framed by a head, a question and fixed text |
| `Backend.PromptQuotesQuestion` | main.py:55 | the question appears verbatim in `Prompt(context, question)`, just before the closing `\nA:` |
| `Backend.PromptDetermines` | main.py:55 | for equal `Prompt`s, equal contexts imply equal questions and equal questions imply equal contexts |
| `Backend.ChatPrompt` | main.py:48-60 | when the chat endpoint is asked, every row had a `chunk` and the prompt is the one built from those chunks |
| `Backend.ChatPromptQuotesRows` | main.py:48-60 | whenever the chat model is asked, the `chunk` of every returned row is quoted verbatim in the prompt |

## Left out

- The Streamlit widgets and page flow (page configuration, headers, the file
  uploader, the slider widget, the button and spinner) and the question form
  that posts to the backend (`app.py:99-112`): user interface and HTTP
  plumbing. The slider range is kept as the precondition of
  `Upload.PrepareUpload`.
- PDF text extraction (`app.py:45-47`) and UTF-8 decoding (`app.py:54`):
  foreign library calls. Their results are inputs of `Upload.PrepareUpload`.
  A decoding error is not modelled.
- Text.Lower: lower-cases ASCII letters only. Python's `str.lower` also
  maps non-ASCII letters, some of them to several characters.
- The OpenAI, Supabase and Comet calls themselves: remote services. Each is
  replaced by the reply it gives. Client set-up, credentials and
  `load_dotenv` are left out, and so are the experiment's configuration
  arguments.
- The embedding vectors' floating-point contents. They are carried, never
  computed on.
- The progress bar's fraction: the model keeps the numerator `i + 1`.
- Nearest-neighbour ordering and the number of rows `match_papers` returns:
  both are decided inside the database and are not visible in the code.
- Backend.GenerateAnswer: row values are strings, so a `chunk` field that
  is not a string (a `TypeError` in `join`) and a `None` result from the
  procedure are not modelled. A missing `chunk` field is modelled.
- The `print` calls of `main.py` and the request-body validation FastAPI
  performs before the handler runs.
- Upload.PapersTable.Insert: an insert that raises leaves no trace, so no
  contract states that an insert was attempted after a chunk's embedding
  came back; only the rows written are kept.
- Upload.UploadToSupabase: the uncaught `IndexError` of `app.py:75` is
  reported as `completed == false`. Streamlit's display of the exception is
  not modelled.
- `retrieve_chunks.py`, `create_table.py`, `insert_embedding.py`,
  `test_insert_supabase.py` and `app_backup.py`: one-shot scripts and a
  second front end with no logic beyond I/O.
