/** The FastAPI backend (main.py): `GET /health` and `POST /generate`, which
    embeds the question, asks the `match_papers` procedure for the three
    nearest chunks, and has the chat model answer from them. The three remote
    calls are given as their replies; the handler's result records which
    calls it made, in order, and the JSON object it returns. */
module Backend {
  import opened Remote
  import Text

  const MatchProcedure := "match_papers"
  const MatchCount := 3
  const ChatModel := "gpt-3.5-turbo"
  const NoContextAnswer := "\U{274C} No matching context found."
  const PromptHead := "Answer the question based on the following documents:\n\n"
  const ContextSeparator := "\n\n"

  /** A JSON object whose values are strings. */
  type Json = map<string, string>

  /** A row returned by `match_papers`, as a JSON object. */
  type StoreRow = map<string, string>

  /** A request the handler sends to a remote service. */
  datatype Call =
    | Embed(model: string, input: string)
    | Rpc(procedure: string, queryEmbedding: Embedding, matchCount: nat)
    | Chat(model: string, prompt: string)

  /** The handler's calls, in order, and its response. */
  datatype Exchange = Exchange(calls: seq<Call>, response: Json)

  /** `GET /health`. */
  function Health(): (r: Json)
    ensures r.Keys == {"status"} && r["status"] == "ok"
  {
    map["status" := "ok"]
  }

  /** `[doc['chunk'] for doc in rows]`: the `chunk` field of every row, in
      order, or the `KeyError` raised by the first row without one, whose
      `str` is `'chunk'`. */
  function ChunkTexts(rows: seq<StoreRow>): (r: Outcome<seq<string>>)
    ensures r.Returned? <==> forall i :: 0 <= i < |rows| ==> "chunk" in rows[i]
    ensures r.Returned? ==> (
      && |r.value| == |rows|
      && forall i :: 0 <= i < |rows| ==> r.value[i] == rows[i]["chunk"])
    ensures r.Raised? ==> r.message == "'chunk'"
  {
    if rows == [] then Returned([])
    else if "chunk" !in rows[0] then Raised("'chunk'")
    else
      match ChunkTexts(rows[1..])
      case Raised(m) => Raised(m)
      case Returned(rest) => Returned([rows[0]["chunk"]] + rest)
  }

  /** The f-string of line 55. */
  function Prompt(context: string, question: string): string
  {
    Frame(PromptHead, context, "\n\nQ: ", question, "\nA:")
  }

  /** `head + context + mid + question + tail`. */
  function Frame(head: string, context: string, mid: string, question: string, tail: string): string
  {
    head + context + mid + question + tail
  }

  function ErrorResponse(message: string): Json
  {
    map["error" := message]
  }

  /** `POST /generate` (main.py, lines 26-72), given what the embedding
      endpoint, the `match_papers` procedure and the chat endpoint reply.
      Every call raising an exception ends the handler with `{"error": ...}`
      and nothing else. */
  function GenerateAnswer(question: string, embedReply: Outcome<Embedding>,
                          rpcReply: Outcome<seq<StoreRow>>, chatReply: Outcome<string>): (x: Exchange)
    // the question is always embedded first, and nothing else is sent before
    ensures 1 <= |x.calls| <= 3 && x.calls[0] == Embed(EmbeddingModel, question)
    // the store is asked only with the question's embedding, for 3 rows
    ensures |x.calls| >= 2 <==> embedReply.Returned?
    ensures |x.calls| >= 2 ==> x.calls[1] == Rpc(MatchProcedure, embedReply.value, MatchCount)
    // no rows: the sentinel answer, and the chat endpoint is never asked
    ensures embedReply.Returned? && rpcReply == Returned([]) ==>
      |x.calls| == 2 && x.response == map["answer" := NoContextAnswer]
    // the chat endpoint is asked exactly when rows with chunks came back,
    // with the prompt built from those chunks in the store's order
    ensures |x.calls| == 3 <==>
      embedReply.Returned? && rpcReply.Returned? && rpcReply.value != []
      && ChunkTexts(rpcReply.value).Returned?
    ensures |x.calls| == 3 ==> (x.calls[2] ==
      Chat(ChatModel, Prompt(Text.Join(ChunkTexts(rpcReply.value).value, ContextSeparator), question)))
    // a completion is returned as the question, unchanged, with the completion
    // text, and this is the only way a "question" key appears
    ensures |x.calls| == 3 && chatReply.Returned? ==>
      x.response == map["question" := question, "answer" := chatReply.value]
    ensures "question" in x.response ==> |x.calls| == 3 && chatReply.Returned?
    // each call that raises ends the handler with `{"error": str(e)}`
    ensures embedReply.Raised? ==> x.response == ErrorResponse(embedReply.message)
    ensures embedReply.Returned? && rpcReply.Raised? ==> x.response == ErrorResponse(rpcReply.message)
    ensures (embedReply.Returned? && rpcReply.Returned? && rpcReply.value != []
             && ChunkTexts(rpcReply.value).Raised?) ==> x.response == ErrorResponse("'chunk'")
    ensures |x.calls| == 3 && chatReply.Raised? ==> x.response == ErrorResponse(chatReply.message)
    // an error response carries nothing else
    ensures "error" in x.response ==> x.response.Keys == {"error"}
    ensures "error" in x.response <==>
      embedReply.Raised? || rpcReply.Raised? || (|x.calls| == 3 && chatReply.Raised?)
      || (rpcReply.Returned? && rpcReply.value != [] && ChunkTexts(rpcReply.value).Raised?)
  {
    var embedCall := Embed(EmbeddingModel, question);
    match embedReply
    case Raised(e) => Exchange([embedCall], ErrorResponse(e))
    case Returned(embedding) =>
      var calls := [embedCall, Rpc(MatchProcedure, embedding, MatchCount)];
      match rpcReply
      case Raised(e) => Exchange(calls, ErrorResponse(e))
      case Returned(rows) =>
        if rows == [] then Exchange(calls, map["answer" := NoContextAnswer])
        else
          match ChunkTexts(rows)
          case Raised(e) => Exchange(calls, ErrorResponse(e))
          case Returned(texts) =>
            var prompt := Prompt(Text.Join(texts, ContextSeparator), question);
            var chatCalls := calls + [Chat(ChatModel, prompt)];
            match chatReply
            case Raised(e) => Exchange(chatCalls, ErrorResponse(e))
            case Returned(answer) => Exchange(chatCalls, map["question" := question, "answer" := answer])
  }

  /** `s` appears verbatim in `p`, starting at index `off`. */
  predicate QuotedAt(p: string, off: nat, s: string)
  {
    off + |s| <= |p| && forall k :: 0 <= k < |s| ==> p[off + k] == s[k]
  }

  /** Every retrieved chunk appears verbatim in the prompt, at the offset
      fixed by the chunks before it. */
  lemma PromptQuotesChunk(texts: seq<string>, question: string, i: nat)
    requires i < |texts|
    ensures QuotedAt(Prompt(Text.Join(texts, ContextSeparator), question),
                     |PromptHead| + Text.JoinOffset(texts, ContextSeparator, i), texts[i])
  {
    PartInFrame(PromptHead, texts, ContextSeparator, i, "\n\nQ: ", question, "\nA:");
  }

  /** A joined part stays quoted, shifted by `|head|`, once the joined text
      is framed as `head + context + mid + question + tail`. */
  lemma PartInFrame(head: string, texts: seq<string>, sep: string, i: nat,
                    mid: string, question: string, tail: string)
    requires i < |texts|
    ensures QuotedAt(Frame(head, Text.Join(texts, sep), mid, question, tail),
                     |head| + Text.JoinOffset(texts, sep, i), texts[i])
  {
    var context, off, s := Text.Join(texts, sep), Text.JoinOffset(texts, sep, i), texts[i];
    Text.JoinContainsPart(texts, sep, i);
    var p := Frame(head, context, mid, question, tail);
    forall k | 0 <= k < |s|
      ensures p[|head| + off + k] == s[k]
    {
      assert context[off..off + |s|][k] == s[k];
    }
  }

  /** The question appears verbatim in the prompt, right before its last
      three characters. */
  lemma PromptQuotesQuestion(context: string, question: string)
    ensures var p, off := Prompt(context, question), |PromptHead| + |context| + 5;
      && off + |question| + 3 == |p| && p[off..off + |question|] == question
  {
    var b := PromptHead + context + "\n\nQ: ";
    Text.SliceRight(b, question, 0, |question|);
    Text.SliceLeft(b + question, "\nA:", |b|, |b| + |question|);
  }

  /** Given the context, the prompt determines the question, and given the
      question it determines the context. */
  lemma PromptDetermines(c1: string, q1: string, c2: string, q2: string)
    requires Prompt(c1, q1) == Prompt(c2, q2)
    ensures c1 == c2 <==> q1 == q2
  {
    var p := Prompt(c1, q1);
    var h := |PromptHead|;
    if c1 == c2 {
      assert q1 == p[h + |c1| + 5..|p| - 3] == q2;
    }
    if q1 == q2 {
      assert |c1| == |c2|;
      assert c1 == p[h..h + |c1|] == c2;
    }
  }

  /** Whenever the chat endpoint is asked, the `chunk` of every row the store
      returned, however many rows that is, is quoted verbatim in the prompt. */
  lemma ChatPromptQuotesRows(question: string, embedReply: Outcome<Embedding>,
                             rows: seq<StoreRow>, chatReply: Outcome<string>, i: nat)
    requires i < |rows|
    requires |GenerateAnswer(question, embedReply, Returned(rows), chatReply).calls| == 3
    ensures "chunk" in rows[i] && ChunkTexts(rows).Returned?
    ensures QuotedAt(GenerateAnswer(question, embedReply, Returned(rows), chatReply).calls[2].prompt,
                     |PromptHead| + Text.JoinOffset(ChunkTexts(rows).value, ContextSeparator, i),
                     rows[i]["chunk"])
  {
    ChatPrompt(question, embedReply, rows, chatReply);
    var texts := ChunkTexts(rows).value;
    assert texts[i] == rows[i]["chunk"];
    PromptQuotesChunk(texts, question, i);
  }

  /** The chat call's prompt is the one built from the rows' chunks. */
  lemma ChatPrompt(question: string, embedReply: Outcome<Embedding>,
                   rows: seq<StoreRow>, chatReply: Outcome<string>)
    requires |GenerateAnswer(question, embedReply, Returned(rows), chatReply).calls| == 3
    ensures ChunkTexts(rows).Returned?
    ensures GenerateAnswer(question, embedReply, Returned(rows), chatReply).calls[2].prompt
      == Prompt(Text.Join(ChunkTexts(rows).value, ContextSeparator), question)
  {
  }
}
