/**
 One chat turn: the answer pipeline, the endpoint that stores the turn and streams
 it as server-sent events, and the dispatch of the events in the browser.
 */
module Chat {
  import opened Wrappers
  import opened Text
  import opened Sse
  import opened Citations
  import Budget
  import Retrieval

  // ---- Payloads ----

  datatype Json =
    | Null
    | Bool(b: bool)
    | Num(n: int)
    | Str(s: string)
    | Arr(items: seq<Json>)
    | Obj(fields: map<string, Json>)

  /** `json.dumps` and `JSON.parse`; parsing fails on malformed text. */
  datatype Codec = Codec(dumps: Json -> string, parse: string -> Option<Json>)

  /** Parsing undoes the printing of `j`, which takes a single line. */
  ghost predicate Undone(codec: Codec, j: Json) {
    codec.parse(codec.dumps(j)) == Some(j) && '\n' !in codec.dumps(j)
  }

  ghost predicate Faithful(codec: Codec) {
    forall j :: Undone(codec, j)
  }

  function CitationJson(c: Citation): Json {
    Obj(map["marker" := Num(c.marker), "chunk_id" := Str(c.chunkId), "document_id" := Str(c.documentId),
            "document_title" := Str(c.documentTitle), "snippet" := Str(c.snippet)])
  }

  function CitationsJson(citations: seq<Citation>): (j: Json)
    ensures j.Arr? && |j.items| == |citations|
    ensures forall i | 0 <= i < |citations| :: j.items[i] == CitationJson(citations[i])
  {
    Arr(seq(|citations|, i requires 0 <= i < |citations| => CitationJson(citations[i])))
  }

  /** What reads the payload back: the fields of each entry, if they are all there. */
  function DecodedCitation(j: Json): Option<Citation> {
    if !j.Obj? || !(j.fields.Keys >= {"marker", "chunk_id", "document_id", "document_title", "snippet"}) then None
    else
      match (j.fields["marker"], j.fields["chunk_id"], j.fields["document_id"],
             j.fields["document_title"], j.fields["snippet"])
      case (Num(n), Str(chunkId), Str(documentId), Str(title), Str(snippet)) =>
        if n >= 0 then Some(Citation(n, chunkId, documentId, title, snippet)) else None
      case _ => None
  }

  function DecodedItems(items: seq<Json>): Option<seq<Citation>> {
    if items == [] then Some([])
    else
      match (DecodedItems(items[..|items| - 1]), DecodedCitation(items[|items| - 1]))
      case (Some(before), Some(c)) => Some(before + [c])
      case _ => None
  }

  function DecodedCitations(j: Json): Option<seq<Citation>> {
    if j.Arr? then DecodedItems(j.items) else None
  }

  /** The payload loses nothing: reading it gives the citations back. */
  lemma {:induction false} CitationsRoundTrip(citations: seq<Citation>)
    ensures DecodedCitations(CitationsJson(citations)) == Some(citations)
  {
    if citations != [] {
      var n := |citations| - 1;
      var items := CitationsJson(citations).items;
      CitationsRoundTrip(citations[..n]);
      assert items[..n] == CitationsJson(citations[..n]).items;
      DecodedCitationJson(citations[n]);
      assert citations[..n] + [citations[n]] == citations;
    }
  }

  lemma DecodedCitationJson(c: Citation)
    ensures DecodedCitation(CitationJson(c)) == Some(c)
  {
  }

  /** The payload has one object for each citation, with these fields. */
  lemma PayloadExact(citations: seq<Citation>, i: nat)
    requires i < |citations|
    ensures var j, c := CitationsJson(citations), citations[i];
            && j.Arr? && |j.items| == |citations| && j.items[i].Obj?
            && j.items[i].fields == map["marker" := Num(c.marker), "chunk_id" := Str(c.chunkId),
                                        "document_id" := Str(c.documentId),
                                        "document_title" := Str(c.documentTitle), "snippet" := Str(c.snippet)]
  {
  }

  function EventFrame(codec: Codec, event: string, field: string, value: Json): Frame {
    Frame(event, codec.dumps(Obj(map[field := value])))
  }

  // ---- The pipeline ----

  datatype Usage = Usage(inputTokens: nat, outputTokens: nat)

  /** What the model provider does: it streams tokens and may then raise. */
  datatype Generation = Generation(tokens: seq<string>, raises: bool, usage: Usage, provider: string, model: string)

  datatype State = State(hits: seq<Retrieval.SearchHit>, answer: string, citations: seq<Citation>,
                         usage: Usage, provider: string, model: string)

  datatype GraphEvent = Custom(token: string) | Values(state: State)

  datatype Item = Token(text: string) | Done(state: State)

  method GenerateNode(tokens: seq<string>) returns (written: seq<GraphEvent>, answer: string)
    ensures written == Customs(tokens) && answer == Concat(tokens)
  {
    var parts: seq<string> := [];
    written := [];
    for i := 0 to |tokens|
      invariant parts == tokens[..i] && written == Customs(tokens[..i])
    {
      assert tokens[..i + 1] == tokens[..i] + [tokens[i]];
      parts := parts + [tokens[i]];
      written := written + [Custom(tokens[i])];
    }
    assert tokens[..|tokens|] == tokens;
    answer := Concat(parts);
  }

  function Customs(tokens: seq<string>): seq<GraphEvent> {
    seq(|tokens|, i requires 0 <= i < |tokens| => Custom(tokens[i]))
  }

  const NOTHING_YET := State([], "", [], Usage(0, 0), "", "")

  ghost function FinalState(hits: seq<Retrieval.SearchHit>, g: Generation): State {
    var answer := Concat(g.tokens);
    State(hits, answer, Cited(answer, hits, SNIPPET_CHARS, |hits|), g.usage, g.provider, g.model)
  }

  /** The pipeline raises: the provider fails, or the answer cites a number that is too long to be read. */
  ghost predicate Fails(g: Generation) {
    g.raises || !Readable(Concat(g.tokens))
  }

  /** The compiled graph: a state after every node, and the tokens while `generate` runs. */
  method RunGraph(hits: seq<Retrieval.SearchHit>, g: Generation) returns (events: seq<GraphEvent>, raised: bool)
    ensures raised <==> Fails(g)
    ensures var begun := [Values(NOTHING_YET), Values(NOTHING_YET.(hits := hits))] + Customs(g.tokens);
            if g.raises then events == begun
            else
              && |events| == |begun| + (if raised then 1 else 2) && events[..|begun|] == begun
              && events[|begun|] == Values(FinalState(hits, g).(citations := []))
              && (!raised ==>
                    var answer := Concat(g.tokens);
                    events[|begun| + 1] == Values(State(hits, answer, Cited(answer, hits, SNIPPET_CHARS, |hits|),
                                                        g.usage, g.provider, g.model)))
  {
    var retrieved := NOTHING_YET.(hits := hits);
    var written, answer := GenerateNode(g.tokens);
    events := [Values(NOTHING_YET), Values(retrieved)] + written;
    if g.raises {
      return events, true;
    }
    var generated := retrieved.(answer := answer, usage := g.usage, provider := g.provider, model := g.model);
    events := events + [Values(generated)];
    var citations := ExtractCitations(answer, hits, SNIPPET_CHARS);
    if citations.None? {
      return events, true;
    }
    return events + [Values(generated.(citations := citations.value))], false;
  }

  /** Tokens as they come, and the last state at the end unless the pipeline raised. */
  function Items(events: seq<GraphEvent>): seq<Item> {
    if events == [] then []
    else
      var before, last := Items(events[..|events| - 1]), events[|events| - 1];
      if last.Custom? then before + [Token(last.token)] else before
  }

  /** The state that the last `values` event carries. */
  function LastState(events: seq<GraphEvent>): State {
    if events == [] then NOTHING_YET
    else
      var last := events[|events| - 1];
      if last.Values? then last.state else LastState(events[..|events| - 1])
  }

  method StreamAnswer(events: seq<GraphEvent>, raises: bool) returns (items: seq<Item>)
    ensures items == Items(events) + if raises then [] else [Done(LastState(events))]
  {
    items := [];
    var final := NOTHING_YET;
    for i := 0 to |events|
      invariant items == Items(events[..i]) && final == LastState(events[..i])
    {
      assert events[..i + 1][..i] == events[..i];
      match events[i] {
        case Custom(token) => items := items + [Token(token)];
        case Values(state) => final := state;
      }
    }
    assert events[..|events|] == events;
    if !raises {
      items := items + [Done(final)];
    }
  }

  function Tokens(tokens: seq<string>): seq<Item> {
    seq(|tokens|, i requires 0 <= i < |tokens| => Token(tokens[i]))
  }

  lemma {:induction false} ItemsOfCustoms(before: seq<GraphEvent>, tokens: seq<string>)
    ensures Items(before + Customs(tokens)) == Items(before) + Tokens(tokens)
  {
    if tokens == [] {
      assert before + Customs([]) == before;
    } else {
      var n := |tokens| - 1;
      var all, earlier, items := before + Customs(tokens), before + Customs(tokens[..n]), Tokens(tokens[..n]);
      ItemsOfCustoms(before, tokens[..n]);
      assert all[..|all| - 1] == earlier && all[|all| - 1] == Custom(tokens[n]);
      assert Items(all) == (Items(before) + items) + [Token(tokens[n])];
      assert Tokens(tokens) == items + [Token(tokens[n])];
    }
  }

  /** The pipeline yields every token in order and then, unless it raised, the final state. */
  method Answer(hits: seq<Retrieval.SearchHit>, g: Generation) returns (items: seq<Item>, raised: bool)
    ensures raised <==> Fails(g)
    ensures items == Tokens(g.tokens) + if raised then [] else [Done(FinalState(hits, g))]
  {
    var events;
    events, raised := RunGraph(hits, g);
    items := StreamAnswer(events, raised);
    ghost var head := [Values(NOTHING_YET), Values(NOTHING_YET.(hits := hits))];
    ItemsOfCustoms(head, g.tokens);
    assert head[..1][..0] == [];
    assert Items(head[..1]) == Items([]) == [];
    assert Items(head) == Items(head[..1]);
    assert events[0] == Values(NOTHING_YET) by {
      assert (head + Customs(g.tokens))[0] == head[0];
    }
    if !g.raises {
      ghost var n := |head| + |g.tokens|;
      assert events[..n] == head + Customs(g.tokens);
      assert events[..n + 1][..n] == events[..n];
      assert Items(events[..n + 1]) == Items(events[..n]);
      if raised {
        assert events == events[..n + 1];
      } else {
        assert events[..n + 2][..n + 1] == events[..n + 1];
        assert events == events[..n + 2];
      }
    }
  }

  // ---- The endpoint ----

  datatype Message = Message(role: Role, content: string, citations: Option<seq<Citation>>)

  /** The message that a completed turn leaves behind; no citations are stored as none. */
  ghost function StoredAnswer(hits: seq<Retrieval.SearchHit>, g: Generation): Message {
    var final := FinalState(hits, g);
    Message(Assistant, final.answer, if final.citations == [] then None else Some(final.citations))
  }

  function CitationsOf(m: Message): seq<Citation> {
    if m.citations.Some? then m.citations.value else []
  }

  type Positive = n: int | 0 < n witness 1

  /** The browser reads to the end, or is gone once some frames have been sent. */
  datatype Reader = Stays | LeavesAfter(frames: Positive)

  predicate Gone(reader: Reader, sent: nat) {
    reader.LeavesAfter? && reader.frames <= sent
  }

  function TokenFrames(codec: Codec, tokens: seq<string>): seq<Frame> {
    seq(|tokens|, i requires 0 <= i < |tokens| => EventFrame(codec, "token", "text", Str(tokens[i])))
  }

  function FinalFrames(codec: Codec, citations: seq<Citation>, answer: string): seq<Frame> {
    [EventFrame(codec, "citations", "citations", CitationsJson(citations)),
     EventFrame(codec, "done", "length", Num(|answer|))]
  }

  /** All frames of a turn: tokens, then citations, then done. */
  ghost function AllFrames(codec: Codec, hits: seq<Retrieval.SearchHit>, g: Generation): seq<Frame> {
    var final := FinalState(hits, g);
    TokenFrames(codec, g.tokens) + FinalFrames(codec, final.citations, final.answer)
  }

  function Take<T>(s: seq<T>, reader: Reader): seq<T> {
    if Gone(reader, |s|) then s[..reader.frames] else s
  }

  function Cost(g: Generation): nat {
    Budget.GenerationCost(g.provider, g.model, g.usage.inputTokens, g.usage.outputTokens)
  }

  /** The second transaction commits: the pipeline did not raise and the reader saw all tokens. */
  ghost predicate Commits(g: Generation, reader: Reader, dbFails: bool) {
    !Fails(g) && !dbFails && (|g.tokens| > 0 ==> !Gone(reader, |g.tokens|))
  }

  /** The frames that go out: all of them only if the answer is stored. */
  ghost function Sent(codec: Codec, hits: seq<Retrieval.SearchHit>, g: Generation,
                      reader: Reader, dbFails: bool): seq<Frame> {
    Take(if Commits(g, reader, dbFails) then AllFrames(codec, hits, g) else TokenFrames(codec, g.tokens), reader)
  }

  /** How many frames go out, and what each of them is. */
  lemma SentExact(codec: Codec, hits: seq<Retrieval.SearchHit>, g: Generation, reader: Reader, dbFails: bool)
    ensures var sent, n, answer := Sent(codec, hits, g, reader, dbFails), |g.tokens|, Concat(g.tokens);
            var whole := n + if Commits(g, reader, dbFails) then 2 else 0;
            && |sent| == (if reader.LeavesAfter? && reader.frames < whole then reader.frames else whole)
            && (forall i | 0 <= i < n && i < |sent| ::
                  sent[i] == Frame("token", codec.dumps(Obj(map["text" := Str(g.tokens[i])]))))
            && (n < |sent| ==>
                  var citations := Cited(answer, hits, 240, |hits|);
                  sent[n] == Frame("citations", codec.dumps(Obj(map["citations" := CitationsJson(citations)]))))
            && (n + 1 < |sent| ==> sent[n + 1] == Frame("done", codec.dumps(Obj(map["length" := Num(|answer|)]))))
  {
  }

  /** The part of the turn that sends tokens; `gone` if the reader left meanwhile. */
  method SendTokens(items: seq<Item>, ghost tokens: seq<string>, ghost done: seq<Item>, codec: Codec, reader: Reader)
    returns (sent: seq<Frame>, parts: seq<string>, final: State, gone: bool)
    requires items == Tokens(tokens) + done && |done| <= 1 && (done != [] ==> done[0].Done?)
    ensures sent == Take(TokenFrames(codec, tokens), reader)
    ensures gone <==> tokens != [] && Gone(reader, |tokens|)
    ensures !gone ==> sent == TokenFrames(codec, tokens) && parts == tokens
    ensures !gone && done != [] ==> final == done[0].state
  {
    sent, parts, final := [], [], NOTHING_YET;
    for i := 0 to |items|
      invariant var n := if i <= |tokens| then i else |tokens|;
                sent == TokenFrames(codec, tokens)[..n] && parts == tokens[..n] && !Gone(reader, n)
      invariant i > |tokens| ==> final == done[0].state
    {
      match items[i] {
        case Token(text) =>
          parts := parts + [text];
          sent := sent + [EventFrame(codec, "token", "text", Str(text))];
          if Gone(reader, |sent|) {
            return sent, parts, final, true;
          }
        case Done(state) => final := state;
      }
    }
    return sent, parts, final, false;
  }

  lemma TakeLastFrames<T>(tokens: seq<T>, c: T, d: T, reader: Reader)
    requires tokens != [] ==> !Gone(reader, |tokens|)
    ensures Take(tokens + [c, d], reader) == tokens + [c] + if Gone(reader, |tokens| + 1) then [] else [d]
  {
  }

  class Endpoint {
    var messages: seq<Message>
    var alerts: nat
    const ledger: Budget.Ledger

    ghost predicate Valid()
      reads this, ledger
    {
      ledger.Valid()
    }

    constructor ()
      ensures Valid() && messages == [] && alerts == 0 && fresh(ledger)
    {
      messages, alerts := [], 0;
      ledger := new Budget.Ledger();
    }

    /**
     Streams one turn. The question is stored first, in a transaction of its own; the
     answer, its citations and its usage are stored together once all tokens are sent.
     */
    method EventStream(question: string, hits: seq<Retrieval.SearchHit>, g: Generation, codec: Codec,
                       reader: Reader, dbFails: bool)
      returns (sent: seq<Frame>)
      requires Valid()
      modifies this, ledger
      ensures Valid()
      ensures sent == Sent(codec, hits, g, reader, dbFails)
      ensures var asked := old(messages) + [Message(User, question, None)];
              if Commits(g, reader, dbFails) then
                && messages == asked + [StoredAnswer(hits, g)]
                && ledger.events == old(ledger.events)
                     + [Budget.UsageEvent(Budget.Generation, g.provider, g.model, g.usage.inputTokens,
                                          g.usage.outputTokens, Budget.Rounded(Cost(g)))]
                && alerts == old(alerts) + if Budget.Crosses(old(ledger.State()), Cost(g)) then 1 else 0
              else messages == asked && ledger.events == old(ledger.events) && alerts == old(alerts)
      ensures var answer := Concat(g.tokens);
              var citations := Cited(answer, hits, 240, |hits|);
              messages == old(messages) + [Message(User, question, None)]
                + if g.raises || dbFails || !Readable(answer) || (reader.LeavesAfter? && reader.frames <= |g.tokens|)
                  then [] else [Message(Assistant, answer, if citations == [] then None else Some(citations))]
      ensures |messages| == |old(messages)| + 2 ==>
                var cost := Budget.GenerationCost(g.provider, g.model, g.usage.inputTokens, g.usage.outputTokens);
                ledger.events == old(ledger.events)
                  + [Budget.UsageEvent(Budget.Generation, g.provider, g.model, g.usage.inputTokens,
                                       g.usage.outputTokens, Budget.Rounded(cost))]
    {
      messages := messages + [Message(User, question, None)];
      var items, raised := Answer(hits, g);
      var parts, final, gone;
      sent, parts, final, gone := SendTokens(items, g.tokens, if raised then [] else [Done(FinalState(hits, g))],
                                             codec, reader);
      if gone || raised || dbFails {
        return;
      }
      var answer, citations := Concat(parts), final.citations;
      messages := messages + [Message(Assistant, answer, if citations == [] then None else Some(citations))];
      var cost := Budget.GenerationCost(final.provider, final.model, final.usage.inputTokens, final.usage.outputTokens);
      var crossed := ledger.RecordUsage(Budget.Generation, final.provider, final.model,
                                        final.usage.inputTokens, final.usage.outputTokens, cost);
      if crossed {
        alerts := alerts + 1;
      }
      ghost var last := FinalFrames(codec, citations, answer);
      assert last == [last[0], last[1]];
      TakeLastFrames(sent, last[0], last[1], reader);
      sent := sent + [EventFrame(codec, "citations", "citations", CitationsJson(citations))];
      if !Gone(reader, |sent|) {
        sent := sent + [EventFrame(codec, "done", "length", Num(|answer|))];
      }
    }
  }
}
