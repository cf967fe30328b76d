/**
 A chat turn as the browser sees it: the events it is given are handed to the
 handlers of the page, and what the page shows is compared with what is stored.
 */
module Stream {
  import opened Wrappers
  import opened Sequences
  import opened Text
  import opened Sse
  import opened Citations
  import opened Chat
  import Retrieval

  /** What reading a property of a payload gives. */
  datatype Field = Undefined | Value(value: Json)

  datatype Call = OnToken(text: Field) | OnCitations(citations: Field) | OnDone(length: Field)

  /** Every payload but `null` can be read; strings and arrays have a length. */
  function Property(payload: Json, name: string): Field {
    match payload
    case Obj(fields) => if name in fields then Value(fields[name]) else Undefined
    case Str(s) => if name == "length" then Value(Num(|s|)) else Undefined
    case Arr(items) => if name == "length" then Value(Num(|items|)) else Undefined
    case _ => Undefined
  }

  /** The handler call that a frame leads to; malformed and unknown frames are dropped. */
  function Dispatched(codec: Codec, frame: Frame): seq<Call> {
    match codec.parse(frame.data)
    case None => []
    case Some(payload) =>
      if payload.Null? then []
      else if frame.event == "token" then [OnToken(Property(payload, "text"))]
      else if frame.event == "citations" then [OnCitations(Property(payload, "citations"))]
      else if frame.event == "done" then [OnDone(Property(payload, "length"))]
      else []
  }

  function FieldOf(fields: map<string, Json>, name: string): Field {
    if name in fields then Value(fields[name]) else Undefined
  }

  /** An object is handed to the handler of its event by name; malformed, null and unknown payloads are not. */
  lemma DispatchExact(codec: Codec, event: string, data: string)
    ensures var calls := Dispatched(codec, Frame(event, data));
            && (codec.parse(data) == None || codec.parse(data) == Some(Null) ==> calls == [])
            && (event !in {"token", "citations", "done"} ==> calls == [])
            && (forall fields | codec.parse(data) == Some(Obj(fields)) ::
                  && (event == "token" ==> calls == [OnToken(FieldOf(fields, "text"))])
                  && (event == "citations" ==> calls == [OnCitations(FieldOf(fields, "citations"))])
                  && (event == "done" ==> calls == [OnDone(FieldOf(fields, "length"))]))
  {
  }

  function Calls(codec: Codec, frames: seq<Frame>): seq<Call> {
    if frames == [] then []
    else Calls(codec, frames[..|frames| - 1]) + Dispatched(codec, frames[|frames| - 1])
  }

  /** The handlers were called like this after these reads. */
  ghost predicate Received(codec: Codec, pieces: seq<string>, calls: seq<Call>) {
    exists frames, buffer :: Reads(Concat(pieces), frames, buffer) && calls == Calls(codec, frames)
  }

  method StreamChatMessage(codec: Codec, pieces: seq<string>) returns (calls: seq<Call>)
    ensures Received(codec, pieces, calls)
  {
    var frames, buffer := ReadFrames(pieces);
    calls := [];
    for i := 0 to |frames|
      invariant calls == Calls(codec, frames[..i])
    {
      assert frames[..i + 1][..i] == frames[..i];
      calls := calls + Dispatched(codec, frames[i]);
    }
    assert frames[..|frames|] == frames;
  }

  /** The page shows the token texts one after the other. */
  function TextOf(calls: seq<Call>): string {
    if calls == [] then ""
    else
      var before, last := TextOf(calls[..|calls| - 1]), calls[|calls| - 1];
      if last.OnToken? && last.text.Value? && last.text.value.Str? then before + last.text.value.s else before
  }

  /** Every token text is shown once, in order, and nothing else is. */
  lemma {:induction false} TextExact(a: seq<Call>, b: seq<Call>)
    ensures TextOf(a + b) == TextOf(a) + TextOf(b)
    ensures forall s :: TextOf([OnToken(Value(Str(s)))]) == s
    ensures forall c: Call | !c.OnToken? :: TextOf([c]) == ""
  {
    forall c: Call ensures [c][..0] == [] {
    }
    if b == [] {
      assert a + b == a;
    } else {
      TextExact(a, b[..|b| - 1]);
      TextSnoc(a + b[..|b| - 1], b[|b| - 1]);
      LastApart(a, b);
    }
  }

  lemma TextSnoc(calls: seq<Call>, c: Call)
    ensures TextOf(calls + [c])
         == TextOf(calls) + if c.OnToken? && c.text.Value? && c.text.value.Str? then c.text.value.s else ""
  {
    assert (calls + [c])[..|calls|] == calls;
  }

  // ---- What a whole turn looks like ----

  function TokenCalls(tokens: seq<string>): seq<Call> {
    seq(|tokens|, i requires 0 <= i < |tokens| => OnToken(Value(Str(tokens[i]))))
  }

  function FinalCalls(citations: seq<Citation>, answer: string): (calls: seq<Call>)
    ensures |calls| == 2 && !calls[0].OnToken? && !calls[1].OnToken?
  {
    [OnCitations(Value(CitationsJson(citations))), OnDone(Value(Num(|answer|)))]
  }

  /** Tokens, then the citations, then the length of the answer. */
  ghost function WholeTurn(hits: seq<Retrieval.SearchHit>, g: Generation): seq<Call> {
    TokenCalls(g.tokens) + FinalCalls(FinalState(hits, g).citations, FinalState(hits, g).answer)
  }

  lemma FrameCalls(codec: Codec, event: string, field: string, value: Json)
    requires Faithful(codec)
    ensures Printable(EventFrame(codec, event, field, value)) <==> '\n' !in event
    ensures event == "token" && field == "text" ==>
              Dispatched(codec, EventFrame(codec, event, field, value)) == [OnToken(Value(value))]
    ensures event == "citations" && field == "citations" ==>
              Dispatched(codec, EventFrame(codec, event, field, value)) == [OnCitations(Value(value))]
    ensures event == "done" && field == "length" ==>
              Dispatched(codec, EventFrame(codec, event, field, value)) == [OnDone(Value(value))]
  {
    var payload := Obj(map[field := value]);
    assert Undone(codec, payload);
  }

  lemma CallsSnoc(codec: Codec, frames: seq<Frame>, frame: Frame)
    ensures Calls(codec, frames + [frame]) == Calls(codec, frames) + Dispatched(codec, frame)
  {
    assert (frames + [frame])[..|frames|] == frames;
  }

  lemma {:induction false} CallsAppend(codec: Codec, a: seq<Frame>, b: seq<Frame>)
    ensures Calls(codec, a + b) == Calls(codec, a) + Calls(codec, b)
  {
    if b == [] {
      assert a + b == a;
      assert Calls(codec, a) + [] == Calls(codec, a);
    } else {
      CallsAppend(codec, a, b[..|b| - 1]);
      CallsAppendLast(codec, a, b);
    }
  }

  lemma CallsAppendLast(codec: Codec, a: seq<Frame>, b: seq<Frame>)
    requires b != [] && Calls(codec, a + b[..|b| - 1]) == Calls(codec, a) + Calls(codec, b[..|b| - 1])
    ensures Calls(codec, a + b) == Calls(codec, a) + Calls(codec, b)
  {
    var first, last := b[..|b| - 1], b[|b| - 1];
    CallsSnoc(codec, a + first, last);
    Regroup(Calls(codec, a), Calls(codec, first), Dispatched(codec, last));
    LastApart(a, b);
  }

  lemma TokenDispatched(codec: Codec, token: string) returns (frame: Frame)
    requires Faithful(codec)
    ensures frame == EventFrame(codec, "token", "text", Str(token)) && Printable(frame)
    ensures Calls(codec, [frame]) == TokenCalls([token])
  {
    frame := EventFrame(codec, "token", "text", Str(token));
    FrameCalls(codec, "token", "text", Str(token));
    assert [frame][..0] == [];
  }

  lemma {:induction false} TokensDispatched(codec: Codec, tokens: seq<string>)
    requires Faithful(codec)
    ensures Calls(codec, TokenFrames(codec, tokens)) == TokenCalls(tokens)
  {
    if tokens != [] {
      var n := |tokens| - 1;
      var frame := TokenDispatched(codec, tokens[n]);
      TokensDispatched(codec, tokens[..n]);
      CallsAppend(codec, TokenFrames(codec, tokens[..n]), [frame]);
      OneMoreToken(codec, tokens, n);
    }
  }

  lemma OneMoreToken(codec: Codec, tokens: seq<string>, n: nat)
    requires |tokens| == n + 1
    ensures TokenFrames(codec, tokens)
         == TokenFrames(codec, tokens[..n]) + [EventFrame(codec, "token", "text", Str(tokens[n]))]
    ensures TokenCalls(tokens) == TokenCalls(tokens[..n]) + TokenCalls([tokens[n]])
  {
  }

  lemma FinalDispatched(codec: Codec, citations: seq<Citation>, answer: string)
    requires Faithful(codec)
    ensures Calls(codec, FinalFrames(codec, citations, answer)) == FinalCalls(citations, answer)
    ensures forall f | f in FinalFrames(codec, citations, answer) :: Printable(f)
  {
    FrameCalls(codec, "citations", "citations", CitationsJson(citations));
    FrameCalls(codec, "done", "length", Num(|answer|));
    var frames := FinalFrames(codec, citations, answer);
    assert frames == [frames[0]] + [frames[1]];
    CallsAppend(codec, [frames[0]], [frames[1]]);
    assert [frames[0]][..0] == [] && [frames[1]][..0] == [];
  }

  lemma WholeTurnDispatched(codec: Codec, hits: seq<Retrieval.SearchHit>, g: Generation)
    requires Faithful(codec)
    ensures Calls(codec, AllFrames(codec, hits, g)) == WholeTurn(hits, g)
    ensures forall f | f in AllFrames(codec, hits, g) :: Printable(f)
  {
    var final := FinalState(hits, g);
    var tokens, last := TokenFrames(codec, g.tokens), FinalFrames(codec, final.citations, final.answer);
    TokensDispatched(codec, g.tokens);
    FinalDispatched(codec, final.citations, final.answer);
    CallsAppend(codec, tokens, last);
    forall i | 0 <= i < |tokens| ensures Printable(tokens[i]) {
      var frame := TokenDispatched(codec, g.tokens[i]);
    }
  }

  lemma {:induction false} CallsOfPrefix(codec: Codec, frames: seq<Frame>, whole: seq<Frame>)
    requires frames <= whole
    ensures Calls(codec, frames) <= Calls(codec, whole) && |Calls(codec, frames)| <= |frames|
    decreases |whole|
  {
    if frames == whole {
      if frames != [] {
        CallsOfPrefix(codec, frames[..|frames| - 1], frames[..|frames| - 1]);
      }
    } else {
      CallsOfPrefix(codec, frames, whole[..|whole| - 1]);
    }
  }

  lemma {:induction false} TokenText(tokens: seq<string>)
    ensures TextOf(TokenCalls(tokens)) == Concat(tokens)
  {
    if tokens != [] {
      var n := |tokens| - 1;
      TokenText(tokens[..n]);
      assert TokenCalls(tokens)[..n] == TokenCalls(tokens[..n]);
      ConcatAppend(tokens[..n], [tokens[n]]);
      assert Concat([tokens[n]]) == tokens[n];
      assert tokens[..n] + [tokens[n]] == tokens;
    }
  }

  lemma TokenCallsTake(tokens: seq<string>, k: nat)
    requires k <= |tokens|
    ensures TokenCalls(tokens)[..k] == TokenCalls(tokens[..k])
  {
  }

  lemma TextOfTokens(tokens: seq<string>, n: nat)
    requires n <= |tokens|
    ensures TextOf(TokenCalls(tokens)[..n]) <= Concat(tokens)
    ensures n == |tokens| ==> TextOf(TokenCalls(tokens)[..n]) == Concat(tokens)
  {
    TokenCallsTake(tokens, n);
    TokenText(tokens[..n]);
    ConcatAppend(tokens[..n], tokens[n..]);
    assert tokens[..n] + tokens[n..] == tokens;
  }

  lemma {:induction false} TextUnchanged(calls: seq<Call>, more: seq<Call>)
    requires forall i | 0 <= i < |more| :: !more[i].OnToken?
    ensures TextOf(calls + more) == TextOf(calls)
  {
    if more == [] {
      assert calls + more == calls;
    } else {
      var n := |more| - 1;
      var all, most := calls + more, more[..n];
      forall i | 0 <= i < n ensures !most[i].OnToken? {
        assert most[i] == more[i];
      }
      TextUnchanged(calls, most);
      assert all[..|all| - 1] == calls + most && all[|all| - 1] == more[n];
    }
  }

  lemma SplitPart<T>(a: seq<T>, b: seq<T>, part: seq<T>)
    requires part <= a + b
    ensures if |part| <= |a| then part == a[..|part|] else part == a + b[..|part| - |a|]
  {
    assert part == (a + b)[..|part|];
  }

  lemma {:induction false} OnlyTokensYet(tokens: seq<string>, last: seq<Call>, calls: seq<Call>)
    requires calls <= TokenCalls(tokens) + last && |calls| <= |tokens|
    ensures TextOf(calls) <= Concat(tokens)
    ensures |calls| == |tokens| ==> TextOf(calls) == Concat(tokens)
    ensures forall c | c in calls :: c.OnToken?
  {
    SplitPart(TokenCalls(tokens), last, calls);
    TextOfTokens(tokens, |calls|);
  }

  lemma {:induction false} AllTokensThrough(tokens: seq<string>, last: seq<Call>, calls: seq<Call>)
    requires forall i | 0 <= i < |last| :: !last[i].OnToken?
    requires calls <= TokenCalls(tokens) + last && |calls| > |tokens|
    ensures TextOf(calls) == Concat(tokens)
  {
    var all := TokenCalls(tokens);
    SplitPart(all, last, calls);
    TextUnchanged(all, last[..|calls| - |tokens|]);
    TextOfTokens(tokens, |tokens|);
    assert all[..|tokens|] == all;
  }

  /**
   The text shown after a part of the turn is a beginning of the answer,
   and all of it once the tokens are through.
   */
  lemma {:induction false} TextOfPart(tokens: seq<string>, last: seq<Call>, calls: seq<Call>)
    requires forall i | 0 <= i < |last| :: !last[i].OnToken?
    requires calls <= TokenCalls(tokens) + last
    ensures TextOf(calls) <= Concat(tokens)
    ensures |calls| >= |tokens| ==> TextOf(calls) == Concat(tokens)
    ensures |calls| <= |tokens| ==> forall c | c in calls :: c.OnToken?
  {
    if |calls| <= |tokens| {
      OnlyTokensYet(tokens, last, calls);
    } else {
      AllTokensThrough(tokens, last, calls);
    }
  }

  lemma {:induction false} TextOfTurn(hits: seq<Retrieval.SearchHit>, g: Generation, calls: seq<Call>)
    requires calls <= WholeTurn(hits, g)
    ensures TextOf(calls) <= Concat(g.tokens)
    ensures |calls| >= |g.tokens| ==> TextOf(calls) == Concat(g.tokens)
    ensures |calls| <= |g.tokens| ==> forall c | c in calls :: c.OnToken?
  {
    var last := FinalCalls(FinalState(hits, g).citations, FinalState(hits, g).answer);
    TextOfPart(g.tokens, last, calls);
  }

  // ---- What the browser can rely on ----

  /** The frames read from a beginning of the stream are a beginning of the frames sent. */
  lemma FramesSeen(sent: seq<Frame>, text: string, frames: seq<Frame>, buffer: string)
    requires forall f | f in sent :: Printable(f)
    requires text <= PrintAll(sent) && Reads(text, frames, buffer)
    ensures frames <= sent
    ensures text == PrintAll(sent) ==> frames == sent
  {
    var printed := RoundTrip(sent);
    var more := PrintAll(sent)[|text|..];
    assert text + more == PrintAll(sent);
    assert Reads(text + more, sent, "");
    EarlierReads(text, more, frames, buffer, sent, "");
    if text == PrintAll(sent) {
      ReadsUnique(text, frames, buffer, sent, "");
    }
  }

  lemma SentIsPart(codec: Codec, hits: seq<Retrieval.SearchHit>, g: Generation, reader: Reader, dbFails: bool)
    ensures Sent(codec, hits, g, reader, dbFails) <= AllFrames(codec, hits, g)
    ensures !Commits(g, reader, dbFails) ==> |Sent(codec, hits, g, reader, dbFails)| <= |g.tokens|
    ensures Commits(g, reader, dbFails) && reader.Stays? ==>
              Sent(codec, hits, g, reader, dbFails) == AllFrames(codec, hits, g)
  {
  }

  /** The citations that the handlers were given, if any, are those of the message. */
  ghost predicate HearsCitationsOf(calls: seq<Call>, m: Message) {
    forall c | c in calls && c.OnCitations? ::
      c.citations.Value? && DecodedCitations(c.citations.value) == Some(CitationsOf(m))
  }

  /** The handlers have heard more than tokens. */
  ghost predicate HearsTheEnd(calls: seq<Call>) {
    exists c :: c in calls && !c.OnToken?
  }

  lemma HeardAreStored(hits: seq<Retrieval.SearchHit>, g: Generation, calls: seq<Call>)
    requires calls <= WholeTurn(hits, g)
    ensures HearsCitationsOf(calls, StoredAnswer(hits, g))
  {
    CitationsRoundTrip(FinalState(hits, g).citations);
    forall c | c in calls && c.OnCitations?
      ensures c == OnCitations(Value(CitationsJson(FinalState(hits, g).citations)))
    {
      var i :| 0 <= i < |calls| && calls[i] == c;
      assert WholeTurn(hits, g)[i] == c;
    }
  }

  /**
   Whatever goes wrong in a turn (the model raises, the database fails, the reader
   leaves, the connection is cut in the middle of a frame) the handlers are called
   as in a beginning of the whole turn, and they hear of citations or of the end only if the
   answer has been stored; the text shown and the citations heard are then the stored ones.
   */
  lemma SeenImpliesStored(codec: Codec, hits: seq<Retrieval.SearchHit>, g: Generation, reader: Reader, dbFails: bool,
                          pieces: seq<string>, calls: seq<Call>)
    requires Faithful(codec) && Received(codec, pieces, calls)
    requires Concat(pieces) <= PrintAll(Sent(codec, hits, g, reader, dbFails))
    ensures calls <= WholeTurn(hits, g) && TextOf(calls) <= StoredAnswer(hits, g).content
    ensures HearsTheEnd(calls) ==> Commits(g, reader, dbFails) && TextOf(calls) == StoredAnswer(hits, g).content
    ensures HearsCitationsOf(calls, StoredAnswer(hits, g))
  {
    var sent := Sent(codec, hits, g, reader, dbFails);
    var frames, buffer :| Reads(Concat(pieces), frames, buffer) && calls == Calls(codec, frames);
    WholeTurnDispatched(codec, hits, g);
    SentIsPart(codec, hits, g, reader, dbFails);
    FramesSeen(sent, Concat(pieces), frames, buffer);
    CallsOfPrefix(codec, frames, AllFrames(codec, hits, g));
    TextOfTurn(hits, g, calls);
    HeardAreStored(hits, g, calls);
  }

  /**
   What the handlers are told is the message: the tokens concatenate to its content, and
   after them come its citations and then the length of its content, and nothing else.
   */
  ghost predicate Conserved(calls: seq<Call>, tokens: seq<string>, m: Message) {
    calls == TokenCalls(tokens) + FinalCalls(CitationsOf(m), m.content) && TextOf(calls) == m.content
  }

  /**
   In every completed turn, however the stream is cut into reads, the handlers are told
   exactly the stored answer, which is the answer that was cited.
   */
  lemma {:induction false} StreamConservation(codec: Codec, hits: seq<Retrieval.SearchHit>,
                                             g: Generation, dbFails: bool,
                           pieces: seq<string>, calls: seq<Call>)
    requires Faithful(codec) && Received(codec, pieces, calls) && Commits(g, Stays, dbFails)
    requires Concat(pieces) == PrintAll(Sent(codec, hits, g, Stays, dbFails))
    ensures Conserved(calls, g.tokens, StoredAnswer(hits, g))
  {
    var frames, buffer :| Reads(Concat(pieces), frames, buffer) && calls == Calls(codec, frames);
    WholeTurnDispatched(codec, hits, g);
    SentIsPart(codec, hits, g, Stays, dbFails);
    FramesSeen(AllFrames(codec, hits, g), Concat(pieces), frames, buffer);
    TextOfTurn(hits, g, calls);
  }

  // ---- Server and browser together ----

  /** The connection cuts the text into reads and may break off. */
  ghost predicate BreaksOff(network: string -> seq<string>) {
    forall text :: Concat(network(text)) <= text
  }

  ghost predicate Lossless(network: string -> seq<string>) {
    forall text :: Concat(network(text)) == text
  }

  /**
   One chat turn from the question to the handlers. If they hear of citations or of the end, the
   last stored message is the answer, with the text that the page shows and the citations
   that the handlers were given; and if nothing fails they are told exactly that message.
   */
  method ChatTurn(endpoint: Endpoint, question: string, hits: seq<Retrieval.SearchHit>, g: Generation, codec: Codec,
                  reader: Reader, dbFails: bool, network: string -> seq<string>)
    returns (calls: seq<Call>)
    requires endpoint.Valid() && Faithful(codec) && BreaksOff(network)
    modifies endpoint, endpoint.ledger
    ensures endpoint.Valid()
    ensures TextOf(calls) <= Concat(g.tokens)
    ensures HearsTheEnd(calls) ==>
              exists stored: Message ::
                && endpoint.messages == old(endpoint.messages) + [Message(User, question, None)] + [stored]
                && stored.role == Assistant && TextOf(calls) == stored.content && HearsCitationsOf(calls, stored)
    ensures Commits(g, reader, dbFails) && reader.Stays? && Lossless(network) ==>
              exists stored: Message ::
                && endpoint.messages == old(endpoint.messages) + [Message(User, question, None)] + [stored]
                && stored.role == Assistant && Conserved(calls, g.tokens, stored)
  {
    var sent := endpoint.EventStream(question, hits, g, codec, reader, dbFails);
    var pieces := network(PrintAll(sent));
    calls := StreamChatMessage(codec, pieces);
    SeenImpliesStored(codec, hits, g, reader, dbFails, pieces, calls);
    if Commits(g, reader, dbFails) && reader.Stays? {
      ghost var whole := Concat(pieces) == PrintAll(sent);
      if whole {
        StreamConservation(codec, hits, g, dbFails, pieces, calls);
      }
    }
  }

  /** The page shows the text as these parts. */
  ghost predicate Rendered(content: string, markers: set<nat>, parts: seq<Part>) {
    exists spans :: Partition(content, markers, parts, spans) && AllChips(content, markers, parts, spans)
  }

  /**
   The offline provider end to end: in a completed turn the citations read from the payload
   that the browser received are one for each hit, and the text it received, split with them,
   shows a chip for each hit and no other chip.
   */
  lemma OfflineTurn(template: string, hits: seq<Retrieval.SearchHit>, messages: seq<ChatMessage>,
                    repr: string -> string,
                    g: Generation, calls: seq<Call>, payload: Json, citations: seq<Citation>, parts: seq<Part>)
    requires Concat(g.tokens) == StubAnswer(SystemPrompt(template, hits), messages, repr)
    requires Conserved(calls, g.tokens, StoredAnswer(hits, g)) && OnCitations(Value(payload)) in calls
    requires DecodedCitations(payload) == Some(citations) && Rendered(TextOf(calls), Markers(citations), parts)
    ensures citations == AllCited(hits, SNIPPET_CHARS)
    ensures forall n :: n in ChipMarkers(parts) <==> 1 <= n <= |hits|
  {
    HeardAreStored(hits, g, calls);
    StubCitesAll(template, hits, messages, repr, SNIPPET_CHARS);
    var spans :| Partition(TextOf(calls), Markers(citations), parts, spans)
                 && AllChips(TextOf(calls), Markers(citations), parts, spans);
    StubChips(template, hits, messages, repr, SNIPPET_CHARS, parts, spans);
  }
}
