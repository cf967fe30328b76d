/**
 Server-sent events: the server's frame printer and the browser's incremental
 frame parser, which sees the stream cut into reads at arbitrary places.
 */
module Sse {
  import opened Text
  import opened Wrappers

  datatype Frame = Frame(event: string, data: string)

  const EVENT_FIELD := "event: "
  const DATA_FIELD := "data: "

  /** The printer; `json` is the encoded payload. */
  function Print(f: Frame): string {
    "event: " + f.event + "\ndata: " + f.data + "\n\n"
  }

  function PrintAll(frames: seq<Frame>): string {
    if frames == [] then "" else Print(frames[0]) + PrintAll(frames[1..])
  }

  // ---- One frame ----

  predicate StartsWith(s: string, prefix: string) {
    |prefix| <= |s| && s[..|prefix|] == prefix
  }

  /** The last `event: ` line names the event; without one it is a `message`. */
  function EventOf(lines: seq<string>): string {
    if lines == [] then "message"
    else
      var line := lines[|lines| - 1];
      if StartsWith(line, EVENT_FIELD) then line[|EVENT_FIELD|..] else EventOf(lines[..|lines| - 1])
  }

  /** The `data: ` lines, in order, without the field name. */
  function DataOf(lines: seq<string>): seq<string> {
    if lines == [] then []
    else
      var before, line := DataOf(lines[..|lines| - 1]), lines[|lines| - 1];
      if StartsWith(line, DATA_FIELD) then before + [line[|DATA_FIELD|..]] else before
  }

  function ParsedFrame(raw: string): Option<Frame> {
    var lines := Split(raw, '\n');
    if DataOf(lines) == [] then None else Some(Frame(EventOf(lines), Join("\n", DataOf(lines))))
  }

  method ParseSseFrame(raw: string) returns (frame: Option<Frame>)
    ensures frame == ParsedFrame(raw)
  {
    var event, dataLines := "message", [];
    var lines := Split(raw, '\n');
    for i := 0 to |lines|
      invariant event == EventOf(lines[..i])
      invariant dataLines == DataOf(lines[..i])
    {
      assert lines[..i + 1][..i] == lines[..i];
      if StartsWith(lines[i], EVENT_FIELD) {
        event := lines[i][|EVENT_FIELD|..];
        assert !StartsWith(lines[i], DATA_FIELD) by { assert lines[i][0] == 'e'; }
      } else if StartsWith(lines[i], DATA_FIELD) {
        dataLines := dataLines + [lines[i][|DATA_FIELD|..]];
      }
    }
    assert lines[..|lines|] == lines;
    if |dataLines| == 0 {
      return None;
    }
    return Some(Frame(event, Join("\n", dataLines)));
  }

  // ---- What a frame says ----

  /** Line `i` names this event, and no later line names one. */
  ghost predicate LastNamed(lines: seq<string>, event: string, i: nat) {
    && i < |lines| && lines[i] == "event: " + event
    && forall k | i < k < |lines| :: !("event: " <= lines[k])
  }

  ghost predicate NeverNamed(lines: seq<string>) {
    forall k | 0 <= k < |lines| :: !("event: " <= lines[k])
  }

  lemma UnnamedNext(before: seq<string>, line: string, event: string)
    requires !("event: " <= line)
    ensures NeverNamed(before) ==> NeverNamed(before + [line])
    ensures forall i: nat | LastNamed(before, event, i) :: LastNamed(before + [line], event, i)
  {
    var lines := before + [line];
    forall k | NeverNamed(before) && 0 <= k < |lines| ensures !("event: " <= lines[k]) {
      assert k < |before| ==> lines[k] == before[k];
    }
    forall i: nat | LastNamed(before, event, i) ensures LastNamed(lines, event, i) {
      forall k | i < k < |lines| ensures !("event: " <= lines[k]) {
        assert k < |before| ==> lines[k] == before[k];
      }
    }
  }

  /** The event is named by the last line that begins with the field name, and is a message without one. */
  lemma {:induction false} EventIsLast(lines: seq<string>, event: string)
    requires event == EventOf(lines)
    ensures (NeverNamed(lines) && event == "message") || exists i: nat :: LastNamed(lines, event, i)
  {
    if lines != [] {
      var before, line := lines[..|lines| - 1], lines[|lines| - 1];
      var earlier := EventOf(before);
      EventIsLast(before, earlier);
      assert lines == before + [line];
      assert StartsWith(line, EVENT_FIELD) <==> EVENT_FIELD <= line;
      if StartsWith(line, EVENT_FIELD) {
        assert line == EVENT_FIELD + line[|EVENT_FIELD|..];
        assert LastNamed(lines, event, |before|);
      } else {
        UnnamedNext(before, line, earlier);
        assert event == earlier;
      }
    }
  }

  /** `at` are the lines that begin with the field name of data, and `data` is what follows it there. */
  ghost predicate DataAt(lines: seq<string>, at: seq<nat>, data: seq<string>) {
    && |at| == |data|
    && (forall k | 0 <= k < |at| :: at[k] < |lines| && lines[at[k]] == "data: " + data[k])
    && (forall j, k | 0 <= j < k < |at| :: at[j] < at[k])
    && (forall i: nat | i < |lines| && "data: " <= lines[i] :: i in at)
  }

  lemma DataOnNextLine(lines: seq<string>, at: seq<nat>, data: seq<string>, d: string)
    requires DataAt(lines, at, data)
    ensures DataAt(lines + ["data: " + d], at + [|lines|], data + [d])
  {
    var longer, at' := lines + ["data: " + d], at + [|lines|];
    forall i: nat | i < |longer| && "data: " <= longer[i] ensures i in at' {
      assert i < |lines| ==> lines[i] == longer[i] && i in at;
    }
  }

  lemma NoDataOnNextLine(lines: seq<string>, at: seq<nat>, data: seq<string>, line: string)
    requires DataAt(lines, at, data) && !("data: " <= line)
    ensures DataAt(lines + [line], at, data)
  {
    var longer := lines + [line];
    forall i: nat | i < |longer| && "data: " <= longer[i] ensures i in at {
      assert i < |lines| && lines[i] == longer[i];
    }
  }

  lemma {:induction false} DataIsEveryLine(lines: seq<string>) returns (at: seq<nat>)
    ensures DataAt(lines, at, DataOf(lines))
  {
    at := [];
    if lines != [] {
      var before, line := lines[..|lines| - 1], lines[|lines| - 1];
      at := DataIsEveryLine(before);
      assert lines == before + [line];
      assert StartsWith(line, DATA_FIELD) <==> DATA_FIELD <= line;
      if StartsWith(line, DATA_FIELD) {
        assert line == DATA_FIELD + line[|DATA_FIELD|..];
        DataOnNextLine(before, at, DataOf(before), line[|DATA_FIELD|..]);
        at := at + [|before|];
      } else {
        NoDataOnNextLine(before, at, DataOf(before), line);
      }
    }
  }

  /**
   A frame is dropped exactly when no line carries data. Otherwise its data is that of all
   such lines, in order and joined by line breaks, and its event that of the last line that names one.
   */
  lemma FrameExact(raw: string) returns (at: seq<nat>, data: seq<string>)
    ensures DataAt(Split(raw, '\n'), at, data)
    ensures ParsedFrame(raw).None? <==> data == []
    ensures ParsedFrame(raw).Some? ==>
              var f, lines := ParsedFrame(raw).value, Split(raw, '\n');
              && f.data == Join("\n", data)
              && ((NeverNamed(lines) && f.event == "message") || exists i: nat :: LastNamed(lines, f.event, i))
  {
    at := DataIsEveryLine(Split(raw, '\n'));
    data := DataOf(Split(raw, '\n'));
    EventIsLast(Split(raw, '\n'), EventOf(Split(raw, '\n')));
  }

  /** A printed frame is two lines and a blank one. */
  lemma PrintedText(event: string, data: string)
    ensures Print(Frame(event, data)) == "event: " + (event + ("\ndata: " + (data + "\n\n")))
  {
  }

  // ---- The buffer ----

  predicate BlankLineAt(s: string, i: nat) {
    i + 1 < |s| && s[i] == '\n' && s[i + 1] == '\n'
  }

  ghost predicate NoBlankLine(s: string) {
    forall k: nat :: !BlankLineAt(s, k)
  }

  ghost predicate FirstBlankLine(s: string, i: nat) {
    BlankLineAt(s, i) && forall k: nat | k < i :: !BlankLineAt(s, k)
  }

  /** `s.indexOf('\n\n')`. */
  method IndexOfBlankLine(s: string) returns (i: int)
    ensures i == -1 ==> NoBlankLine(s)
    ensures i != -1 ==> 0 <= i && FirstBlankLine(s, i)
  {
    for j := 0 to |s|
      invariant forall k: nat | k < j :: !BlankLineAt(s, k)
    {
      if BlankLineAt(s, j) {
        return j;
      }
    }
    return -1;
  }

  /** `raw` is the text before the first blank line of `s`, and `rest` the text after it. */
  ghost predicate Cut(s: string, raw: string, rest: string) {
    s == raw + "\n\n" + rest && forall k: nat | k < |raw| :: !BlankLineAt(s, k)
  }

  lemma CutAt(s: string, i: nat)
    requires FirstBlankLine(s, i)
    ensures Cut(s, s[..i], s[i + 2..])
  {
    assert s == s[..i] + "\n\n" + s[i + 2..];
  }

  /**
   `text` consists of the raw frames `raws`, each closed by the first blank line
   that follows it, and an unfinished frame `rest`.
   */
  ghost predicate Framed(text: string, raws: seq<string>, rest: string)
    decreases |raws|
  {
    if raws == [] then text == rest && NoBlankLine(rest)
    else exists tail :: Cut(text, raws[0], tail) && Framed(tail, raws[1..], rest)
  }

  /** What the handlers are given for these raw frames. */
  function Parsed(raws: seq<string>): seq<Frame> {
    if raws == [] then []
    else
      var before := Parsed(raws[..|raws| - 1]);
      match ParsedFrame(raws[|raws| - 1])
      case None => before
      case Some(f) => before + [f]
  }

  /** The text contains these frames, and after them the unfinished frame `buffer`. */
  ghost predicate Reads(text: string, frames: seq<Frame>, buffer: string) {
    exists raws :: Framed(text, raws, buffer) && frames == Parsed(raws)
  }

  /**
   The read loop of the chat client. `pieces` are the decoded reads of the stream;
   the frames are handed on in the order of `frames`.
   */
  method ReadFrames(pieces: seq<string>) returns (frames: seq<Frame>, buffer: string)
    ensures Reads(Concat(pieces), frames, buffer)
  {
    frames, buffer := [], "";
    ghost var raws: seq<string> := [];
    for n := 0 to |pieces|
      invariant Framed(Concat(pieces[..n]), raws, buffer)
      invariant frames == Parsed(raws)
    {
      ghost var text := Concat(pieces[..n + 1]);
      assert pieces[..n + 1] == pieces[..n] + [pieces[n]];
      ConcatAppend(pieces[..n], [pieces[n]]);
      assert text == Concat(pieces[..n]) + pieces[n];
      FramedGrows(Concat(pieces[..n]), raws, buffer, pieces[n]);
      buffer := buffer + pieces[n];
      var boundary := IndexOfBlankLine(buffer);
      while boundary != -1
        invariant FramedOpen(text, raws, buffer)
        invariant frames == Parsed(raws)
        invariant boundary == -1 ==> NoBlankLine(buffer)
        invariant boundary != -1 ==> 0 <= boundary && FirstBlankLine(buffer, boundary)
        decreases |buffer|
      {
        var rawFrame := buffer[..boundary];
        CutAt(buffer, boundary);
        FramedNext(text, raws, buffer, rawFrame, buffer[boundary + 2..]);
        buffer := buffer[boundary + 2..];
        var frame := ParseSseFrame(rawFrame);
        assert (raws + [rawFrame])[..|raws|] == raws;
        raws := raws + [rawFrame];
        match frame {
          case None =>
          case Some(f) => frames := frames + [f];
        }
        boundary := IndexOfBlankLine(buffer);
      }
      FramedClose(text, raws, buffer);
    }
    assert pieces[..|pieces|] == pieces;
  }

  /** `Framed`, except that the rest may contain further frames. */
  ghost predicate FramedOpen(text: string, raws: seq<string>, rest: string)
    decreases |raws|
  {
    if raws == [] then text == rest
    else exists tail :: Cut(text, raws[0], tail) && FramedOpen(tail, raws[1..], rest)
  }

  lemma CutGrows(s: string, raw: string, rest: string, more: string)
    requires Cut(s, raw, rest)
    ensures Cut(s + more, raw, rest + more)
  {
    assert s + more == raw + "\n\n" + (rest + more);
    forall k: nat | k < |raw| ensures !BlankLineAt(s + more, k) {
      assert !BlankLineAt(s, k);
    }
  }

  lemma {:induction false} FramedGrows(text: string, raws: seq<string>, rest: string, more: string)
    requires Framed(text, raws, rest)
    ensures FramedOpen(text + more, raws, rest + more)
    decreases |raws|
  {
    if raws != [] {
      var tail :| Cut(text, raws[0], tail) && Framed(tail, raws[1..], rest);
      CutGrows(text, raws[0], tail, more);
      FramedGrows(tail, raws[1..], rest, more);
    }
  }

  lemma {:induction false} FramedNext(text: string, raws: seq<string>, s: string, raw: string, rest: string)
    requires FramedOpen(text, raws, s) && Cut(s, raw, rest)
    ensures FramedOpen(text, raws + [raw], rest)
    decreases |raws|
  {
    var next := raws + [raw];
    if raws == [] {
      assert next[1..] == [];
      assert FramedOpen(rest, next[1..], rest);
    } else {
      var tail :| Cut(text, raws[0], tail) && FramedOpen(tail, raws[1..], s);
      FramedNext(tail, raws[1..], s, raw, rest);
      assert next[1..] == raws[1..] + [raw];
    }
  }

  lemma {:induction false} FramedClose(text: string, raws: seq<string>, rest: string)
    requires FramedOpen(text, raws, rest) && NoBlankLine(rest)
    ensures Framed(text, raws, rest)
    decreases |raws|
  {
    if raws != [] {
      var tail :| Cut(text, raws[0], tail) && FramedOpen(tail, raws[1..], rest);
      FramedClose(tail, raws[1..], rest);
    }
  }

  // ---- Independence from the read boundaries ----

  lemma CutUnique(s: string, raw: string, rest: string, raw': string, rest': string)
    requires Cut(s, raw, rest) && Cut(s, raw', rest')
    ensures raw == raw' && rest == rest'
  {
    assert BlankLineAt(s, |raw|) && BlankLineAt(s, |raw'|);
    assert |raw| == |raw'|;
    assert raw == s[..|raw|] && raw' == s[..|raw'|];
    assert rest == s[|raw| + 2..] && rest' == s[|raw'| + 2..];
  }

  /**
   A text has only one division into frames and leftover, so what the loop
   dispatches depends on the concatenation of the reads alone.
   */
  lemma {:induction false} FramedUnique(text: string, raws: seq<string>, rest: string,
                                       raws': seq<string>, rest': string)
    requires Framed(text, raws, rest) && Framed(text, raws', rest')
    ensures raws == raws' && rest == rest'
    decreases |raws|
  {
    if raws == [] {
      if raws' != [] {
        var tail :| Cut(text, raws'[0], tail) && Framed(tail, raws'[1..], rest');
        assert BlankLineAt(text, |raws'[0]|);
      }
    } else {
      var tail :| Cut(text, raws[0], tail) && Framed(tail, raws[1..], rest);
      assert BlankLineAt(text, |raws[0]|);
      var tail' :| Cut(text, raws'[0], tail') && Framed(tail', raws'[1..], rest');
      CutUnique(text, raws[0], tail, raws'[0], tail');
      FramedUnique(tail, raws[1..], rest, raws'[1..], rest');
      assert raws == [raws[0]] + raws[1..] && raws' == [raws'[0]] + raws'[1..];
    }
  }

  lemma ReadsUnique(text: string, frames: seq<Frame>, buffer: string, frames': seq<Frame>, buffer': string)
    requires Reads(text, frames, buffer) && Reads(text, frames', buffer')
    ensures frames == frames' && buffer == buffer'
  {
    var raws :| Framed(text, raws, buffer) && frames == Parsed(raws);
    var raws' :| Framed(text, raws', buffer') && frames' == Parsed(raws');
    FramedUnique(text, raws, buffer, raws', buffer');
  }

  // ---- Round trip ----

  ghost predicate Printable(f: Frame) {
    '\n' !in f.event && '\n' !in f.data
  }

  /** The printed frame without its closing blank line. */
  function Body(f: Frame): string {
    "event: " + f.event + "\ndata: " + f.data
  }

  lemma ParsedBody(f: Frame)
    requires Printable(f)
    ensures ParsedFrame(Body(f)) == Some(f)
  {
    var a, b := EVENT_FIELD + f.event, DATA_FIELD + f.data;
    var lines := [a, b];
    assert Body(f) == a + "\n" + b == Join("\n", lines);
    SplitJoin(lines, '\n');
    assert a[..7] == EVENT_FIELD && a[7..] == f.event;
    assert b[..6] == DATA_FIELD && b[6..] == f.data;
    assert !StartsWith(b, EVENT_FIELD) by { assert b[0] == 'd'; }
    assert !StartsWith(a, DATA_FIELD) by { assert a[0] == 'e'; }
    assert lines[..1] == [a];
    assert DataOf([a]) == [] by { assert [a][..0] == []; }
    assert EventOf([a]) == f.event;
  }

  /** The printed frame up to its payload. */
  function Head(event: string): string {
    "event: " + event + "\ndata: "
  }

  lemma NoBlankInHead(event: string, rest: string)
    requires '\n' !in event
    ensures forall k: nat | k < |Head(event)| :: !BlankLineAt(Head(event) + rest, k)
  {
    var s, n := Head(event) + rest, 7 + |event|;
    forall k: nat | k < |Head(event)| ensures !BlankLineAt(s, k) {
      assert k < 7 ==> s[k] == EVENT_FIELD[k] != '\n';
      assert 7 <= k < n ==> s[k] == event[k - 7] != '\n';
      assert k == n ==> s[k + 1] == 'd';
      assert n < k ==> s[k] == DATA_FIELD[k - n - 1] != '\n';
    }
  }

  lemma BodyCut(f: Frame, rest: string)
    requires Printable(f)
    ensures Cut(Print(f) + rest, Body(f), rest)
  {
    var s, head := Print(f) + rest, Head(f.event);
    assert s == Body(f) + "\n\n" + rest == head + (f.data + "\n\n" + rest);
    NoBlankInHead(f.event, f.data + "\n\n" + rest);
    forall k: nat | k < |Body(f)| ensures !BlankLineAt(s, k) {
      assert k >= |head| ==> s[k] == f.data[k - |head|] != '\n';
    }
  }

  /** Every list of printed frames is parsed back exactly, and nothing is left over. */
  lemma {:induction false} RoundTrip(frames: seq<Frame>) returns (raws: seq<string>)
    requires forall f | f in frames :: Printable(f)
    ensures Framed(PrintAll(frames), raws, "") && Parsed(raws) == frames
  {
    raws := [];
    if frames != [] {
      var tail := RoundTrip(frames[1..]);
      var f := frames[0];
      raws := [Body(f)] + tail;
      assert raws[1..] == tail;
      BodyCut(f, PrintAll(frames[1..]));
      ParsedBody(f);
      ParsedAppend([Body(f)], tail);
      assert Parsed([Body(f)]) == [f] by { assert [Body(f)][..0] == []; }
      assert frames == [f] + frames[1..];
    }
  }

  lemma {:induction false} ParsedAppend(a: seq<string>, b: seq<string>)
    ensures Parsed(a + b) == Parsed(a) + Parsed(b)
  {
    if b == [] {
      assert a + b == a;
    } else {
      var last := |b| - 1;
      assert (a + b)[..|a + b| - 1] == a + b[..last];
      ParsedAppend(a, b[..last]);
    }
  }

  /**
   Whatever the reads, if together they are the printed frames, then the loop
   dispatches exactly those frames and ends with an empty buffer.
   */
  lemma Reassembly(frames: seq<Frame>, pieces: seq<string>, read: seq<Frame>, buffer: string)
    requires forall f | f in frames :: Printable(f)
    requires Concat(pieces) == PrintAll(frames) && Reads(Concat(pieces), read, buffer)
    ensures read == frames && buffer == ""
  {
    var printed := RoundTrip(frames);
    assert Reads(PrintAll(frames), frames, "");
    ReadsUnique(Concat(pieces), read, buffer, frames, "");
  }

  lemma {:induction false} ParsedPrefix(raws: seq<string>, whole: seq<string>)
    requires raws <= whole
    ensures Parsed(raws) <= Parsed(whole)
  {
    ParsedAppend(raws, whole[|raws|..]);
    assert raws + whole[|raws|..] == whole;
  }

  /** What is read from the beginning of a stream is the beginning of what is read from more of it. */
  lemma EarlierReads(text: string, more: string, frames: seq<Frame>, buffer: string,
                     frames': seq<Frame>, buffer': string)
    requires Reads(text, frames, buffer) && Reads(text + more, frames', buffer')
    ensures frames <= frames'
  {
    var raws :| Framed(text, raws, buffer) && frames == Parsed(raws);
    var raws' :| Framed(text + more, raws', buffer') && frames' == Parsed(raws');
    PartialStream(text, more, raws, buffer, raws', buffer');
    ParsedPrefix(raws, raws');
  }

  lemma {:induction false} PartialStream(text: string, more: string, raws: seq<string>, rest: string,
                                        raws': seq<string>, rest': string)
    requires Framed(text, raws, rest) && Framed(text + more, raws', rest')
    ensures raws <= raws'
    decreases |raws|
  {
    if raws != [] {
      var tail :| Cut(text, raws[0], tail) && Framed(tail, raws[1..], rest);
      CutGrows(text, raws[0], tail, more);
      assert BlankLineAt(text + more, |raws[0]|);
      assert raws' != [];
      var tail' :| Cut(text + more, raws'[0], tail') && Framed(tail', raws'[1..], rest');
      CutUnique(text + more, raws[0], tail + more, raws'[0], tail');
      PartialStream(tail, more, raws[1..], rest, raws'[1..], rest');
      assert raws == [raws[0]] + raws[1..] && raws' == [raws'[0]] + raws'[1..];
    }
  }

  // ---- Which frames survive printing ----

  lemma {:induction false} DataOfAppend(a: seq<string>, b: seq<string>)
    ensures DataOf(a + b) == DataOf(a) + DataOf(b)
  {
    if b == [] {
      assert a + b == a;
    } else {
      var all, last := a + b, |b| - 1;
      DataOfAppend(a, b[..last]);
      assert all[..|all| - 1] == a + b[..last] && all[|all| - 1] == b[last];
    }
  }

  lemma JoinSnoc(parts: seq<string>, last: string)
    requires parts != []
    ensures |Join("\n", parts + [last])| == |Join("\n", parts)| + 1 + |last|
  {
    JoinAppend("\n", parts, [last]);
  }

  /** Each data line loses its field name. */
  lemma {:induction false} DataIsShorter(lines: seq<string>)
    requires DataOf(lines) != []
    ensures |Join("\n", DataOf(lines))| + 6 * |DataOf(lines)| <= |Join("\n", lines)|
  {
    var n := |lines| - 1;
    var before, last := lines[..n], lines[n];
    assert lines == before + [last];
    if before != [] {
      JoinSnoc(before, last);
    }
    if DataOf(before) != [] {
      DataIsShorter(before);
      if StartsWith(last, DATA_FIELD) {
        JoinSnoc(DataOf(before), last[6..]);
      }
    }
  }

  lemma {:induction false} PiecesAreLines(lines: seq<string>)
    requires forall l | l in lines :: '\n' !in l
    ensures '\n' !in EventOf(lines) && forall d | d in DataOf(lines) :: '\n' !in d
  {
    if lines != [] {
      PiecesAreLines(lines[..|lines| - 1]);
      assert lines[|lines| - 1] in lines;
    }
  }

  /** A parsed event name has no line break; a parsed payload has none if it is one line. */
  lemma ParsedShape(raw: string)
    requires ParsedFrame(raw).Some?
    ensures '\n' !in ParsedFrame(raw).value.event
    ensures |DataOf(Split(raw, '\n'))| == 1 ==> '\n' !in ParsedFrame(raw).value.data
  {
    JoinSplit(raw, '\n');
    PiecesAreLines(Split(raw, '\n'));
  }

  lemma {:induction false} ParsedFrom(raws: seq<string>, f: Frame) returns (raw: string)
    requires f in Parsed(raws)
    ensures raw in raws && ParsedFrame(raw) == Some(f)
  {
    var before, last := raws[..|raws| - 1], raws[|raws| - 1];
    if ParsedFrame(last) == Some(f) {
      raw := last;
    } else {
      raw := ParsedFrom(before, f);
    }
  }

  /** The first raw frame of a printed frame goes at least up to the payload. */
  lemma FirstRaw(f: Frame, raw: string, tail: string) returns (part: string)
    requires '\n' !in f.event && Cut(Print(f), raw, tail)
    ensures raw == "event: " + f.event + "\n" + (DATA_FIELD + part) && |part| <= |f.data|
  {
    var s, head := Print(f), Head(f.event);
    assert s == Head(f.event) + (f.data + "\n\n");
    NoBlankInHead(f.event, f.data + "\n\n");
    assert BlankLineAt(s, |raw|);
    part := raw[|head|..];
    assert raw == s[..|raw|];
    assert raw == head + part;
  }

  lemma OneDataLine(f: Frame, part: string)
    requires '\n' !in f.event && |part| <= |f.data|
    requires var raw := "event: " + f.event + "\n" + (DATA_FIELD + part); ParsedFrame(raw) == Some(f)
    ensures '\n' !in f.data
  {
    var first, rest := "event: " + f.event, DATA_FIELD + part;
    var raw := first + "\n" + rest;
    assert '\n' !in first;
    SplitHead(first, rest, '\n');
    var lines := Split(rest, '\n');
    DataOfAppend([first], lines);
    assert DataOf([first]) == [] by {
      assert [first][..0] == [] && first[0] == 'e';
    }
    assert Split(raw, '\n') == [first] + lines && DataOf(Split(raw, '\n')) == DataOf(lines);
    DataIsShorter(lines);
    JoinSplit(rest, '\n');
    assert |f.data| + 6 * |DataOf(lines)| <= 6 + |part|;
    ParsedShape(raw);
  }

  lemma PrintedBackIsPrintable(f: Frame, raws: seq<string>, rest: string)
    requires Framed(Print(f), raws, rest) && Parsed(raws) == [f]
    ensures Printable(f)
  {
    var from := ParsedFrom(raws, f);
    ParsedShape(from);
    var tail :| Cut(Print(f), raws[0], tail) && Framed(tail, raws[1..], rest);
    var part := FirstRaw(f, raws[0], tail);
    FirstHasData(f, part);
    assert raws == [raws[0]] + raws[1..];
    ParsedAppend([raws[0]], raws[1..]);
    assert [raws[0]][..0] == [];
    OneDataLine(f, part);
  }

  lemma FirstHasData(f: Frame, part: string)
    requires '\n' !in f.event
    ensures ParsedFrame("event: " + f.event + "\n" + (DATA_FIELD + part)).Some?
  {
    var first, rest := "event: " + f.event, DATA_FIELD + part;
    SplitHead(first, rest, '\n');
    var lines := Split(rest, '\n');
    JoinSplit(rest, '\n');
    assert StartsWith(lines[0], DATA_FIELD) by { HeadLine(DATA_FIELD, part); }
    assert lines == [lines[0]] + lines[1..];
    DataOfAppend([lines[0]], lines[1..]);
    DataOfAppend([first], lines);
    assert [lines[0]][..0] == [];
  }

  lemma {:induction false} HeadLine(head: string, tail: string)
    requires '\n' !in head
    ensures StartsWith(Split(head + tail, '\n')[0], head)
  {
    if head != "" {
      HeadLine(head[1..], tail);
      assert (head + tail)[1..] == head[1..] + tail;
      assert head == [head[0]] + head[1..];
    }
  }

  /** A printed frame is read back if and only if neither its event nor its payload has a line break. */
  lemma RoundTripExactly(f: Frame, frames: seq<Frame>, buffer: string)
    requires Reads(Print(f), frames, buffer)
    ensures frames == [f] <==> Printable(f)
  {
    var raws :| Framed(Print(f), raws, buffer) && frames == Parsed(raws);
    if Printable(f) {
      assert PrintAll([f]) == Print(f);
      var printed := RoundTrip([f]);
      FramedUnique(Print(f), raws, buffer, printed, "");
    }
    if frames == [f] {
      PrintedBackIsPrintable(f, raws, buffer);
    }
  }
}
