/**
 The citation chain: the numbered prompt, the offline answer that cites its
 sources, the extraction of citations from an answer, and the chips that the web
 client shows in its place. Digits are ASCII digits.
 */
module Citations {
  import opened Wrappers
  import opened Sequences
  import opened Text
  import opened Sorting
  import opened Retrieval

  // ---- Markers ----

  /** A match of `\[(\d+)\]`. */
  datatype Match = Match(index: nat, digits: string)

  /** At `i` the text has `digits` in square brackets. */
  ghost predicate MarkerAt(s: string, i: nat, digits: string) {
    && i + |digits| + 2 <= |s| && digits != "" && AllDigits(digits)
    && s[i] == '[' && s[i + 1..i + 1 + |digits|] == digits && s[i + 1 + |digits|] == ']'
  }

  /** The number of digits from position `from` on. */
  function DigitRun(s: string, from: nat): (n: nat)
    requires from <= |s|
    ensures from + n <= |s|
    decreases |s| - from
  {
    if from == |s| || !IsDigit(s[from]) then 0 else 1 + DigitRun(s, from + 1)
  }

  lemma {:induction false} DigitRunIsLongest(s: string, from: nat)
    requires from <= |s|
    ensures forall k | from <= k < from + DigitRun(s, from) :: IsDigit(s[k])
    ensures from + DigitRun(s, from) < |s| ==> !IsDigit(s[from + DigitRun(s, from)])
    decreases |s| - from
  {
    if from < |s| && IsDigit(s[from]) {
      DigitRunIsLongest(s, from + 1);
    }
  }

  /** The length of the marker that starts at `i`, or zero. */
  function MarkerLength(s: string, i: nat): (n: nat)
    requires i < |s|
    ensures n > 0 ==> n >= 3 && i + n <= |s|
  {
    var n := DigitRun(s, i + 1);
    if s[i] == '[' && n > 0 && i + 1 + n < |s| && s[i + 1 + n] == ']' then n + 2 else 0
  }

  lemma MarkerOfLength(s: string, i: nat)
    requires i < |s| && MarkerLength(s, i) > 0
    ensures MarkerAt(s, i, s[i + 1..i + MarkerLength(s, i) - 1])
  {
    DigitRunIsLongest(s, i + 1);
  }

  lemma MarkerHasLength(s: string, i: nat, digits: string)
    requires MarkerAt(s, i, digits)
    ensures MarkerLength(s, i) == |digits| + 2
    ensures s[i + 1..i + 1 + |digits|] == digits
  {
    var n := DigitRun(s, i + 1);
    DigitRunIsLongest(s, i + 1);
    assert forall k | i + 1 <= k < i + 1 + |digits| :: IsDigit(s[k]) by {
      assert forall k | i + 1 <= k < i + 1 + |digits| :: s[k] == digits[k - i - 1];
    }
  }

  /** `re.findall` from position `from` on: matches are taken from the left and do not overlap. */
  function FindAll(s: string, from: nat, lineStart: bool): seq<Match>
    decreases |s| - from
  {
    if from >= |s| then []
    else if MarkerLength(s, from) > 0 && (lineStart ==> AtLineStart(s, from)) then
      var n := MarkerLength(s, from);
      [Match(from, s[from + 1..from + n - 1])] + FindAll(s, from + n, lineStart)
    else FindAll(s, from + 1, lineStart)
  }

  /** `^` in multi-line mode. */
  predicate AtLineStart(s: string, i: nat)
    requires i <= |s|
  {
    i == 0 || s[i - 1] == '\n'
  }

  ghost predicate IsMatch(s: string, m: Match, lineStart: bool) {
    MarkerAt(s, m.index, m.digits) && (lineStart ==> AtLineStart(s, m.index))
  }

  /** No marker begins inside another. */
  lemma NoOverlap(s: string, i: nat, digits: string, j: nat, digits': string)
    requires MarkerAt(s, i, digits) && MarkerAt(s, j, digits') && i < j
    ensures i + |digits| + 2 <= j
  {
    assert forall k | i < k <= i + |digits| :: s[k] == s[i + 1..i + 1 + |digits|][k - i - 1] && IsDigit(s[k]);
  }

  ghost predicate MatchFrom(s: string, from: nat, m: Match, lineStart: bool) {
    m.index >= from && IsMatch(s, m, lineStart)
  }

  lemma MatchHere(s: string, from: nat, m: Match, lineStart: bool)
    requires from < |s|
    ensures var n := MarkerLength(s, from);
            if n > 0 && (lineStart ==> AtLineStart(s, from)) then
              MatchFrom(s, from, m, lineStart) <==>
                m == Match(from, s[from + 1..from + n - 1]) || MatchFrom(s, from + n, m, lineStart)
            else MatchFrom(s, from, m, lineStart) <==> MatchFrom(s, from + 1, m, lineStart)
  {
    var n := MarkerLength(s, from);
    if n > 0 {
      MarkerOfLength(s, from);
    }
    if MatchFrom(s, from, m, lineStart) {
      if m.index == from {
        MarkerHasLength(s, from, m.digits);
      } else if n > 0 {
        NoOverlap(s, from, s[from + 1..from + n - 1], m.index, m.digits);
      }
    }
  }

  /** The matches found are exactly the markers of the text, in order. */
  lemma {:induction false} FindAllIsExact(s: string, from: nat, lineStart: bool)
    ensures forall m :: m in FindAll(s, from, lineStart) <==> MatchFrom(s, from, m, lineStart)
    ensures forall i, j | 0 <= i < j < |FindAll(s, from, lineStart)| ::
              FindAll(s, from, lineStart)[i].index < FindAll(s, from, lineStart)[j].index
    decreases |s| - from
  {
    if from < |s| {
      forall m ensures m in FindAll(s, from, lineStart) <==> MatchFrom(s, from, m, lineStart) {
        MatchHere(s, from, m, lineStart);
        FindAllIsExact(s, if MarkerLength(s, from) > 0 && (lineStart ==> AtLineStart(s, from))
                          then from + MarkerLength(s, from) else from + 1, lineStart);
      }
      FindAllAscends(s, from, lineStart);
    }
  }

  ghost predicate Ascending(matches: seq<Match>, from: nat) {
    && (forall i | 0 <= i < |matches| :: matches[i].index >= from)
    && (forall i, j | 0 <= i < j < |matches| :: matches[i].index < matches[j].index)
  }

  /** The scan finds at most one match at a position and goes on after it. */
  lemma FindAllStep(s: string, from: nat, lineStart: bool) returns (here: seq<Match>, next: nat)
    requires from < |s|
    ensures from < next && FindAll(s, from, lineStart) == here + FindAll(s, next, lineStart)
    ensures |here| <= 1 && forall m | m in here :: m.index == from
  {
    var n := MarkerLength(s, from);
    if n > 0 && (lineStart ==> AtLineStart(s, from)) {
      here, next := [Match(from, s[from + 1..from + n - 1])], from + n;
    } else {
      here, next := [], from + 1;
      assert here + FindAll(s, next, lineStart) == FindAll(s, next, lineStart);
    }
  }

  lemma AppendAscends(here: seq<Match>, rest: seq<Match>, from: nat, next: nat)
    requires from < next && |here| <= 1 && (forall m | m in here :: m.index == from) && Ascending(rest, next)
    ensures Ascending(here + rest, from)
  {
    assert forall i | 0 <= i < |here + rest| ::
        (here + rest)[i] == (if i < |here| then here[i] else rest[i - |here|]);
  }

  lemma {:induction false} FindAllAscends(s: string, from: nat, lineStart: bool)
    ensures Ascending(FindAll(s, from, lineStart), from)
    decreases |s| - from
  {
    if from < |s| {
      var here, next := FindAllStep(s, from, lineStart);
      FindAllAscends(s, next, lineStart);
      AppendAscends(here, FindAll(s, next, lineStart), from, next);
    }
  }

  /** `int(digits)`. */
  function Number(digits: string): nat {
    if AllDigits(digits) then ParseDecimal(digits) else 0
  }

  /** The answer has a marker with number `n`. */
  ghost predicate Mentions(s: string, n: nat) {
    exists i, digits :: MarkerAt(s, i, digits) && Number(digits) == n
  }

  /** The digits that Python's `int` accepts, by default; a longer string raises. */
  const MAX_INT_DIGITS: nat := 4300

  /** `int` accepts every marker of the text. */
  ghost predicate Readable(s: string) {
    forall i, digits | MarkerAt(s, i, digits) :: |digits| <= MAX_INT_DIGITS
  }

  // ---- Extraction ----

  datatype Citation = Citation(marker: nat, chunkId: string, documentId: string, documentTitle: string, snippet: string)

  const SNIPPET_CHARS: nat := 240

  function Prefix(s: string, n: nat): string {
    if n < |s| then s[..n] else s
  }

  function CitationOf(hits: seq<SearchHit>, marker: nat, snippetChars: nat): Citation
    requires 1 <= marker <= |hits|
  {
    var hit := hits[marker - 1];
    Citation(marker, hit.chunkId, hit.documentId, hit.title, Prefix(hit.content, snippetChars))
  }

  /** One citation for each of the first `n` hits that the answer mentions. */
  ghost function Cited(answer: string, hits: seq<SearchHit>, snippetChars: nat, n: nat): seq<Citation>
    requires n <= |hits|
  {
    if n == 0 then []
    else
      Cited(answer, hits, snippetChars, n - 1)
      + if Mentions(answer, n) then [CitationOf(hits, n, snippetChars)] else []
  }

  /** What extraction gives, unless it raises. */
  ghost function Extracted(answer: string, hits: seq<SearchHit>, snippetChars: nat): Option<seq<Citation>> {
    if Readable(answer) then Some(Cited(answer, hits, snippetChars, |hits|)) else None
  }

  const BY_MARKER: Citation -> real := (c: Citation) => c.marker as real

  /** `None` if a marker is too long to be read. */
  method ExtractCitations(answer: string, hits: seq<SearchHit>, snippetChars: nat)
    returns (result: Option<seq<Citation>>)
    ensures result == Extracted(answer, hits, snippetChars)
  {
    var matches := FindAll(answer, 0, false);
    var seen: set<nat>, citations: seq<Citation> := {}, [];
    for i := 0 to |matches|
      invariant Collected(matches[..i], hits, snippetChars, seen, citations)
      invariant AllReadable(matches[..i])
    {
      assert matches[..i + 1] == matches[..i] + [matches[i]];
      if |matches[i].digits| > MAX_INT_DIGITS {
        TooLong(answer, matches[i]);
        return None;
      }
      var marker := Number(matches[i].digits);
      if marker in seen || !(1 <= marker <= |hits|) {
        continue;
      }
      seen := seen + {marker};
      citations := citations + [CitationOf(hits, marker, snippetChars)];
    }
    assert matches[..|matches|] == matches;
    ReadableMatches(answer);
    SortedCitations(answer, hits, snippetChars, matches, seen, citations);
    return Some(SortBy(citations, BY_MARKER));
  }

  predicate AllReadable(matches: seq<Match>) {
    forall i | 0 <= i < |matches| :: |matches[i].digits| <= MAX_INT_DIGITS
  }

  lemma TooLong(answer: string, m: Match)
    requires m in FindAll(answer, 0, false) && |m.digits| > MAX_INT_DIGITS
    ensures !Readable(answer)
  {
    FindAllIsExact(answer, 0, false);
    assert MatchFrom(answer, 0, m, false);
  }

  lemma ReadableMatches(answer: string)
    ensures Readable(answer) <==> AllReadable(FindAll(answer, 0, false))
  {
    FindAllIsExact(answer, 0, false);
    var matches := FindAll(answer, 0, false);
    forall i, digits | AllReadable(matches) && MarkerAt(answer, i, digits) ensures |digits| <= MAX_INT_DIGITS {
      assert MatchFrom(answer, 0, Match(i, digits), false);
      assert Match(i, digits) in matches;
    }
    forall k | Readable(answer) && 0 <= k < |matches| ensures |matches[k].digits| <= MAX_INT_DIGITS {
      assert MatchFrom(answer, 0, matches[k], false);
    }
  }

  /** The loop invariant: each in-range number among the matches has been cited once. */
  ghost predicate Collected(matches: seq<Match>, hits: seq<SearchHit>, snippetChars: nat,
                            seen: set<nat>, citations: seq<Citation>)
  {
    && (forall n :: n in seen <==> 1 <= n <= |hits| && Numbered(matches, n))
    && (forall c | c in citations :: c.marker in seen && 1 <= c.marker <= |hits|
                                     && c == CitationOf(hits, c.marker, snippetChars))
    && (forall n | n in seen :: 1 <= n <= |hits| && CitationOf(hits, n, snippetChars) in citations)
    && (forall i, j | 0 <= i < j < |citations| :: citations[i].marker != citations[j].marker)
  }

  ghost predicate Numbered(matches: seq<Match>, n: nat) {
    exists m :: m in matches && Number(m.digits) == n
  }

  lemma {:induction false} CitedMembers(answer: string, hits: seq<SearchHit>, snippetChars: nat, n: nat)
    requires n <= |hits|
    ensures forall c :: c in Cited(answer, hits, snippetChars, n) <==>
              1 <= c.marker <= n && Mentions(answer, c.marker) && c == CitationOf(hits, c.marker, snippetChars)
    ensures StrictlyAscending(Cited(answer, hits, snippetChars, n), BY_MARKER)
  {
    if n > 0 {
      CitedMembers(answer, hits, snippetChars, n - 1);
      var before := Cited(answer, hits, snippetChars, n - 1);
      assert forall i | 0 <= i < |before| :: before[i] in before;
    }
  }

  lemma NumberedIsMentioned(answer: string, n: nat)
    ensures Numbered(FindAll(answer, 0, false), n) <==> Mentions(answer, n)
  {
    FindAllIsExact(answer, 0, false);
    if Mentions(answer, n) {
      var i, digits :| MarkerAt(answer, i, digits) && Number(digits) == n;
      assert MatchFrom(answer, 0, Match(i, digits), false);
      assert Match(i, digits) in FindAll(answer, 0, false);
    }
    if Numbered(FindAll(answer, 0, false), n) {
      var m :| m in FindAll(answer, 0, false) && Number(m.digits) == n;
      assert MatchFrom(answer, 0, m, false);
    }
  }

  lemma SortedCitations(answer: string, hits: seq<SearchHit>, snippetChars: nat,
                        matches: seq<Match>, seen: set<nat>, citations: seq<Citation>)
    requires matches == FindAll(answer, 0, false) && Collected(matches, hits, snippetChars, seen, citations)
    ensures SortBy(citations, BY_MARKER) == Cited(answer, hits, snippetChars, |hits|)
  {
    var cited := Cited(answer, hits, snippetChars, |hits|);
    CitedMembers(answer, hits, snippetChars, |hits|);
    forall c ensures c in citations <==> c in cited {
      NumberedIsMentioned(answer, c.marker);
    }
    forall x, y | x in citations && y in citations && BY_MARKER(x) == BY_MARKER(y) ensures x == y {
    }
    SortByInjective(citations, BY_MARKER);
    SortBySorts(citations, BY_MARKER);
    PermutationMembers(SortBy(citations, BY_MARKER), citations);
    AscendingUnique(SortBy(citations, BY_MARKER), cited, BY_MARKER);
  }

  /**
   What extraction promises: the markers of the citations are strictly increasing,
   they are exactly the numbers of hits that the answer mentions, and each citation
   carries the hit with its number.
   */
  lemma CitationsAreExact(answer: string, hits: seq<SearchHit>, snippetChars: nat)
    ensures var cited := Cited(answer, hits, snippetChars, |hits|);
            && (forall i, j | 0 <= i < j < |cited| :: cited[i].marker < cited[j].marker)
            && (forall n :: (exists c :: c in cited && c.marker == n) <==> 1 <= n <= |hits| && Mentions(answer, n))
            && (forall c | c in cited :: 1 <= c.marker <= |hits| && c == CitationOf(hits, c.marker, snippetChars))
            && (forall c | c in cited ::
                  var hit := hits[c.marker - 1];
                  && c.chunkId == hit.chunkId && c.documentId == hit.documentId && c.documentTitle == hit.title
                  && c.snippet <= hit.content && |c.snippet| <= snippetChars
                  && (c.snippet == hit.content || |c.snippet| == snippetChars))
  {
    var cited := Cited(answer, hits, snippetChars, |hits|);
    CitedMembers(answer, hits, snippetChars, |hits|);
    forall i, j | 0 <= i < j < |cited| ensures cited[i].marker < cited[j].marker {
      assert BY_MARKER(cited[i]) < BY_MARKER(cited[j]);
    }
    forall n | 1 <= n <= |hits| && Mentions(answer, n) ensures exists c :: c in cited && c.marker == n {
      assert CitationOf(hits, n, snippetChars) in cited;
    }
  }

  // ---- The prompt and the offline answer ----

  function SourceLine(marker: nat, hit: SearchHit): string {
    "[" + Decimal(marker) + "] (" + hit.title + ") " + hit.content
  }

  function SourceLines(hits: seq<SearchHit>): (lines: seq<string>)
    ensures |lines| == |hits| && forall i | 0 <= i < |hits| :: lines[i] == SourceLine(i + 1, hits[i])
  {
    seq(|hits|, i requires 0 <= i < |hits| => SourceLine(i + 1, hits[i]))
  }

  function SystemPrompt(template: string, hits: seq<SearchHit>): string {
    if hits == [] then template + "\n\nSources:\n(none retrieved)"
    else template + "\n\nSources:\n" + Join("\n\n", SourceLines(hits))
  }

  datatype Role = User | Assistant
  datatype ChatMessage = ChatMessage(role: Role, content: string)

  /** The content of the last message of the user. */
  function LastQuestion(messages: seq<ChatMessage>): string {
    if messages == [] then ""
    else if messages[|messages| - 1].role == User then messages[|messages| - 1].content
    else LastQuestion(messages[..|messages| - 1])
  }

  function Bracketed(matches: seq<Match>): string {
    if matches == [] then "" else "[" + matches[0].digits + "]" + Bracketed(matches[1..])
  }

  const INTRO := "Based on the retrieved context, " + "here is the answer to "

  /** `repr` is Python's quoting of a string. */
  function StubAnswer(system: string, messages: seq<ChatMessage>, repr: string -> string): string {
    var sources := FindAll(system, 0, true);
    var citations := if Bracketed(sources) != "" then Bracketed(sources) else "(no sources retrieved)";
    INTRO + repr(Strip(LastQuestion(messages))) + ". " + citations
  }

  lemma OneMoreWord(tokens: seq<string>, words: seq<string>, word: string)
    requires words != [] && Concat(tokens) == Join(" ", words)
    ensures Concat(tokens + [" " + word]) == Join(" ", words + [word])
  {
    var j := Join(" ", words);
    ConcatSnoc(tokens, " " + word);
    JoinAppend(" ", words, [word]);
    Regroup(j, " ", word);
  }

  lemma ConcatSnoc(tokens: seq<string>, token: string)
    ensures Concat(tokens + [token]) == Concat(tokens) + token
  {
    ConcatAppend(tokens, [token]);
    assert Concat([token]) == token;
  }

  /** The stub streams its answer word by word. */
  method EmitWords(text: string) returns (tokens: seq<string>)
    ensures tokens != [] && Concat(tokens) == text
  {
    var words := Split(text, ' ');
    tokens := [];
    JoinSplit(text, ' ');
    for i := 0 to |words|
      invariant tokens == [] <==> i == 0
      invariant Concat(tokens) == Join(" ", words[..i])
    {
      var token := if i == 0 then words[i] else " " + words[i];
      assert words[..i + 1] == words[..i] + [words[i]];
      if i == 0 {
        assert Concat([token]) == token && tokens + [token] == [token];
      } else {
        OneMoreWord(tokens, words[..i], words[i]);
      }
      tokens := tokens + [token];
    }
    assert words[..|words|] == words;
  }

  /** Position `at` of the tail is position `|head| + at` of the whole. */
  lemma Shift(head: string, body: string, at: nat, t: string)
    requires head != "" && head[|head| - 1] == '\n'
    requires at + |t| <= |body| && AtLineStart(body, at) && body[at..at + |t|] == t
    ensures AtLineStart(head + body, |head| + at)
    ensures (head + body)[|head| + at..|head| + at + |t|] == t
  {
    var s := head + body;
    assert s[|head| + at..|head| + at + |t|] == body[at..at + |t|];
    assert at > 0 ==> s[|head| + at - 1] == body[at - 1];
  }

  /** Where line `k` of the joined lines begins. */
  lemma {:induction false} LineStarts(lines: seq<string>, k: nat) returns (at: nat)
    requires k < |lines|
    ensures var s := Join("\n\n", lines);
            at + |lines[k]| <= |s| && AtLineStart(s, at) && s[at..at + |lines[k]|] == lines[k]
  {
    var s := Join("\n\n", lines);
    if k == 0 {
      at := 0;
      assert s[..|lines[0]|] == lines[0];
    } else {
      at := LineStarts(lines[1..], k - 1);
      var head, rest := lines[0] + "\n\n", Join("\n\n", lines[1..]);
      assert s == head + rest && head[|head| - 1] == '\n';
      Shift(head, rest, at, lines[k]);
      at := |head| + at;
    }
  }

  lemma MarkerInside(s: string, at: nat, t: string, digits: string)
    requires at + |t| <= |s| && s[at..at + |t|] == t && MarkerAt(t, 0, digits)
    ensures MarkerAt(s, at, digits)
  {
    assert forall k | 0 <= k < |t| :: s[at + k] == s[at..at + |t|][k] == t[k];
    assert s[at + 1..at + 1 + |digits|] == t[1..1 + |digits|];
  }

  lemma SourceLineMarker(n: nat, hit: SearchHit)
    ensures MarkerAt(SourceLine(n, hit), 0, Decimal(n))
  {
    var line := SourceLine(n, hit);
    assert line[1..1 + |Decimal(n)|] == Decimal(n);
  }

  lemma LineMarkerAt(head: string, body: string, inBody: nat, line: string, digits: string) returns (at: nat)
    requires head != "" && head[|head| - 1] == '\n' && MarkerAt(line, 0, digits)
    requires inBody + |line| <= |body| && AtLineStart(body, inBody) && body[inBody..inBody + |line|] == line
    ensures MarkerAt(head + body, at, digits) && AtLineStart(head + body, at)
  {
    at := |head| + inBody;
    Shift(head, body, inBody, line);
    MarkerInside(head + body, at, line, digits);
  }

  lemma PromptMarkerAt(template: string, hits: seq<SearchHit>, n: nat) returns (at: nat)
    requires 1 <= n <= |hits|
    ensures var s := SystemPrompt(template, hits); MarkerAt(s, at, Decimal(n)) && AtLineStart(s, at)
  {
    var head, lines := template + "\n\nSources:\n", SourceLines(hits);
    var inLines := LineStarts(lines, n - 1);
    SourceLineMarker(n, hits[n - 1]);
    at := LineMarkerAt(head, Join("\n\n", lines), inLines, lines[n - 1], Decimal(n));
  }

  /** The prompt has every source number at the start of a line. */
  lemma PromptListsSource(template: string, hits: seq<SearchHit>, n: nat) returns (m: Match)
    requires 1 <= n <= |hits|
    ensures m.digits == Decimal(n) && m in FindAll(SystemPrompt(template, hits), 0, true)
  {
    var s := SystemPrompt(template, hits);
    var at := PromptMarkerAt(template, hits, n);
    m := Match(at, Decimal(n));
    FindAllIsExact(s, 0, true);
    assert MatchFrom(s, 0, m, true);
  }

  lemma SuffixMentions(head: string, tail: string, at: nat, digits: string)
    requires MarkerAt(tail, at, digits)
    ensures MarkerAt(head + tail, |head| + at, digits)
  {
    var s := head + tail;
    assert s[|head|..] == tail;
    assert s[|head| + at + 1..|head| + at + 1 + |digits|] == tail[at + 1..at + 1 + |digits|];
  }

  lemma {:induction false} BracketedMentions(matches: seq<Match>, m: Match) returns (at: nat)
    requires m in matches && m.digits != "" && AllDigits(m.digits)
    ensures MarkerAt(Bracketed(matches), at, m.digits)
  {
    var s := Bracketed(matches);
    if matches[0].digits == m.digits {
      at := 0;
      assert s[1..1 + |m.digits|] == m.digits;
    } else {
      assert m in matches[1..];
      var rest := BracketedMentions(matches[1..], m);
      var head := "[" + matches[0].digits + "]";
      SuffixMentions(head, Bracketed(matches[1..]), rest, m.digits);
      at := |head| + rest;
    }
  }

  /** The offline answer to a built prompt mentions every hit. */
  lemma StubMentionsAll(template: string, hits: seq<SearchHit>, messages: seq<ChatMessage>,
                        repr: string -> string, n: nat)
    requires 1 <= n <= |hits|
    ensures Mentions(StubAnswer(SystemPrompt(template, hits), messages, repr), n)
  {
    var system := SystemPrompt(template, hits);
    var m := PromptListsSource(template, hits, n);
    var sources := FindAll(system, 0, true);
    var at := BracketedMentions(sources, m);
    ParseDecimalOfDecimal(n);
    var head := INTRO + repr(Strip(LastQuestion(messages))) + ". ";
    SuffixMentions(head, Bracketed(sources), at, m.digits);
    assert StubAnswer(system, messages, repr) == head + Bracketed(sources);
  }

  // ---- What the prompt and the offline answer say ----

  /** The prompt is the template and then every hit in order, numbered from one, with its title and content. */
  lemma PromptExact(template: string, hits: seq<SearchHit>) returns (lines: seq<string>)
    ensures |lines| == |hits|
    ensures forall i | 0 <= i < |hits| ::
              lines[i] == "[" + Decimal(i + 1) + "] (" + hits[i].title + ") " + hits[i].content
    ensures SystemPrompt(template, hits)
         == template + "\n\nSources:\n" + if hits == [] then "(none retrieved)" else Join("\n\n", lines)
  {
    lines := SourceLines(hits);
    assert template + "\n\nSources:\n(none retrieved)" == template + "\n\nSources:\n" + "(none retrieved)";
  }

  ghost predicate LastFromUser(messages: seq<ChatMessage>, i: nat) {
    i < |messages| && messages[i].role == User && forall k | i < k < |messages| :: messages[k].role == Assistant
  }

  /** The question is the last message of the user, and empty without one. */
  lemma {:induction false} QuestionExact(messages: seq<ChatMessage>) returns (i: nat)
    ensures if forall k | 0 <= k < |messages| :: messages[k].role == Assistant then LastQuestion(messages) == ""
            else LastFromUser(messages, i) && messages[i].content == LastQuestion(messages)
  {
    i := 0;
    if messages != [] {
      var before, last := messages[..|messages| - 1], messages[|messages| - 1];
      assert messages == before + [last];
      if last.role == User {
        i := |before|;
      } else {
        i := QuestionExact(before);
        assert forall k | 0 <= k < |before| :: messages[k] == before[k];
      }
    }
  }

  function DigitsOf(matches: seq<Match>): seq<string> {
    if matches == [] then [] else [matches[0].digits] + DigitsOf(matches[1..])
  }

  lemma {:induction false} DigitRunShifts(a: string, b: string, from: nat)
    requires from <= |b|
    ensures DigitRun(a + b, |a| + from) == DigitRun(b, from)
    decreases |b| - from
  {
    if from < |b| {
      DigitRunShifts(a, b, from + 1);
    }
  }

  lemma MarkerLengthShifts(a: string, b: string, i: nat)
    requires i < |b|
    ensures MarkerLength(a + b, |a| + i) == MarkerLength(b, i)
  {
    DigitRunShifts(a, b, i + 1);
  }

  lemma DigitsOfCons(m: Match, matches: seq<Match>)
    ensures DigitsOf([m] + matches) == [m.digits] + DigitsOf(matches)
  {
    assert ([m] + matches)[1..] == matches;
  }

  /** The scan finds this marker at `from`, or goes on. */
  lemma FindAllDigits(s: string, from: nat, n: nat, digits: string)
    requires from < |s| && n == MarkerLength(s, from) && (n > 0 ==> digits == s[from + 1..from + n - 1])
    ensures n > 0 ==> DigitsOf(FindAll(s, from, false)) == [digits] + DigitsOf(FindAll(s, from + n, false))
    ensures n == 0 ==> DigitsOf(FindAll(s, from, false)) == DigitsOf(FindAll(s, from + 1, false))
  {
    if n > 0 {
      DigitsOfCons(Match(from, digits), FindAll(s, from + n, false));
    }
  }

  lemma SliceShifts(a: string, b: string, i: nat, j: nat)
    requires i <= j <= |b|
    ensures (a + b)[|a| + i..|a| + j] == b[i..j]
  {
  }

  /** From here on the scans find the same numbers. */
  ghost predicate SameDigits(s: string, at: nat, b: string, from: nat) {
    DigitsOf(FindAll(s, at, false)) == DigitsOf(FindAll(b, from, false))
  }

  lemma SameAtEnd(s: string, at: nat, b: string, from: nat)
    requires at >= |s| && from >= |b|
    ensures SameDigits(s, at, b, from)
  {
  }

  lemma SameWhenFound(s: string, at: nat, b: string, from: nat, n: nat)
    requires at < |s| && from < |b| && n > 0 && MarkerLength(s, at) == MarkerLength(b, from) == n
    requires s[at + 1..at + n - 1] == b[from + 1..from + n - 1] && SameDigits(s, at + n, b, from + n)
    ensures SameDigits(s, at, b, from)
  {
    FindAllDigits(b, from, n, b[from + 1..from + n - 1]);
    FindAllDigits(s, at, n, b[from + 1..from + n - 1]);
  }

  lemma SameWhenNot(s: string, at: nat, b: string, from: nat)
    requires at < |s| && from < |b| && MarkerLength(s, at) == MarkerLength(b, from) == 0
    requires SameDigits(s, at + 1, b, from + 1)
    ensures SameDigits(s, at, b, from)
  {
    FindAllDigits(b, from, 0, "");
    FindAllDigits(s, at, 0, "");
  }

  lemma ShiftsWhenFound(a: string, b: string, from: nat, n: nat)
    requires from < |b| && n > 0 && MarkerLength(b, from) == n && SameDigits(a + b, |a| + (from + n), b, from + n)
    ensures SameDigits(a + b, |a| + from, b, from)
  {
    MarkerLengthShifts(a, b, from);
    SliceShifts(a, b, from + 1, from + n - 1);
    SameWhenFound(a + b, |a| + from, b, from, n);
  }

  lemma ShiftsWhenNot(a: string, b: string, from: nat)
    requires from < |b| && MarkerLength(b, from) == 0 && SameDigits(a + b, |a| + (from + 1), b, from + 1)
    ensures SameDigits(a + b, |a| + from, b, from)
  {
    MarkerLengthShifts(a, b, from);
    SameWhenNot(a + b, |a| + from, b, from);
  }

  lemma {:induction false} FindAllShifts(a: string, b: string, from: nat)
    ensures SameDigits(a + b, |a| + from, b, from)
    decreases |b| - from
  {
    if from >= |b| {
      SameAtEnd(a + b, |a| + from, b, from);
    } else if MarkerLength(b, from) > 0 {
      FindAllShifts(a, b, from + MarkerLength(b, from));
      ShiftsWhenFound(a, b, from, MarkerLength(b, from));
    } else {
      FindAllShifts(a, b, from + 1);
      ShiftsWhenNot(a, b, from);
    }
  }

  lemma FirstBracket(digits: string, rest: string)
    requires digits != "" && AllDigits(digits)
    ensures var first := "[" + digits + "]";
            FindAll(first + rest, 0, false) == [Match(0, digits)] + FindAll(first + rest, |first|, false)
  {
    var s := "[" + digits + "]" + rest;
    assert s[1..1 + |digits|] == digits;
    MarkerHasLength(s, 0, digits);
  }

  /** The bracketed list repeats the numbers it was made of, in order, and nothing else. */
  lemma {:induction false} BracketedExact(matches: seq<Match>)
    requires forall m | m in matches :: m.digits != "" && AllDigits(m.digits)
    ensures DigitsOf(FindAll(Bracketed(matches), 0, false)) == DigitsOf(matches)
  {
    if matches != [] {
      var digits := matches[0].digits;
      var first, rest := "[" + digits + "]", Bracketed(matches[1..]);
      BracketedExact(matches[1..]);
      FirstBracket(digits, rest);
      FindAllShifts(first, rest, 0);
      DigitsOfCons(Match(0, digits), FindAll(first + rest, |first|, false));
    }
  }

  /**
   The offline answer quotes the stripped question and then repeats the numbers at the
   line starts of the prompt, in order; without any it says so.
   */
  lemma StubExact(system: string, messages: seq<ChatMessage>, repr: string -> string) returns (tail: string)
    ensures StubAnswer(system, messages, repr)
         == "Based on the retrieved context, " + "here is the answer to "
            + repr(Strip(LastQuestion(messages))) + ". " + tail
    ensures if FindAll(system, 0, true) == [] then tail == "(no sources retrieved)"
            else DigitsOf(FindAll(tail, 0, false)) == DigitsOf(FindAll(system, 0, true))
  {
    var sources := FindAll(system, 0, true);
    tail := if Bracketed(sources) != "" then Bracketed(sources) else "(no sources retrieved)";
    LineMatches(system);
    BracketedExact(sources);
  }

  function AllCited(hits: seq<SearchHit>, snippetChars: nat): (all: seq<Citation>)
    ensures |all| == |hits| && forall i | 0 <= i < |hits| :: all[i] == CitationOf(hits, i + 1, snippetChars)
  {
    seq(|hits|, i requires 0 <= i < |hits| => CitationOf(hits, i + 1, snippetChars))
  }

  lemma {:induction false} CitedWhenMentioned(answer: string, hits: seq<SearchHit>, snippetChars: nat, n: nat)
    requires n <= |hits| && forall k | 1 <= k <= n :: Mentions(answer, k)
    ensures Cited(answer, hits, snippetChars, n) == AllCited(hits, snippetChars)[..n]
  {
    if n > 0 {
      CitedWhenMentioned(answer, hits, snippetChars, n - 1);
    }
  }

  // What the offline answer mentions: the markers of the quoted question, and those at the line starts of the prompt.

  /** `int` accepts every marker that the offline provider takes from the prompt. */
  ghost predicate ReadableLines(s: string) {
    forall i, digits | MarkerAt(s, i, digits) && AtLineStart(s, i) :: |digits| <= MAX_INT_DIGITS
  }

  /** A marker of `a + b` lies within one of them when `b` begins with something that no marker goes on with. */
  lemma MarkerInOnePart(a: string, b: string, i: nat, digits: string)
    requires b != "" && !IsDigit(b[0]) && b[0] != ']'
    requires MarkerAt(a + b, i, digits)
    ensures MarkerAt(a, i, digits) || (i >= |a| && MarkerAt(b, i - |a|, digits))
  {
    var s := a + b;
    assert forall k | i < k <= i + |digits| :: s[k] == s[i + 1..i + 1 + |digits|][k - i - 1] && IsDigit(s[k]);
    assert s[|a|] == b[0];
    if i >= |a| {
      assert s[i + 1..i + 1 + |digits|] == b[i - |a| + 1..i - |a| + 1 + |digits|];
    } else {
      assert s[i + 1..i + 1 + |digits|] == a[i + 1..i + 1 + |digits|];
    }
  }

  lemma PrefixMentions(a: string, b: string, i: nat, digits: string)
    requires MarkerAt(a, i, digits)
    ensures MarkerAt(a + b, i, digits)
  {
    assert (a + b)[i + 1..i + 1 + |digits|] == a[i + 1..i + 1 + |digits|];
  }

  lemma ReadableParts(a: string, b: string)
    requires b != "" && !IsDigit(b[0]) && b[0] != ']'
    ensures Readable(a + b) <==> Readable(a) && Readable(b)
  {
    forall i, digits | Readable(a) && Readable(b) && MarkerAt(a + b, i, digits) ensures |digits| <= MAX_INT_DIGITS {
      MarkerInOnePart(a, b, i, digits);
    }
    forall i, digits | Readable(a + b) && MarkerAt(a, i, digits) ensures |digits| <= MAX_INT_DIGITS {
      PrefixMentions(a, b, i, digits);
    }
    forall i, digits | Readable(a + b) && MarkerAt(b, i, digits) ensures |digits| <= MAX_INT_DIGITS {
      SuffixMentions(a, b, i, digits);
    }
  }

  /** Text before the quoted question cannot hold a marker, or the beginning of one. */
  lemma ReadableAfter(a: string, b: string)
    requires '[' !in a
    ensures Readable(a + b) <==> Readable(b)
  {
    forall i: nat, digits | Readable(b) && MarkerAt(a + b, i, digits) ensures |digits| <= MAX_INT_DIGITS {
      assert i >= |a| by {
        assert forall k | 0 <= k < |a| :: (a + b)[k] == a[k] && a[k] != '[';
      }
      assert (a + b)[i + 1..i + 1 + |digits|] == b[i - |a| + 1..i - |a| + 1 + |digits|];
      assert MarkerAt(b, i - |a|, digits);
    }
    forall i, digits | Readable(a + b) && MarkerAt(b, i, digits) ensures |digits| <= MAX_INT_DIGITS {
      SuffixMentions(a, b, i, digits);
    }
  }

  /** Without a bracket there is no marker. */
  lemma NoBracket(s: string)
    requires '[' !in s
    ensures Readable(s)
  {
  }

  lemma MarkerReadable(digits: string)
    requires digits != "" && AllDigits(digits)
    ensures Readable("[" + digits + "]") <==> |digits| <= MAX_INT_DIGITS
  {
    var s := "[" + digits + "]";
    assert s[1..1 + |digits|] == digits;
    assert MarkerAt(s, 0, digits);
    forall i, digits' | MarkerAt(s, i, digits') ensures digits' == digits {
      if i > 0 {
        NoOverlap(s, 0, digits, i, digits');
      } else {
        MarkerHasLength(s, 0, digits');
        MarkerHasLength(s, 0, digits);
      }
    }
  }

  /** A marker outside the range of sources is not always ignored: 4301 nines end the extraction. */
  lemma LongMarkerRaises(hits: seq<SearchHit>, snippetChars: nat)
    ensures Extracted("[" + seq(4301, _ => '9') + "]", hits, snippetChars) == None
    ensures Extracted("[" + seq(4300, _ => '9') + "]", hits, snippetChars).Some?
  {
    MarkerReadable(seq(4301, _ => '9'));
    MarkerReadable(seq(4300, _ => '9'));
  }

  lemma {:induction false} BracketedReadable(matches: seq<Match>)
    requires forall m | m in matches :: m.digits != "" && AllDigits(m.digits)
    ensures Readable(Bracketed(matches)) <==> AllReadable(matches)
  {
    if matches == [] {
      NoBracket("");
    } else {
      var first, rest := "[" + matches[0].digits + "]", Bracketed(matches[1..]);
      BracketedReadable(matches[1..]);
      MarkerReadable(matches[0].digits);
      assert AllReadable(matches) <==> |matches[0].digits| <= MAX_INT_DIGITS && AllReadable(matches[1..]) by {
        assert matches == [matches[0]] + matches[1..];
      }
      if rest == "" {
        assert first + rest == first;
        NoBracket("");
      } else {
        ReadableParts(first, rest);
      }
    }
  }

  lemma LineMatches(s: string)
    ensures forall m | m in FindAll(s, 0, true) :: m.digits != "" && AllDigits(m.digits)
    ensures AllReadable(FindAll(s, 0, true)) <==> ReadableLines(s)
  {
    FindAllIsExact(s, 0, true);
    var matches := FindAll(s, 0, true);
    forall m | m in matches ensures m.digits != "" && AllDigits(m.digits) {
      assert MatchFrom(s, 0, m, true);
    }
    forall i, digits | AllReadable(matches) && MarkerAt(s, i, digits) && AtLineStart(s, i)
      ensures |digits| <= MAX_INT_DIGITS {
      assert MatchFrom(s, 0, Match(i, digits), true);
      assert Match(i, digits) in matches;
    }
    forall k | ReadableLines(s) && 0 <= k < |matches| ensures |matches[k].digits| <= MAX_INT_DIGITS {
      assert MatchFrom(s, 0, matches[k], true);
    }
  }

  lemma ReadableAround(intro: string, quoted: string, end: string, tail: string)
    requires '[' !in intro && '[' !in end && tail != "" && !IsDigit(tail[0]) && tail[0] != ']'
    requires end != "" && !IsDigit(end[0]) && end[0] != ']'
    ensures Readable(intro + quoted + end + tail) <==> Readable(quoted) && Readable(tail)
  {
    ReadableParts((intro + quoted) + end, tail);
    ReadableParts(intro + quoted, end);
    ReadableAfter(intro, quoted);
    NoBracket(end);
  }

  /** What stands for the markers in the offline answer. */
  lemma ReadableTail(matches: seq<Match>) returns (tail: string)
    requires forall m | m in matches :: m.digits != "" && AllDigits(m.digits)
    ensures tail == if Bracketed(matches) != "" then Bracketed(matches) else "(no sources retrieved)"
    ensures tail != "" && !IsDigit(tail[0]) && tail[0] != ']'
    ensures Readable(tail) <==> AllReadable(matches)
  {
    BracketedReadable(matches);
    if Bracketed(matches) != "" {
      tail := Bracketed(matches);
    } else {
      tail := "(no sources retrieved)";
      NoBracket("");
      NoBracket(tail);
    }
  }

  lemma IntroHasNoBracket()
    ensures '[' !in INTRO
  {
  }

  /** Extraction from an offline answer raises unless the quoted question and the prompt's line starts are readable. */
  lemma StubReadable(system: string, messages: seq<ChatMessage>, repr: string -> string)
    ensures Readable(StubAnswer(system, messages, repr))
       <==> Readable(repr(Strip(LastQuestion(messages)))) && ReadableLines(system)
  {
    LineMatches(system);
    var tail := ReadableTail(FindAll(system, 0, true));
    IntroHasNoBracket();
    ReadableAround(INTRO, repr(Strip(LastQuestion(messages))), ". ", tail);
  }

  lemma StubCitesAll(template: string, hits: seq<SearchHit>, messages: seq<ChatMessage>,
                     repr: string -> string, snippetChars: nat)
    ensures Cited(StubAnswer(SystemPrompt(template, hits), messages, repr), hits, snippetChars, |hits|)
         == AllCited(hits, snippetChars)
  {
    var answer := StubAnswer(SystemPrompt(template, hits), messages, repr);
    forall n | 1 <= n <= |hits| ensures Mentions(answer, n) {
      StubMentionsAll(template, hits, messages, repr, n);
    }
    CitedWhenMentioned(answer, hits, snippetChars, |hits|);
  }

  /**
   For every template, hit list and conversation: extracting citations from the offline
   answer to the built prompt gives one citation per hit, in hit order, unless a marker that
   the answer repeats, from the question or from a line start of the prompt, is too long to be read.
   */
  lemma CitationRoundTrip(template: string, hits: seq<SearchHit>, messages: seq<ChatMessage>,
                          repr: string -> string, snippetChars: nat)
    ensures var system := SystemPrompt(template, hits);
            Extracted(StubAnswer(system, messages, repr), hits, snippetChars)
            == if Readable(repr(Strip(LastQuestion(messages)))) && ReadableLines(system)
               then Some(AllCited(hits, snippetChars))
               else None
  {
    StubReadable(SystemPrompt(template, hits), messages, repr);
    StubCitesAll(template, hits, messages, repr, snippetChars);
  }

  // ---- Chips ----

  datatype Part = Plain(text: string) | Chip(marker: nat)

  /** Characters `start`, ..., `end - 1` of the message. */
  datatype Span = Span(start: nat, end: nat)

  function Markers(citations: seq<Citation>): set<nat> {
    set c | c in citations :: c.marker
  }

  /** A part shows its span: plain text as it is, or the chip of a marker that has a citation. */
  ghost predicate Shows(content: string, markers: set<nat>, part: Part, span: Span) {
    && span.start < span.end <= |content|
    && match part
       case Plain(text) => text == content[span.start..span.end]
       case Chip(marker) =>
         && span.start + 2 < span.end && marker in markers
         && MarkerAt(content, span.start, content[span.start + 1..span.end - 1])
         && Number(content[span.start + 1..span.end - 1]) == marker
  }

  ghost predicate Begins(spans: seq<Span>, i: nat)
    requires i < |spans|
  {
    spans[i].start == if i == 0 then 0 else spans[i - 1].end
  }

  ghost function EndOf(spans: seq<Span>): nat {
    if spans == [] then 0 else spans[|spans| - 1].end
  }

  /** The parts show adjacent spans from the start of the message. */
  ghost predicate Partition(content: string, markers: set<nat>, parts: seq<Part>, spans: seq<Span>) {
    && |parts| == |spans|
    && (forall i | 0 <= i < |spans| :: Begins(spans, i))
    && (forall i | 0 <= i < |spans| :: Shows(content, markers, parts[i], spans[i]))
  }

  /** The marker `m` is shown as a chip. */
  ghost predicate IsChip(parts: seq<Part>, spans: seq<Span>, m: Match) {
    exists k :: 0 <= k < |parts| && k < |spans| && spans[k] == SpanOf(m) && parts[k] == Chip(Number(m.digits))
  }

  function SpanOf(m: Match): Span {
    Span(m.index, m.index + |m.digits| + 2)
  }

  /** Every marker that has a citation is a chip. */
  ghost predicate AllChips(content: string, markers: set<nat>, parts: seq<Part>, spans: seq<Span>) {
    forall m: Match | MarkerAt(content, m.index, m.digits) && Number(m.digits) in markers :: IsChip(parts, spans, m)
  }

  ghost predicate ChipsUpTo(matches: seq<Match>, n: nat, markers: set<nat>, parts: seq<Part>, spans: seq<Span>)
    requires n <= |matches|
  {
    forall k | 0 <= k < n :: Number(matches[k].digits) in markers ==> IsChip(parts, spans, matches[k])
  }

  ghost predicate NoAdjacentPlain(parts: seq<Part>) {
    forall i | 0 < i < |parts| :: PlainPair(parts, i)
  }

  ghost predicate PlainPair(parts: seq<Part>, i: nat)
    requires 0 < i < |parts|
  {
    parts[i - 1].Plain? ==> parts[i].Chip?
  }

  /** Where match `n` begins; after the last match, the end of the message. */
  function NextStart(content: string, matches: seq<Match>, n: nat): nat {
    if n < |matches| then matches[n].index else |content|
  }

  /** The loop invariant after `n` matches: the parts end with a chip at `lastIndex`. */
  ghost predicate Chipped(content: string, markers: set<nat>, matches: seq<Match>, n: nat, lastIndex: nat,
                          parts: seq<Part>, spans: seq<Span>)
    requires n <= |matches|
  {
    && Partition(content, markers, parts, spans) && EndOf(spans) == lastIndex <= NextStart(content, matches, n)
    && (parts != [] ==> parts[|parts| - 1].Chip?)
    && NoAdjacentPlain(parts)
    && ChipsUpTo(matches, n, markers, parts, spans)
  }

  method CitationText(content: string, markers: set<nat>) returns (parts: seq<Part>, ghost spans: seq<Span>)
    ensures Partition(content, markers, parts, spans) && EndOf(spans) == |content|
    ensures AllChips(content, markers, parts, spans)
    ensures NoAdjacentPlain(parts)
  {
    parts, spans := [], [];
    var lastIndex: nat := 0;
    var matches := MatchAll(content);
    for n := 0 to |matches|
      invariant Chipped(content, markers, matches, n, lastIndex, parts, spans)
    {
      var m := matches[n];
      var marker := Number(m.digits);
      if marker !in markers {
        SkipMatch(content, markers, matches, n, lastIndex, parts, spans);
        continue;
      }
      parts, spans := AppendChip(content, markers, matches, n, lastIndex, parts, spans);
      lastIndex := m.index + |m.digits| + 2;
    }
    NothingMissed(content, matches, markers, parts, spans);
    if lastIndex < |content| {
      ghost var oldParts, oldSpans := parts, spans;
      parts, spans := Extended(content, markers, parts, spans, Plain(content[lastIndex..]), Span(lastIndex, |content|));
      ChipsStay(content, markers, oldParts, oldSpans, parts, spans);
    }
  }

  /** A marker without a citation stays part of the text. */
  lemma SkipMatch(content: string, markers: set<nat>, matches: seq<Match>, n: nat, lastIndex: nat,
                  parts: seq<Part>, spans: seq<Span>)
    requires Found(content, matches) && n < |matches| && Number(matches[n].digits) !in markers
    requires Chipped(content, markers, matches, n, lastIndex, parts, spans)
    ensures Chipped(content, markers, matches, n + 1, lastIndex, parts, spans)
  {
    NextMatch(content, matches, n);
  }

  /** The text since the last chip, if there is any, and then the chip of match `n`. */
  method AppendChip(content: string, ghost markers: set<nat>, matches: seq<Match>, n: nat, lastIndex: nat,
                    parts: seq<Part>, ghost spans: seq<Span>)
    returns (parts': seq<Part>, ghost spans': seq<Span>)
    requires Found(content, matches) && n < |matches| && Number(matches[n].digits) in markers
    requires Chipped(content, markers, matches, n, lastIndex, parts, spans)
    ensures Chipped(content, markers, matches, n + 1, SpanOf(matches[n]).end, parts', spans')
  {
    var m := matches[n];
    parts', spans' := parts, spans;
    if m.index > lastIndex {
      parts', spans' := Extended(content, markers, parts, spans,
                                 Plain(content[lastIndex..m.index]), Span(lastIndex, m.index));
    }
    ShowsChip(content, markers, m);
    parts', spans' := Extended(content, markers, parts', spans', Chip(Number(m.digits)), SpanOf(m));
    OneMoreChip(matches, n, markers, parts, spans, parts', spans');
    NextMatch(content, matches, n);
  }

  /** `parts.push(part)`. */
  method Extended(content: string, ghost markers: set<nat>, parts: seq<Part>, ghost spans: seq<Span>,
                  part: Part, ghost span: Span)
    returns (parts': seq<Part>, ghost spans': seq<Span>)
    requires Partition(content, markers, parts, spans) && span.start == EndOf(spans)
    requires Shows(content, markers, part, span) && NoAdjacentPlain(parts)
    requires part.Plain? && parts != [] ==> parts[|parts| - 1].Chip?
    ensures parts' == parts + [part] && spans' == spans + [span]
    ensures Partition(content, markers, parts', spans') && EndOf(spans') == span.end
    ensures NoAdjacentPlain(parts')
  {
    parts', spans' := parts + [part], spans + [span];
    forall i | 0 <= i < |spans'| ensures Begins(spans', i) {
      assert i < |spans| ==> Begins(spans, i);
    }
    forall i | 0 <= i < |spans'| ensures Shows(content, markers, parts'[i], spans'[i]) {
      assert i < |spans| ==> Shows(content, markers, parts[i], spans[i]);
    }
    forall i | 0 < i < |parts'| ensures PlainPair(parts', i) {
      assert i < |parts| ==> PlainPair(parts, i);
    }
  }

  /** `matches` lists the markers of the content from left to right. */
  ghost predicate Found(content: string, matches: seq<Match>) {
    && (forall k | 0 <= k < |matches| :: MarkerAt(content, matches[k].index, matches[k].digits))
    && (forall k, l | 0 <= k < l < |matches| :: matches[k].index < matches[l].index)
    && (forall m: Match | MarkerAt(content, m.index, m.digits) :: m in matches)
  }

  method MatchAll(content: string) returns (matches: seq<Match>)
    ensures Found(content, matches)
  {
    matches := FindAll(content, 0, false);
    FindAllIsExact(content, 0, false);
    forall k | 0 <= k < |matches| ensures MarkerAt(content, matches[k].index, matches[k].digits) {
      assert matches[k] in matches;
      assert MatchFrom(content, 0, matches[k], false);
    }
    forall m: Match | MarkerAt(content, m.index, m.digits) ensures m in matches {
      assert MatchFrom(content, 0, m, false);
    }
  }

  lemma NextMatch(content: string, matches: seq<Match>, n: nat)
    requires Found(content, matches) && n < |matches|
    ensures SpanOf(matches[n]).end <= NextStart(content, matches, n + 1)
  {
    var m := matches[n];
    assert MarkerAt(content, m.index, m.digits);
    if n + 1 < |matches| {
      NoOverlap(content, m.index, m.digits, matches[n + 1].index, matches[n + 1].digits);
    }
  }

  lemma ShowsChip(content: string, markers: set<nat>, m: Match)
    requires MarkerAt(content, m.index, m.digits) && Number(m.digits) in markers
    ensures Shows(content, markers, Chip(Number(m.digits)), SpanOf(m))
  {
    assert content[m.index + 1..SpanOf(m).end - 1] == m.digits;
  }

  lemma ChipStays(parts: seq<Part>, spans: seq<Span>, parts': seq<Part>, spans': seq<Span>, m: Match)
    requires parts <= parts' && spans <= spans' && IsChip(parts, spans, m)
    ensures IsChip(parts', spans', m)
  {
    var k :| 0 <= k < |parts| && k < |spans| && spans[k] == SpanOf(m) && parts[k] == Chip(Number(m.digits));
    assert spans'[k] == spans[k] && parts'[k] == parts[k];
  }

  lemma ChipsStay(content: string, markers: set<nat>, parts: seq<Part>, spans: seq<Span>,
                  parts': seq<Part>, spans': seq<Span>)
    requires parts <= parts' && spans <= spans' && AllChips(content, markers, parts, spans)
    ensures AllChips(content, markers, parts', spans')
  {
    forall m: Match | MarkerAt(content, m.index, m.digits) && Number(m.digits) in markers
      ensures IsChip(parts', spans', m)
    {
      ChipStays(parts, spans, parts', spans', m);
    }
  }

  lemma OneMoreChip(matches: seq<Match>, n: nat, markers: set<nat>,
                    parts: seq<Part>, spans: seq<Span>, parts': seq<Part>, spans': seq<Span>)
    requires n < |matches| && ChipsUpTo(matches, n, markers, parts, spans)
    requires parts <= parts' && spans <= spans' && |parts'| == |spans'| > 0
    requires parts'[|parts'| - 1] == Chip(Number(matches[n].digits)) && spans'[|spans'| - 1] == SpanOf(matches[n])
    ensures ChipsUpTo(matches, n + 1, markers, parts', spans')
  {
    forall k | 0 <= k < n + 1 && Number(matches[k].digits) in markers ensures IsChip(parts', spans', matches[k]) {
      if k < n {
        ChipStays(parts, spans, parts', spans', matches[k]);
      }
    }
  }

  lemma NothingMissed(content: string, matches: seq<Match>, markers: set<nat>, parts: seq<Part>, spans: seq<Span>)
    requires Found(content, matches) && ChipsUpTo(matches, |matches|, markers, parts, spans)
    ensures AllChips(content, markers, parts, spans)
  {
    forall m: Match | MarkerAt(content, m.index, m.digits) && Number(m.digits) in markers
      ensures IsChip(parts, spans, m)
    {
      var k :| 0 <= k < |matches| && matches[k] == m;
    }
  }

  // ---- Agreement ----

  function Shown(content: string, spans: seq<Span>): string {
    if spans == [] then ""
    else
      var last := spans[|spans| - 1];
      Shown(content, spans[..|spans| - 1])
      + if last.start <= last.end <= |content| then content[last.start..last.end] else ""
  }

  /** Read one after the other the parts cover the message: nothing is lost or repeated. */
  lemma {:induction false} NothingLost(content: string, markers: set<nat>, parts: seq<Part>, spans: seq<Span>)
    requires Partition(content, markers, parts, spans)
    ensures EndOf(spans) <= |content| && Shown(content, spans) == content[..EndOf(spans)]
  {
    if spans != [] {
      var n := |spans| - 1;
      ButLast(content, markers, parts, spans, n);
      NothingLost(content, markers, parts[..n], spans[..n]);
      ShownSnoc(content, spans, n);
    }
  }

  lemma ButLast(content: string, markers: set<nat>, parts: seq<Part>, spans: seq<Span>, n: nat)
    requires Partition(content, markers, parts, spans) && |spans| == n + 1
    ensures Partition(content, markers, parts[..n], spans[..n])
    ensures EndOf(spans[..n]) == spans[n].start <= spans[n].end <= |content|
  {
    assert Begins(spans, n) && Shows(content, markers, parts[n], spans[n]);
    forall i | 0 <= i < n ensures Begins(spans[..n], i) {
      assert Begins(spans, i);
    }
    forall i | 0 <= i < n ensures Shows(content, markers, parts[..n][i], spans[..n][i]) {
      assert Shows(content, markers, parts[i], spans[i]);
    }
  }

  lemma ShownSnoc(content: string, spans: seq<Span>, n: nat)
    requires |spans| == n + 1 && spans[n].start <= spans[n].end <= |content|
    requires Shown(content, spans[..n]) == content[..spans[n].start]
    ensures Shown(content, spans) == content[..spans[n].end]
  {
  }

  ghost function ChipMarkers(parts: seq<Part>): set<nat> {
    set p | p in parts && p.Chip? :: p.marker
  }

  /**
   With the citations extracted from the same message, the markers shown as chips are
   exactly the markers of the citations.
   */
  lemma ChipsAreCitations(content: string, hits: seq<SearchHit>, snippetChars: nat, parts: seq<Part>, spans: seq<Span>)
    requires var markers := Markers(Cited(content, hits, snippetChars, |hits|));
             Partition(content, markers, parts, spans) && AllChips(content, markers, parts, spans)
    ensures ChipMarkers(parts) == Markers(Cited(content, hits, snippetChars, |hits|))
  {
    var cited := Cited(content, hits, snippetChars, |hits|);
    var markers := Markers(cited);
    CitedMembers(content, hits, snippetChars, |hits|);
    forall n | n in markers ensures n in ChipMarkers(parts) {
      var c :| c in cited && c.marker == n;
      var i, digits :| MarkerAt(content, i, digits) && Number(digits) == n;
      assert IsChip(parts, spans, Match(i, digits));
      assert Chip(n) in parts;
    }
    forall p | p in parts && p.Chip? ensures p.marker in markers {
      var k :| 0 <= k < |parts| && parts[k] == p;
      assert Shows(content, markers, parts[k], spans[k]);
    }
  }

  /** The whole offline chain: one chip number per hit, and no other. */
  lemma StubChips(template: string, hits: seq<SearchHit>, messages: seq<ChatMessage>, repr: string -> string,
                  snippetChars: nat, parts: seq<Part>, spans: seq<Span>)
    requires var content := StubAnswer(SystemPrompt(template, hits), messages, repr);
             var markers := Markers(Cited(content, hits, snippetChars, |hits|));
             Partition(content, markers, parts, spans) && AllChips(content, markers, parts, spans)
    ensures forall n :: n in ChipMarkers(parts) <==> 1 <= n <= |hits|
  {
    var content := StubAnswer(SystemPrompt(template, hits), messages, repr);
    ChipsAreCitations(content, hits, snippetChars, parts, spans);
    StubCitesAll(template, hits, messages, repr, snippetChars);
    var all := AllCited(hits, snippetChars);
    forall n | 1 <= n <= |hits| ensures n in Markers(all) {
      assert all[n - 1] in all && all[n - 1].marker == n;
    }
  }
}
