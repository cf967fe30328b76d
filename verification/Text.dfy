/**
 Python's `join`, `split`, `strip` and `\s+` on character sequences, and decimal
 numerals, with the round trips between them.
 */
module Text {
  import opened Sequences

  // ---- Joining and splitting ----

  function Join(sep: string, parts: seq<string>): string {
    if |parts| == 0 then ""
    else if |parts| == 1 then parts[0]
    else parts[0] + sep + Join(sep, parts[1..])
  }

  function Concat(parts: seq<string>): string {
    if parts == [] then "" else parts[0] + Concat(parts[1..])
  }

  /** `s.split(c)`: always at least one piece, and pieces may be empty. */
  function Split(s: string, c: char): (r: seq<string>)
    ensures |r| >= 1
  {
    if s == "" then [""]
    else
      var rest := Split(s[1..], c);
      if s[0] == c then [""] + rest else [[s[0]] + rest[0]] + rest[1..]
  }

  lemma {:induction false} ConcatAppend(a: seq<string>, b: seq<string>)
    ensures Concat(a + b) == Concat(a) + Concat(b)
  {
    if a == [] {
      assert a + b == b;
    } else {
      ConcatAppend(a[1..], b);
      assert (a + b)[1..] == a[1..] + b;
      assert Concat(a + b) == a[0] + (Concat(a[1..]) + Concat(b));
    }
  }

  lemma {:induction false} JoinAppend(sep: string, a: seq<string>, b: seq<string>)
    requires a != [] && b != []
    ensures Join(sep, a + b) == Join(sep, a) + sep + Join(sep, b)
  {
    assert (a + b)[1..] == a[1..] + b;
    if |a| > 1 {
      JoinAppend(sep, a[1..], b);
    } else {
      assert (a + b)[1..] == b;
    }
  }

  /** Splitting never puts the separator inside a piece, and joining undoes it. */
  lemma {:induction false} JoinSplit(s: string, c: char)
    ensures Join([c], Split(s, c)) == s
    ensures forall p | p in Split(s, c) :: c !in p
  {
    if s != "" {
      JoinSplit(s[1..], c);
      var rest := Split(s[1..], c);
      if s[0] == c {
        assert Split(s, c)[1..] == rest;
      } else {
        assert Split(s, c)[1..] == rest[1..];
      }
    }
  }

  lemma {:induction false} SplitHead(p: string, s: string, c: char)
    requires c !in p
    ensures Split(p + [c] + s, c) == [p] + Split(s, c)
  {
    var whole := p + [c] + s;
    if p == "" {
      assert whole[1..] == s;
    } else {
      SplitHead(p[1..], s, c);
      assert whole[1..] == p[1..] + [c] + s;
      assert [p[0]] + p[1..] == p;
    }
  }

  lemma {:induction false} SplitPlain(p: string, c: char)
    requires c !in p
    ensures Split(p, c) == [p]
  {
    if p != "" {
      SplitPlain(p[1..], c);
      assert [p[0]] + p[1..] == p;
    }
  }

  /** Joining separator-free pieces and splitting again gives the pieces back. */
  lemma {:induction false} SplitJoin(parts: seq<string>, c: char)
    requires parts != []
    requires forall p | p in parts :: c !in p
    ensures Split(Join([c], parts), c) == parts
  {
    if |parts| == 1 {
      SplitPlain(parts[0], c);
    } else {
      SplitJoin(parts[1..], c);
      SplitHead(parts[0], Join([c], parts[1..]), c);
    }
  }

  // ---- Whitespace ----

  /** The characters that both `\s` and `str.strip` treat as white space. */
  predicate IsSpace(c: char) {
    var n := c as int;
    || 0x09 <= n <= 0x0D || 0x1C <= n <= 0x20 || n == 0x85 || n == 0xA0 || n == 0x1680
    || 0x2000 <= n <= 0x200A || n == 0x2028 || n == 0x2029 || n == 0x202F || n == 0x205F || n == 0x3000
  }

  lemma AsciiSpaces(c: char)
    requires c as int < 128
    ensures IsSpace(c) <==> c in "\t\n\r " || c as int in {0x0B, 0x0C, 0x1C, 0x1D, 0x1E, 0x1F}
  {
  }

  function Lstrip(s: string): string {
    if s != "" && IsSpace(s[0]) then Lstrip(s[1..]) else s
  }

  function Rstrip(s: string): string {
    if s != "" && IsSpace(s[|s| - 1]) then Rstrip(s[..|s| - 1]) else s
  }

  function Strip(s: string): string {
    Rstrip(Lstrip(s))
  }

  /** `re.sub(r"\s+", " ", s)`. */
  function Collapse(s: string): string
    decreases |s|
  {
    if s == "" then ""
    else if IsSpace(s[0]) then LstripShorter(s); [' '] + Collapse(Lstrip(s))
    else [s[0]] + Collapse(s[1..])
  }

  lemma {:induction false} LstripShorter(s: string)
    ensures |Lstrip(s)| <= |s|
    ensures s != "" && IsSpace(s[0]) ==> |Lstrip(s)| < |s|
    ensures Lstrip(s) == "" || !IsSpace(Lstrip(s)[0])
    ensures Lstrip(s) <= s || s[|s| - |Lstrip(s)|..] == Lstrip(s)
  {
    if s != "" && IsSpace(s[0]) {
      LstripShorter(s[1..]);
    }
  }

  function Normalize(s: string): string {
    Strip(Collapse(s))
  }

  /** The length of the run of non-space characters that `s` starts with. */
  function WordLength(s: string): (n: nat)
    ensures n <= |s|
    ensures forall k | 0 <= k < n :: !IsSpace(s[k])
    ensures n < |s| ==> IsSpace(s[n])
  {
    if s == "" || IsSpace(s[0]) then 0 else 1 + WordLength(s[1..])
  }

  /** The maximal runs of non-space characters, in order. */
  function Words(s: string): seq<string>
    decreases |s|
  {
    if s == "" then []
    else if IsSpace(s[0]) then Words(s[1..])
    else [s[..WordLength(s)]] + Words(s[WordLength(s)..])
  }

  ghost predicate IsWord(w: string) {
    w != "" && forall k | 0 <= k < |w| :: !IsSpace(w[k])
  }

  lemma {:induction false} WordsAreWords(s: string)
    ensures forall w | w in Words(s) :: IsWord(w)
    decreases |s|
  {
    if s != "" {
      if IsSpace(s[0]) {
        WordsAreWords(s[1..]);
      } else {
        WordsAreWords(s[WordLength(s)..]);
      }
    }
  }

  lemma {:induction false} WordsLstrip(s: string)
    ensures Words(Lstrip(s)) == Words(s)
  {
    if s != "" && IsSpace(s[0]) {
      WordsLstrip(s[1..]);
    }
  }

  lemma {:induction false} CollapseWord(w: string, rest: string)
    requires forall k | 0 <= k < |w| :: !IsSpace(w[k])
    ensures Collapse(w + rest) == w + Collapse(rest)
  {
    if w == "" {
      assert w + rest == rest;
    } else {
      CollapseWord(w[1..], rest);
      assert (w + rest)[1..] == w[1..] + rest;
    }
  }

  /** A text that starts with a word: the word, and what follows the white space after it. */
  lemma FirstWord(s: string) returns (w: string, next: string)
    requires s != "" && !IsSpace(s[0])
    ensures |next| < |s| && (next == "" || !IsSpace(next[0]))
    ensures Words(s) == [w] + Words(next)
    ensures Collapse(s) == w + " " + Collapse(next) || (next == "" && Collapse(s) == w)
  {
    var n := WordLength(s);
    w := s[..n];
    var rest := s[n..];
    next := Lstrip(rest);
    assert s == w + rest;
    CollapseWord(w, rest);
    LstripShorter(rest);
    WordsLstrip(rest);
    if rest == "" {
      assert Words(rest) == [] && w + Collapse(rest) == w;
    } else {
      Regroup(w, " ", Collapse(next));
    }
  }

  /** Text without leading white space collapses to its words, with at most one space left at the end. */
  lemma {:induction false} CollapseIsJoin(s: string)
    requires s == "" || !IsSpace(s[0])
    ensures Collapse(s) == Join(" ", Words(s)) || Collapse(s) == Join(" ", Words(s)) + " "
    ensures s != "" ==> Words(s) != []
    decreases |s|
  {
    if s != "" {
      var w, next := FirstWord(s);
      CollapseIsJoin(next);
      JoinHead(w, Words(next));
      if next == "" {
        assert Words(next) == [] && Collapse(next) == "";
      }
    }
  }

  lemma JoinHead(w: string, ws: seq<string>)
    ensures Join(" ", [w] + ws) == if ws == [] then w else w + " " + Join(" ", ws)
  {
    assert ([w] + ws)[1..] == ws;
  }

  lemma {:induction false} JoinWordsEnds(ws: seq<string>)
    requires ws != []
    requires forall w | w in ws :: IsWord(w)
    ensures var j := Join(" ", ws); j != "" && !IsSpace(j[0]) && !IsSpace(j[|j| - 1])
  {
    assert IsWord(ws[0]);
    if |ws| > 1 {
      JoinWordsEnds(ws[1..]);
    }
  }

  lemma CollapseLeading(s: string)
    ensures Collapse(s) == Collapse(Lstrip(s)) || Collapse(s) == " " + Collapse(Lstrip(s))
  {
  }

  lemma LeadingSpace(t: string)
    ensures Lstrip(" " + t) == Lstrip(t)
  {
    assert (" " + t)[1..] == t;
  }

  lemma TrailingSpace(t: string)
    ensures Rstrip(t + " ") == Rstrip(t)
  {
    assert (t + " ")[..|t|] == t;
  }

  lemma StripSpaces(j: string)
    requires j == "" || (!IsSpace(j[0]) && !IsSpace(j[|j| - 1]))
    ensures Strip(j) == j && Strip(" " + j) == j && Strip(j + " ") == j && Strip(" " + (j + " ")) == j
  {
    LeadingSpace(j);
    LeadingSpace(j + " ");
    TrailingSpace(j);
    if j == "" {
      LeadingSpace("");
      assert "" + " " == " " + "";
    } else {
      assert (j + " ")[0] == j[0];
    }
  }

  /** Normalising is joining the words with single spaces. */
  lemma NormalizeIsJoin(s: string)
    ensures Normalize(s) == Join(" ", Words(s))
  {
    WordsAreWords(s);
    LstripShorter(s);
    WordsLstrip(s);
    CollapseIsJoin(Lstrip(s));
    CollapseLeading(s);
    if Words(s) != [] {
      JoinWordsEnds(Words(s));
    }
    StripSpaces(Join(" ", Words(s)));
  }

  lemma {:induction false} WordRun(w: string, rest: string)
    requires forall k | 0 <= k < |w| :: !IsSpace(w[k])
    requires rest == "" || IsSpace(rest[0])
    ensures WordLength(w + rest) == |w|
  {
    var whole := w + rest;
    assert forall k | 0 <= k < |w| :: whole[k] == w[k];
    assert rest != "" ==> whole[|w|] == rest[0];
  }

  lemma WordBeforeSpace(w: string, t: string)
    requires IsWord(w)
    ensures Words(w + (" " + t)) == [w] + Words(t)
  {
    var rest := " " + t;
    var s := w + rest;
    WordRun(w, rest);
    assert s[..|w|] == w && s[|w|..] == rest && s[0] == w[0];
    assert rest[1..] == t;
  }

  lemma WordAlone(w: string)
    requires IsWord(w)
    ensures Words(w) == [w]
  {
    WordRun(w, "");
    assert w + "" == w;
  }

  /** Words joined by single spaces are found again, so normalising twice changes nothing. */
  lemma {:induction false} WordsOfJoin(ws: seq<string>)
    requires forall w | w in ws :: IsWord(w)
    ensures Words(Join(" ", ws)) == ws
  {
    if |ws| == 1 {
      WordAlone(ws[0]);
    } else if ws != [] {
      WordsOfJoin(ws[1..]);
      WordBeforeSpace(ws[0], Join(" ", ws[1..]));
      Regroup(ws[0], " ", Join(" ", ws[1..]));
    }
  }

  // ---- What the words of a text are ----

  ghost predicate AllIn(s: string, inWord: char -> bool) {
    forall k | 0 <= k < |s| :: inWord(s[k])
  }

  ghost predicate NoneIn(s: string, inWord: char -> bool) {
    forall k | 0 <= k < |s| :: !inWord(s[k])
  }

  /** A gap, a word, a gap, ..., a word, a gap. */
  function Interleaved(gaps: seq<string>, ws: seq<string>): string
    requires |gaps| == |ws| + 1
  {
    if ws == [] then gaps[0] else gaps[0] + (ws[0] + Interleaved(gaps[1..], ws[1..]))
  }

  /** `ws` are the maximal runs of word characters of `s`, in order. */
  ghost predicate AreRuns(s: string, ws: seq<string>, gaps: seq<string>, inWord: char -> bool) {
    && |gaps| == |ws| + 1 && s == Interleaved(gaps, ws)
    && (forall i | 0 <= i < |ws| :: ws[i] != "" && AllIn(ws[i], inWord))
    && (forall i | 0 <= i < |gaps| :: NoneIn(gaps[i], inWord))
    && (forall i | 0 < i < |ws| :: gaps[i] != "")
  }

  lemma GapFirst(c: char, s: string, ws: seq<string>, gaps: seq<string>, inWord: char -> bool)
    returns (gaps': seq<string>)
    requires AreRuns(s, ws, gaps, inWord) && !inWord(c)
    ensures AreRuns([c] + s, ws, gaps', inWord)
  {
    gaps' := [[c] + gaps[0]] + gaps[1..];
    if ws == [] {
      assert Interleaved(gaps', ws) == [c] + s;
    } else {
      var rest := ws[0] + Interleaved(gaps[1..], ws[1..]);
      assert gaps'[1..] == gaps[1..];
      Regroup([c], gaps[0], rest);
    }
  }

  lemma WordFirst(w: string, s: string, ws: seq<string>, gaps: seq<string>, inWord: char -> bool)
    returns (gaps': seq<string>)
    requires AreRuns(s, ws, gaps, inWord) && w != "" && AllIn(w, inWord) && (s == "" || !inWord(s[0]))
    ensures AreRuns(w + s, [w] + ws, gaps', inWord)
  {
    gaps' := [""] + gaps;
    assert gaps'[1..] == gaps && ([w] + ws)[1..] == ws;
    assert Interleaved(gaps', [w] + ws) == "" + (w + s) == w + s;
    assert ws != [] ==> s[|gaps[0]|] == ws[0][0];
  }

  /** The words of every text are its maximal runs of characters that are not white space. */
  lemma {:induction false} WordsAreRuns(s: string) returns (gaps: seq<string>)
    ensures AreRuns(s, Words(s), gaps, c => !IsSpace(c))
    decreases |s|
  {
    var inWord := c => !IsSpace(c);
    if s == "" {
      gaps := [""];
    } else if IsSpace(s[0]) {
      var rest := WordsAreRuns(s[1..]);
      assert [s[0]] + s[1..] == s;
      gaps := GapFirst(s[0], s[1..], Words(s[1..]), rest, inWord);
    } else {
      var n := WordLength(s);
      var rest := WordsAreRuns(s[n..]);
      assert s[..n] + s[n..] == s;
      gaps := WordFirst(s[..n], s[n..], Words(s[n..]), rest, inWord);
    }
  }

  /** ... and nothing else is. */
  lemma WordsExact(s: string, ws: seq<string>, gaps: seq<string>)
    requires AreRuns(s, ws, gaps, c => !IsSpace(c))
    ensures ws == Words(s)
  {
    var gaps' := WordsAreRuns(s);
    RunsUnique(s, ws, gaps, Words(s), gaps', c => !IsSpace(c));
  }

  lemma FirstRun(s: string, ws: seq<string>, gaps: seq<string>, inWord: char -> bool) returns (tail: string)
    requires AreRuns(s, ws, gaps, inWord) && ws != []
    ensures s == gaps[0] + (ws[0] + tail) && AreRuns(tail, ws[1..], gaps[1..], inWord)
    ensures tail == "" || !inWord(tail[0])
  {
    tail := Interleaved(gaps[1..], ws[1..]);
    if |ws| > 1 {
      assert gaps[1..][0] != "" && tail[0] == gaps[1][0];
    }
  }

  lemma RunEnd(s: string, gap: string, w: string, tail: string, k: nat, inWord: char -> bool)
    requires s == gap + (w + tail) && k < |s|
    ensures k < |gap| ==> s[k] == gap[k]
    ensures |gap| <= k < |gap| + |w| ==> s[k] == w[k - |gap|]
    ensures |gap| + |w| <= k ==> s[k] == tail[k - |gap| - |w|]
  {
  }

  /** Two ways of splitting off the first word are the same. */
  lemma SameFirstRun(s: string, gap: string, w: string, tail: string, gap': string, w': string, tail': string,
                     inWord: char -> bool)
    requires s == gap + (w + tail) && NoneIn(gap, inWord) && w != "" && AllIn(w, inWord)
    requires s == gap' + (w' + tail') && NoneIn(gap', inWord) && w' != "" && AllIn(w', inWord)
    requires (tail == "" || !inWord(tail[0])) && (tail' == "" || !inWord(tail'[0]))
    ensures w == w' && tail == tail'
  {
    RunEnd(s, gap, w, tail, |gap|, inWord);
    RunEnd(s, gap', w', tail', |gap|, inWord);
    RunEnd(s, gap, w, tail, |gap'|, inWord);
    RunEnd(s, gap', w', tail', |gap'|, inWord);
    assert |gap| == |gap'|;
    var n, n' := |gap| + |w|, |gap'| + |w'|;
    if n < |s| {
      RunEnd(s, gap, w, tail, n, inWord);
      RunEnd(s, gap', w', tail', n, inWord);
    }
    if n' < |s| {
      RunEnd(s, gap, w, tail, n', inWord);
      RunEnd(s, gap', w', tail', n', inWord);
    }
    assert n == n';
    assert w == s[|gap|..n] == w' && tail == s[n..] == tail';
  }

  lemma NoRuns(s: string, gap: string, ws: seq<string>, gaps: seq<string>, inWord: char -> bool)
    requires s == gap && NoneIn(gap, inWord) && AreRuns(s, ws, gaps, inWord)
    ensures ws == []
  {
    if ws != [] {
      var tail := FirstRun(s, ws, gaps, inWord);
      RunEnd(s, gaps[0], ws[0], tail, |gaps[0]|, inWord);
    }
  }

  /** Every text has one list of maximal runs only. */
  lemma {:induction false} RunsUnique(s: string, ws: seq<string>, gaps: seq<string>,
                                      ws': seq<string>, gaps': seq<string>, inWord: char -> bool)
    requires AreRuns(s, ws, gaps, inWord) && AreRuns(s, ws', gaps', inWord)
    ensures ws == ws'
    decreases |ws|
  {
    if ws == [] {
      NoRuns(s, gaps[0], ws', gaps', inWord);
    } else if ws' == [] {
      NoRuns(s, gaps'[0], ws, gaps, inWord);
    } else {
      var tail := FirstRun(s, ws, gaps, inWord);
      var tail' := FirstRun(s, ws', gaps', inWord);
      SameFirstRun(s, gaps[0], ws[0], tail, gaps'[0], ws'[0], tail', inWord);
      RunsUnique(tail, ws[1..], gaps[1..], ws'[1..], gaps'[1..], inWord);
      assert ws == [ws[0]] + ws[1..] && ws' == [ws'[0]] + ws'[1..];
    }
  }

  /** Stripping takes white space off both ends, and all of it. */
  lemma StripExact(s: string) returns (left: string, right: string)
    ensures s == left + Strip(s) + right
    ensures (forall k | 0 <= k < |left| :: IsSpace(left[k])) && (forall k | 0 <= k < |right| :: IsSpace(right[k]))
    ensures Strip(s) == "" || (!IsSpace(Strip(s)[0]) && !IsSpace(Strip(s)[|Strip(s)| - 1]))
  {
    left := LstripExact(s);
    right := RstripExact(Lstrip(s));
    Regroup(left, Strip(s), right);
    if Strip(s) != "" {
      assert Lstrip(s)[0] == Strip(s)[0];
    }
  }

  lemma {:induction false} LstripExact(s: string) returns (left: string)
    ensures s == left + Lstrip(s) && (forall k | 0 <= k < |left| :: IsSpace(left[k]))
    ensures Lstrip(s) == "" || !IsSpace(Lstrip(s)[0])
  {
    if s != "" && IsSpace(s[0]) {
      var more := LstripExact(s[1..]);
      left := [s[0]] + more;
      assert s == [s[0]] + s[1..];
    } else {
      left := "";
    }
  }

  lemma {:induction false} RstripExact(s: string) returns (right: string)
    ensures s == Rstrip(s) + right && (forall k | 0 <= k < |right| :: IsSpace(right[k]))
    ensures Rstrip(s) == "" || !IsSpace(Rstrip(s)[|Rstrip(s)| - 1])
  {
    if s != "" && IsSpace(s[|s| - 1]) {
      var front, last := s[..|s| - 1], s[|s| - 1];
      var more := RstripExact(front);
      right := more + [last];
      Regroup(Rstrip(front), more, [last]);
      assert front + [last] == s;
      assert Rstrip(s) == Rstrip(front);
    } else {
      right := "";
    }
  }

  // ---- Decimal numerals ----

  predicate IsDigit(c: char) {
    '0' <= c <= '9'
  }

  predicate AllDigits(s: string) {
    forall k | 0 <= k < |s| :: IsDigit(s[k])
  }

  /** `str(n)`. */
  function Decimal(n: nat): (s: string)
    ensures s != "" && AllDigits(s)
  {
    if n < 10 then [(n + '0' as int) as char]
    else Decimal(n / 10) + [(n % 10 + '0' as int) as char]
  }

  /** `int(s)` on ASCII digits; leading zeros are allowed. */
  function ParseDecimal(s: string): nat
    requires AllDigits(s)
  {
    if s == "" then 0
    else 10 * ParseDecimal(s[..|s| - 1]) + (s[|s| - 1] as int - '0' as int)
  }

  lemma {:induction false} ParseDecimalOfDecimal(n: nat)
    ensures ParseDecimal(Decimal(n)) == n
  {
    var s := Decimal(n);
    if n < 10 {
      assert s[..|s| - 1] == "";
    } else {
      ParseDecimalOfDecimal(n / 10);
      assert s[..|s| - 1] == Decimal(n / 10);
    }
  }

  function TenTo(n: nat): nat {
    if n == 0 then 1 else 10 * TenTo(n - 1)
  }

  /** Numerals are positional, with the most significant digit first. */
  lemma {:induction false} Positional(a: string, b: string)
    requires AllDigits(a) && AllDigits(b)
    ensures AllDigits(a + b)
    ensures ParseDecimal(a + b) == ParseDecimal(a) * TenTo(|b|) + ParseDecimal(b)
    ensures |a| == 1 ==> ParseDecimal(a) == a[0] as int - '0' as int
  {
    if b == "" {
      assert a + b == a;
    } else {
      var n := |b| - 1;
      Positional(a, b[..n]);
      assert (a + b)[..|a + b| - 1] == a + b[..n];
      Tenfold(ParseDecimal(a), TenTo(n));
    }
    if |a| == 1 {
      assert a[..0] == "";
    }
  }

  lemma Tenfold(x: nat, y: nat)
    ensures 10 * (x * y) == x * (10 * y)
  {
  }
}
