/**
 The ingestion chunker: a greedy packing of words into windows of about `size`
 characters, each window starting with a tail of the one before it.

 `Greedy` says, without an algorithm, which windows a packing must have; the
 loops of `ChunkText` are proved to produce it, and everything else is proved
 of every packing that satisfies it.
 */
module Chunking {
  import opened Text
  import opened Wrappers

  /** Words `start`, ..., `end - 1` of the text. */
  datatype Window = Window(start: nat, end: nat)

  function EstimateTokens(text: string): (tokens: nat)
    ensures tokens >= 1
    ensures |text| < 8 ==> tokens == 1
    ensures |text| >= 4 ==> 4 * tokens <= |text| < 4 * tokens + 4
  {
    if |text| / 4 > 1 then |text| / 4 else 1
  }

  /** Characters of the words when each is followed by one separator. */
  function Cost(words: seq<string>): nat {
    if words == [] then 0 else |words[0]| + 1 + Cost(words[1..])
  }

  function Line(words: seq<string>): string {
    Join(" ", words)
  }

  function CostOf(words: seq<string>, from: nat, to: nat): nat
    requires from <= to <= |words|
  {
    Cost(words[from..to])
  }

  function LengthOf(words: seq<string>, from: nat, to: nat): nat
    requires from <= to <= |words|
  {
    |Line(words[from..to])|
  }

  ghost function ChunkOf(words: seq<string>, w: Window): string
    requires w.start <= w.end <= |words|
  {
    Line(words[w.start..w.end])
  }

  /** The first window may hold `size` characters, every later one only `size - 1`. */
  function Limit(size: int, i: nat): int {
    if i == 0 then size else size - 1
  }

  /** Where the words that window `i` adds begin. */
  ghost function PrevEnd(ws: seq<Window>, i: nat): nat
    requires i <= |ws|
  {
    if i == 0 then 0 else ws[i - 1].end
  }

  /** `words[s..w.end]` is the longest suffix of window `w` that costs at most `overlap`. */
  ghost predicate IsTail(words: seq<string>, w: Window, overlap: int, s: nat) {
    && w.start <= s <= w.end <= |words|
    && CostOf(words, s, w.end) <= overlap
    && forall t | w.start <= t < s :: CostOf(words, t, w.end) > overlap
  }

  /** Window `i` takes the word at `prev` whatever its length, then as many words as fit. */
  ghost predicate Packed(words: seq<string>, size: int, i: nat, w: Window, prev: nat) {
    && w.start <= prev < w.end <= |words|
    && Fits(words, size, i, w.start, prev, w.end)
    && (w.end < |words| ==> LengthOf(words, w.start, w.end + 1) > Limit(size, i))
  }

  ghost predicate Fits(words: seq<string>, size: int, i: nat, s: nat, prev: nat, end: nat)
    requires s <= prev && end <= |words|
  {
    forall e | prev + 1 < e <= end :: LengthOf(words, s, e) <= Limit(size, i)
  }

  /** Window `i` is packed, and starts with the overlap tail of the one before it. */
  ghost predicate WindowOk(words: seq<string>, size: int, overlap: int, ws: seq<Window>, i: nat)
    requires i < |ws|
  {
    && Packed(words, size, i, ws[i], PrevEnd(ws, i))
    && (if i == 0 then ws[i].start == 0 else IsTail(words, ws[i - 1], overlap, ws[i].start))
  }

  ghost predicate Chain(words: seq<string>, size: int, overlap: int, ws: seq<Window>) {
    forall i | 0 <= i < |ws| :: WindowOk(words, size, overlap, ws, i)
  }

  ghost predicate Greedy(words: seq<string>, size: int, overlap: int, ws: seq<Window>) {
    Chain(words, size, overlap, ws) && ws != [] && ws[|ws| - 1].end == |words|
  }

  ghost predicate InBounds(words: seq<string>, ws: seq<Window>) {
    forall i | 0 <= i < |ws| :: ws[i].start <= ws[i].end <= |words|
  }

  ghost function Chunks(words: seq<string>, ws: seq<Window>): seq<string>
    requires InBounds(words, ws)
  {
    seq(|ws|, i requires 0 <= i < |ws| => ChunkOf(words, ws[i]))
  }

  /** The chunks of a greedy packing of the words. */
  ghost predicate PackedAs(words: seq<string>, size: int, overlap: int, chunks: seq<string>) {
    exists ws :: Greedy(words, size, overlap, ws) && InBounds(words, ws) && chunks == Chunks(words, ws)
  }

  /** What `chunk_text` returns for this text; there is only one such list. */
  ghost predicate ChunkedAs(text: string, size: int, overlap: int, chunks: seq<string>) {
    && 0 <= overlap < size
    && if Words(text) == [] then chunks == [] else PackedAs(Words(text), size, overlap, chunks)
  }

  // ---- The program ----

  /** `tail` is the longest suffix of `words` that costs at most `overlap`. */
  ghost predicate Carried(words: seq<string>, overlap: int, tail: seq<string>) {
    |tail| <= |words| && tail == words[|words| - |tail|..]
    && IsTail(words, Window(0, |words|), overlap, |words| - |tail|)
  }

  /** The overlap tail that the next chunk starts with. */
  method CarryTail(current: seq<string>, overlap: int) returns (tail: seq<string>)
    requires overlap >= 0
    ensures Carried(current, overlap, tail)
  {
    tail := [];
    var tailLength := 0;
    var j := |current|;
    while j > 0
      invariant 0 <= j <= |current|
      invariant tail == current[j..]
      invariant tailLength == Cost(tail) <= overlap
    {
      var w := current[j - 1];
      if tailLength + |w| + 1 > overlap {
        break;
      }
      tail := [w] + tail;
      tailLength := tailLength + |w| + 1;
      j := j - 1;
      assert tail[1..] == current[j + 1..];
    }
    ghost var k := j;
    assert current[k..|current|] == tail;
    forall t | 0 <= t < k ensures Cost(current[t..|current|]) > overlap {
      SliceCost(current, t, k - 1, |current|);
      assert current[k - 1..|current|][1..] == tail;
    }
  }

  method ChunkText(text: string, size: int, overlap: int)
    returns (r: Result<seq<string>>)
    ensures size <= 0 ==> r == Failure("size must be positive")
    ensures size > 0 && !(0 <= overlap < size) ==> r == Failure("overlap must satisfy 0 <= overlap < size")
    ensures 0 <= overlap < size ==> r.Success? && ChunkedAs(text, size, overlap, r.value)
  {
    if size <= 0 {
      return Failure("size must be positive");
    }
    if !(0 <= overlap < size) {
      return Failure("overlap must satisfy 0 <= overlap < size");
    }
    var normalized := Normalize(text);
    NormalizeIsJoin(text);
    WordsAreWords(text);
    if normalized == "" {
      if Words(text) != [] {
        JoinWordsEnds(Words(text));
      }
      return Success([]);
    }
    var words := Split(normalized, ' ');
    SplitGivesWords(text);

    var chunks := PackWords(words, size, overlap);
    return Success(chunks);
  }

  method PackWords(words: seq<string>, size: int, overlap: int) returns (chunks: seq<string>)
    requires words != [] && 0 <= overlap < size
    ensures PackedAs(words, size, overlap, chunks)
  {
    chunks := [];
    ghost var ws: seq<Window> := [];
    var current: seq<string>, length := [], 0;
    ghost var s: nat := 0;
    for i := 0 to |words|
      invariant if i == 0 then ws == [] else PrevEnd(ws, |ws|) < i
      invariant Packing(words, size, overlap, ws, s, i, length)
      invariant current == words[s..i]
      invariant InBounds(words, ws) && chunks == Chunks(words, ws)
    {
      var word := words[i];
      var added := |word| + if current != [] then 1 else 0;
      LineGrows(words, s, i);
      if length + added > size && current != [] {
        chunks := chunks + [Line(current)];
        current, length, ws, s := NextWindow(current, size, overlap, words, ws, s, i);
      } else {
        Take(words, size, overlap, ws, s, i, length);
      }
      current := current + [word];
      length := length + added;
    }
    ghost var last := Window(s, |words|);
    CloseWindow(words, size, overlap, ws, last);
    assert PackedAs(words, size, overlap, chunks + [Line(current)]) by {
      assert Greedy(words, size, overlap, ws + [last]);
      assert Chunks(words, ws + [last]) == chunks + [ChunkOf(words, last)];
    }
    if current != [] {
      chunks := chunks + [Line(current)];
    }
  }

  /** Closes the window of `current` and opens the next one with its overlap tail. */
  method NextWindow(current: seq<string>, size: int, overlap: int,
                    ghost words: seq<string>, ghost ws: seq<Window>, ghost s: nat, ghost i: nat)
    returns (tail: seq<string>, length: int, ghost next: seq<Window>, ghost s': nat)
    requires overlap >= 0 && s < i < |words| && PrevEnd(ws, |ws|) < i && current == words[s..i]
    requires Packing(words, size, overlap, ws, s, i, |Line(words[s..i])| + if ws == [] then 0 else 1)
    requires |Line(words[s..i + 1])| > Limit(size, |ws|)
    ensures Carried(current, overlap, tail) && length == Cost(tail)
    ensures next != [] && PrevEnd(next, |next|) == i && s' <= i
    ensures Packing(words, size, overlap, next, s', i + 1, length + |words[i]| + 1)
    ensures tail == words[s'..i] && words[s'..i + 1] == tail + [words[i]]
    ensures InBounds(words, ws) && InBounds(words, next)
    ensures Chunks(words, next) == Chunks(words, ws) + [Line(current)]
  {
    tail := CarryTail(current, overlap);
    length := Cost(tail);
    ghost var k := |current| - |tail|;
    TailShift(words, Window(s, i), overlap, k);
    Flush(words, size, overlap, ws, s, i, k);
    next, s' := ws + [Window(s, i)], s + k;
  }

  /**
   The loop invariant: `ws` are the windows closed so far and `[s, i)` the open
   one. The counter `length` is exact in the first window and one too high in
   every later one.
   */
  ghost predicate Packing(words: seq<string>, size: int, overlap: int,
                          ws: seq<Window>, s: nat, i: nat, length: int)
  {
    && s <= PrevEnd(ws, |ws|) <= i <= |words|
    && Chain(words, size, overlap, ws)
    && Fits(words, size, |ws|, s, PrevEnd(ws, |ws|), i)
    && (if ws == [] then s == 0 else IsTail(words, ws[|ws| - 1], overlap, s))
    && length == |Line(words[s..i])| + if ws == [] then 0 else 1
  }

  /** Word `i` still fits in the open window, or the window has no word yet. */
  lemma Take(words: seq<string>, size: int, overlap: int, ws: seq<Window>, s: nat, i: nat, length: int)
    requires i < |words| && Packing(words, size, overlap, ws, s, i, length)
    requires if i == 0 then ws == [] else PrevEnd(ws, |ws|) < i && length + |words[i]| + 1 <= size
    ensures Packing(words, size, overlap, ws, s, i + 1, length + |words[i]| + if s < i then 1 else 0)
  {
    LineGrows(words, s, i);
  }

  lemma ChainInBounds(words: seq<string>, size: int, overlap: int, ws: seq<Window>)
    requires Chain(words, size, overlap, ws)
    ensures InBounds(words, ws)
  {
    forall i | 0 <= i < |ws| ensures ws[i].start <= ws[i].end <= |words| {
      assert WindowOk(words, size, overlap, ws, i);
    }
  }

  lemma CloseWindow(words: seq<string>, size: int, overlap: int, ws: seq<Window>, w: Window)
    requires Chain(words, size, overlap, ws)
    requires Packed(words, size, |ws|, w, PrevEnd(ws, |ws|))
    requires if ws == [] then w.start == 0 else IsTail(words, ws[|ws| - 1], overlap, w.start)
    ensures Chain(words, size, overlap, ws + [w])
    ensures InBounds(words, ws) && InBounds(words, ws + [w])
    ensures Chunks(words, ws + [w]) == Chunks(words, ws) + [ChunkOf(words, w)]
  {
    var next := ws + [w];
    forall i | 0 <= i < |next| ensures WindowOk(words, size, overlap, next, i) {
      assert PrevEnd(next, i) == PrevEnd(ws, i);
      if i < |ws| {
        assert WindowOk(words, size, overlap, ws, i);
      }
    }
    ChainInBounds(words, size, overlap, ws);
    assert Chunks(words, next) == Chunks(words, ws) + [ChunkOf(words, w)];
  }

  /** A window that the next word does not fit into can be closed. */
  lemma CloseFullWindow(words: seq<string>, size: int, overlap: int, ws: seq<Window>, s: nat, i: nat, length: int)
    requires s < i < |words| && PrevEnd(ws, |ws|) < i && Packing(words, size, overlap, ws, s, i, length)
    requires |Line(words[s..i + 1])| > Limit(size, |ws|)
    ensures Chain(words, size, overlap, ws + [Window(s, i)])
    ensures InBounds(words, ws) && InBounds(words, ws + [Window(s, i)])
    ensures Chunks(words, ws + [Window(s, i)]) == Chunks(words, ws) + [Line(words[s..i])]
  {
    CloseWindow(words, size, overlap, ws, Window(s, i));
  }

  /** Closing the open window `[s, i)` and carrying its last words into a new one that takes word `i`. */
  lemma Flush(words: seq<string>, size: int, overlap: int, ws: seq<Window>, s: nat, i: nat, k: nat)
    requires s < i < |words| && PrevEnd(ws, |ws|) < i
    requires Packing(words, size, overlap, ws, s, i, |Line(words[s..i])| + if ws == [] then 0 else 1)
    requires |Line(words[s..i + 1])| > Limit(size, |ws|)
    requires IsTail(words, Window(s, i), overlap, s + k)
    ensures words[s + k..i + 1] == words[s + k..i] + [words[i]]
    ensures InBounds(words, ws) && InBounds(words, ws + [Window(s, i)])
    ensures Chunks(words, ws + [Window(s, i)]) == Chunks(words, ws) + [Line(words[s..i])]
    ensures Packing(words, size, overlap, ws + [Window(s, i)], s + k, i + 1, Cost(words[s + k..i]) + |words[i]| + 1)
  {
    CloseFullWindow(words, size, overlap, ws, s, i, |Line(words[s..i])| + if ws == [] then 0 else 1);
    OpenWindow(words, size, overlap, ws + [Window(s, i)], Window(s, i), s + k, i);
  }

  /** The new window takes word `i` whatever its length. */
  lemma OpenWindow(words: seq<string>, size: int, overlap: int, ws: seq<Window>, last: Window, s: nat, i: nat)
    requires ws != [] && Chain(words, size, overlap, ws) && ws[|ws| - 1] == last && last.end == i < |words|
    requires IsTail(words, last, overlap, s)
    ensures Packing(words, size, overlap, ws, s, i + 1, Cost(words[s..i]) + |words[i]| + 1)
    ensures words[s..i + 1] == words[s..i] + [words[i]]
  {
    LineGrows(words, s, i);
  }

  // ---- Lengths ----

  lemma {:induction false} CostAppend(a: seq<string>, b: seq<string>)
    ensures Cost(a + b) == Cost(a) + Cost(b)
  {
    if a == [] {
      assert a + b == b;
    } else {
      CostAppend(a[1..], b);
      assert (a + b)[1..] == a[1..] + b;
    }
  }

  lemma SliceCost(words: seq<string>, a: nat, b: nat, c: nat)
    requires a <= b <= c <= |words|
    ensures Cost(words[a..c]) == Cost(words[a..b]) + Cost(words[b..c])
  {
    CostAppend(words[a..b], words[b..c]);
    assert words[a..c] == words[a..b] + words[b..c];
  }

  lemma {:induction false} LineCost(words: seq<string>)
    ensures |Line(words)| == if words == [] then 0 else Cost(words) - 1
  {
    if |words| > 1 {
      LineCost(words[1..]);
    }
  }

  /** What one more word does to the length of a line. */
  lemma LineGrows(words: seq<string>, s: nat, i: nat)
    requires s <= i < |words|
    ensures |Line(words[s..i + 1])| == |Line(words[s..i])| + |words[i]| + if s < i then 1 else 0
    ensures s < i ==> Cost(words[s..i]) == |Line(words[s..i])| + 1
    ensures words[s..i + 1] == words[s..i] + [words[i]]
  {
    SliceCost(words, s, i, i + 1);
    assert words[i..i + 1] == [words[i]];
    LineCost(words[s..i]);
    LineCost(words[s..i + 1]);
  }

  lemma TailShift(words: seq<string>, w: Window, overlap: int, k: nat)
    requires w.start <= w.end <= |words|
    requires IsTail(words[w.start..w.end], Window(0, w.end - w.start), overlap, k)
    ensures IsTail(words, w, overlap, w.start + k)
    ensures words[w.start..w.end][k..] == words[w.start + k..w.end]
  {
    var current := words[w.start..w.end];
    forall t | 0 <= t <= |current|
      ensures current[t..|current|] == words[w.start + t..w.end]
    {
    }
    forall t | w.start <= t < w.start + k ensures CostOf(words, t, w.end) > overlap {
      assert current[t - w.start..|current|] == words[t..w.end];
      assert CostOf(current, t - w.start, |current|) > overlap;
    }
  }

  lemma SplitGivesWords(text: string)
    requires Words(text) != []
    ensures Split(Normalize(text), ' ') == Words(text)
  {
    NormalizeIsJoin(text);
    WordsAreWords(text);
    forall w | w in Words(text) ensures ' ' !in w {
      assert IsWord(w);
    }
    SplitJoin(Words(text), ' ');
  }
}
