/**
 How many windows a greedy packing has, and how long their chunks are.
 */
module PackingSizes {
  import opened Text
  import opened Chunking
  import opened Packings

  // ---- Number of chunks ----

  /** Two consecutive windows advance by at least `size - overlap + 1` characters. */
  lemma TwoWindowsAdvance(words: seq<string>, size: int, overlap: int, ws: seq<Window>, i: nat)
    requires Chain(words, size, overlap, ws) && i + 1 < |ws| && 0 <= overlap < size
    ensures PrevEnd(ws, i) <= ws[i + 1].end <= |words|
    ensures Cost(words[..ws[i + 1].end]) >= Cost(words[..PrevEnd(ws, i)]) + (size - overlap + 1)
  {
    ChainWindow(words, size, overlap, ws, i);
    ChainWindow(words, size, overlap, ws, i + 1);
    var s, p, e, f := ws[i].start, PrevEnd(ws, i), ws[i].end, ws[i + 1].end;
    LineCost(words[s..e + 1]);
    SliceCost(words, s, p, e + 1);
    SliceCost(words, 0, p, e + 1);
    SliceCost(words, 0, e + 1, f);
    assert words[s..p] == [] || Cost(words[s..p]) <= overlap;
    assert words[..p] == words[0..p] && words[..f] == words[0..f];
  }

  lemma {:induction false} PairsAdvance(words: seq<string>, size: int, overlap: int, ws: seq<Window>, pairs: nat)
    requires Chain(words, size, overlap, ws) && 0 < 2 * pairs <= |ws| && 0 <= overlap < size
    ensures ws[2 * pairs - 1].end <= |words|
    ensures pairs * (size - overlap + 1) <= Cost(words[..ws[2 * pairs - 1].end])
  {
    TwoWindowsAdvance(words, size, overlap, ws, 2 * pairs - 2);
    if pairs > 1 {
      PairsAdvance(words, size, overlap, ws, pairs - 1);
    }
    assert pairs * (size - overlap + 1) == (pairs - 1) * (size - overlap + 1) + (size - overlap + 1);
  }

  /** `N` chunks need a text of at least about `N / 2 * (size - overlap + 1)` characters. */
  lemma ChunkCount(text: string, size: int, overlap: int, ws: seq<Window>)
    requires 0 <= overlap < size && Greedy(Words(text), size, overlap, ws)
    ensures |ws| / 2 * (size - overlap + 1) <= |Normalize(text)| + 1
  {
    var words := Words(text);
    var pairs := |ws| / 2;
    NormalizeIsJoin(text);
    LineCost(words);
    if pairs > 0 {
      PairsAdvance(words, size, overlap, ws, pairs);
      var e := ws[2 * pairs - 1].end;
      SliceCost(words, 0, e, |words|);
      assert words[0..|words|] == words && words[..e] == words[0..e];
    }
  }

  // ---- How full a window is ----

  /**
   The first window has at most `size` characters and takes every word that fits. A later
   one has at most `size - 1`, and a word that would make exactly `size` is left
   to the next window. Only a window that adds a single word may be longer.
   */
  lemma WindowsAreFull(words: seq<string>, size: int, overlap: int, ws: seq<Window>, i: nat)
    requires Greedy(words, size, overlap, ws) && i < |ws|
    ensures ws[i].start < ws[i].end <= |words|
    ensures i == 0 && ws[i].end > 1 ==> |Line(words[ws[i].start..ws[i].end])| <= size
    ensures i == 0 && ws[i].end < |words| ==> |Line(words[ws[i].start..ws[i].end + 1])| >= size + 1
    ensures i > 0 && ws[i].end > ws[i - 1].end + 1 ==> |Line(words[ws[i].start..ws[i].end])| <= size - 1
    ensures i > 0 && ws[i].end < |words| ==> |Line(words[ws[i].start..ws[i].end + 1])| >= size
  {
    ChainWindow(words, size, overlap, ws, i);
    assert ws[i].end > PrevEnd(ws, i) + 1 ==> LengthOf(words, ws[i].start, ws[i].end) <= Limit(size, i);
  }

  /** Two words of two letters fit in five characters, but not after the first window. */
  lemma ShortWordsApart()
    ensures var words := ["aaaaa", "bb", "cc"];
            var ws := [Window(0, 1), Window(1, 2), Window(2, 3)];
            && Greedy(words, 5, 0, ws) && InBounds(words, ws)
            && Chunks(words, ws) == ["aaaaa", "bb", "cc"]
  {
    var words := ["aaaaa", "bb", "cc"];
    var ws := [Window(0, 1), Window(1, 2), Window(2, 3)];
    assert words[0..1] == ["aaaaa"] && words[1..2] == ["bb"] && words[2..3] == ["cc"];
    assert words[0..2] == ["aaaaa", "bb"] && words[1..3] == ["bb", "cc"];
    assert Line(["aaaaa", "bb"]) == "aaaaa bb" && Line(["bb", "cc"]) == "bb cc";
    assert Cost(["aaaaa"]) == 6 && Cost(["bb"]) == 3;
    assert WindowOk(words, 5, 0, ws, 0);
    assert WindowOk(words, 5, 0, ws, 1);
    assert WindowOk(words, 5, 0, ws, 2);
    assert Chunks(words, ws) == [Line(words[0..1]), Line(words[1..2]), Line(words[2..3])];
  }

  // ---- Size of a chunk ----

  /**
   A chunk is either within its limit, or it is an overlap tail and a single word
   that did not fit behind it.
   */
  lemma ChunkSize(words: seq<string>, size: int, overlap: int, ws: seq<Window>, i: nat)
    requires 0 <= overlap < size && Greedy(words, size, overlap, ws) && i < |ws|
    ensures InBounds(words, ws)
    ensures |Chunks(words, ws)[i]| <= (if i == 0 then size else size - 1)
         || (ws[i].end == PrevEnd(ws, i) + 1 && |Chunks(words, ws)[i]| <= overlap + |words[PrevEnd(ws, i)]|)
  {
    ChainSteps(words, size, overlap, ws);
    ChainWindow(words, size, overlap, ws, i);
    var w, p := ws[i], PrevEnd(ws, i);
    if w.end == p + 1 {
      LineGrows(words, w.start, p);
      LineCost(words[w.start..p]);
      assert w.start < p ==> Cost(words[w.start..p]) <= overlap;
      assert w.start == p ==> words[w.start..p] == [];
    } else {
      assert LengthOf(words, w.start, w.end) <= Limit(size, i);
    }
  }

  ghost predicate WordsAtMost(words: seq<string>, longest: nat) {
    forall w | w in words :: |w| <= longest
  }

  ghost predicate ChunksAtMost(words: seq<string>, ws: seq<Window>, bound: int) {
    InBounds(words, ws) && forall i | 0 <= i < |ws| :: |Chunks(words, ws)[i]| <= bound
  }

  /** No chunk is longer than `size` or than an overlap and the longest word. */
  lemma ChunkSizeBound(words: seq<string>, size: int, overlap: int, ws: seq<Window>, longest: nat)
    requires 0 <= overlap < size && Greedy(words, size, overlap, ws) && WordsAtMost(words, longest)
    ensures ChunksAtMost(words, ws, if size >= overlap + longest then size else overlap + longest)
  {
    ChainSteps(words, size, overlap, ws);
    forall i | 0 <= i < |ws|
      ensures |Chunks(words, ws)[i]| <= size || |Chunks(words, ws)[i]| <= overlap + longest
    {
      ChunkSize(words, size, overlap, ws, i);
      ChainWindow(words, size, overlap, ws, i);
      assert words[PrevEnd(ws, i)] in words;
    }
  }

  /** Every text whose words have at most `longest` characters is cut into chunks of at most `size`. */
  ghost predicate SizeIsSafe(size: int, overlap: int, longest: nat) {
    forall text: string, ws: seq<Window> ::
      WordsAtMost(Words(text), longest) && Greedy(Words(text), size, overlap, ws)
      ==> ChunksAtMost(Words(text), ws, size)
  }

  /** A tail costs at least two characters, so an overlap below two carries nothing. */
  lemma {:induction false} NoTail(words: seq<string>)
    requires words != [] && forall w | w in words :: IsWord(w)
    ensures Cost(words) >= 2
  {
    assert IsWord(words[0]);
  }

  lemma SmallOverlapSize(words: seq<string>, size: int, overlap: int, ws: seq<Window>)
    requires 0 <= overlap < 2 && overlap < size && Greedy(words, size, overlap, ws)
    requires WordsAtMost(words, size) && forall w | w in words :: IsWord(w)
    ensures ChunksAtMost(words, ws, size)
  {
    ChainSteps(words, size, overlap, ws);
    forall i | 0 <= i < |ws| ensures |Chunks(words, ws)[i]| <= size {
      ChunkSize(words, size, overlap, ws, i);
      ChainWindow(words, size, overlap, ws, i);
      var s, p := ws[i].start, PrevEnd(ws, i);
      if s < p {
        NoTail(words[s..p]);
      }
      if ws[i].end == p + 1 {
        LineGrows(words, s, p);
        assert words[s..p] == [];
        assert words[p] in words;
      }
    }
  }

  /** Words of one or two letters that cost exactly `n`. */
  function Filler(n: nat): seq<string>
    requires n >= 2
  {
    if n == 2 then ["a"] else if n == 3 then ["aa"] else ["a"] + Filler(n - 2)
  }

  lemma {:induction false} FillerCost(n: nat)
    requires n >= 2
    ensures Filler(n) != [] && Cost(Filler(n)) == n
    ensures forall w | w in Filler(n) :: IsWord(w) && |w| <= 2
  {
    assert IsWord("a") && IsWord("aa");
    if n >= 4 {
      FillerCost(n - 2);
      assert Filler(n)[1..] == Filler(n - 2);
    }
  }

  /** Words that are all carried over, followed by one that does not fit behind them. */
  lemma {:induction false} CarriedWhole(fill: seq<string>, last: string, size: int, overlap: int)
    requires fill != [] && Cost(fill) == overlap < size && |last| > size - overlap
    ensures var words, k := fill + [last], |fill|;
            Greedy(words, size, overlap, [Window(0, k), Window(0, k + 1)]) && |Line(words)| > size
  {
    var words, k := fill + [last], |fill|;
    var ws := [Window(0, k), Window(0, k + 1)];
    assert words[0..k] == fill && words[0..k + 1] == words;
    LineCost(fill);
    LineGrows(words, 0, k);
    forall e | 1 < e <= k ensures |Line(words[0..e])| <= size {
      SliceCost(words, 0, e, k);
      LineCost(words[0..e]);
    }
    assert WindowOk(words, size, overlap, ws, 0);
    assert WindowOk(words, size, overlap, ws, 1);
  }

  /** A text that is carried over whole and then followed by a word of `long` characters. */
  lemma OversizeText(size: int, overlap: int, long: nat) returns (text: string, ws: seq<Window>)
    requires 2 <= overlap < size && long > size - overlap
    ensures WordsAtMost(Words(text), long) && Greedy(Words(text), size, overlap, ws)
    ensures !ChunksAtMost(Words(text), ws, size)
  {
    var fill, longWord := Filler(overlap), seq(long, _ => 'a');
    var words := fill + [longWord];
    FillerCost(overlap);
    assert IsWord(longWord);
    text, ws := Line(words), [Window(0, |fill|), Window(0, |fill| + 1)];
    WordsOfJoin(words);
    CarriedWhole(fill, longWord, size, overlap);
    LastChunk(words, ws);
  }

  lemma LastChunk(words: seq<string>, ws: seq<Window>)
    requires ws != [] && ws[|ws| - 1] == Window(0, |words|)
    ensures InBounds(words, ws) ==> Chunks(words, ws)[|ws| - 1] == Line(words)
  {
    assert words[0..|words|] == words;
  }

  lemma OversizeWord(size: int, overlap: int, long: nat) returns (text: string, ws: seq<Window>)
    requires 0 <= overlap < size && long > size
    ensures WordsAtMost(Words(text), long) && Greedy(Words(text), size, overlap, ws)
    ensures !ChunksAtMost(Words(text), ws, size)
  {
    var longWord := seq(long, _ => 'a');
    var words := [longWord];
    assert IsWord(longWord);
    text, ws := Line(words), [Window(0, 1)];
    WordsOfJoin(words);
    assert words[0..1] == words;
    assert WindowOk(words, size, overlap, ws, 0);
    LastChunk(words, ws);
  }

  /**
   "Every chunk has at most `size` characters" holds of all texts with words of at
   most `longest` characters exactly when a word always fits behind a full overlap,
   or when the overlap is too small to carry any word.
   */
  lemma SizeSafety(size: int, overlap: int, longest: nat)
    requires 0 <= overlap < size
    ensures SizeIsSafe(size, overlap, longest) <==> longest <= if overlap < 2 then size else size - overlap
  {
    if overlap < 2 && longest <= size {
      forall text: string, ws: seq<Window> |
        WordsAtMost(Words(text), longest) && Greedy(Words(text), size, overlap, ws)
        ensures ChunksAtMost(Words(text), ws, size)
      {
        WordsAreWords(text);
        SmallOverlapSize(Words(text), size, overlap, ws);
      }
    } else if longest <= size - overlap {
      forall text: string, ws: seq<Window> |
        WordsAtMost(Words(text), longest) && Greedy(Words(text), size, overlap, ws)
        ensures ChunksAtMost(Words(text), ws, size)
      {
        ChunkSizeBound(Words(text), size, overlap, ws, longest);
      }
    } else if overlap < 2 {
      var text, ws := OversizeWord(size, overlap, longest);
    } else {
      var text, ws := OversizeText(size, overlap, longest);
    }
  }

  /** Words of at most eight characters and a chunk of twelve, with `size` ten. */
  lemma TwelveCharacterChunk()
    ensures var words := ["aaaa", "bbb", "cccccccc"];
            var ws := [Window(0, 2), Window(1, 3)];
            && Greedy(words, 10, 4, ws) && InBounds(words, ws)
            && Chunks(words, ws) == ["aaaa bbb", "bbb cccccccc"]
  {
    var words := ["aaaa", "bbb", "cccccccc"];
    var ws := [Window(0, 2), Window(1, 3)];
    assert words[0..2] == ["aaaa", "bbb"] && words[1..2] == ["bbb"] && words[1..3] == ["bbb", "cccccccc"];
    assert words[0..3] == words;
    assert Cost(["aaaa", "bbb"]) == 9 && Cost(["bbb"]) == 4;
    assert Line(["aaaa", "bbb"]) == "aaaa bbb" && Line(["bbb", "cccccccc"]) == "bbb cccccccc";
    assert |Line(words)| == 17 by { assert words[1..] == ["bbb", "cccccccc"]; }
    assert WindowOk(words, 10, 4, ws, 0);
    assert WindowOk(words, 10, 4, ws, 1);
    assert Chunks(words, ws) == [Line(words[0..2]), Line(words[1..3])];
  }
}
