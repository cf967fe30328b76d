/**
 What holds of the chunks of a text as texts, without the windows they are cut by:
 what each repeats of the one before it, how the text is found again, and how many
 and how long they are.
 */
module Rebuilding {
  import opened Text
  import opened Chunking
  import opened Packings
  import opened PackingSizes

  /** A word of `s` begins at position `x`, or `s` ends there after a separator. */
  predicate AtWord(s: string, x: nat)
    requires x <= |s|
  {
    x == 0 || s[x - 1] == ' '
  }

  /** The longest run of final words of `prev`, each with a separator, of at most `overlap` characters: `r` in all. */
  ghost predicate LongestTail(prev: string, overlap: int, r: nat) {
    && r <= |prev| && r <= overlap && AtWord(prev, |prev| - r)
    && forall x: nat | x < |prev| - r && AtWord(prev, x) :: |prev| - x > overlap
  }

  /**
   Chunk `i` begins with the last `r` characters of the chunk before it,
   which are its longest tail, and adds more.
   */
  ghost predicate Repeats(chunks: seq<string>, overlap: int, i: nat, r: nat)
    requires i < |chunks|
  {
    && r < |chunks[i]|
    && if i == 0 then r == 0
       else
         var prev := chunks[i - 1] + " ";
         LongestTail(prev, overlap, r) && chunks[i][..r] == prev[|prev| - r..]
  }

  ghost predicate AllRepeat(chunks: seq<string>, overlap: int, repeated: seq<nat>) {
    |repeated| == |chunks| && forall i | 0 <= i < |chunks| :: Repeats(chunks, overlap, i, repeated[i])
  }

  ghost function WithoutRepeats(chunks: seq<string>, repeated: seq<nat>): seq<string>
    requires |repeated| == |chunks| && forall i | 0 <= i < |chunks| :: repeated[i] <= |chunks[i]|
  {
    seq(|chunks|, i requires 0 <= i < |chunks| => chunks[i][repeated[i]..])
  }

  /** The words, each followed by a separator. */
  function Closed(words: seq<string>): string {
    if words == [] then "" else words[0] + " " + Closed(words[1..])
  }

  lemma {:induction false} ClosedLine(words: seq<string>)
    ensures |Closed(words)| == Cost(words)
    ensures words != [] ==> Closed(words) == Line(words) + " "
  {
    if |words| > 1 {
      ClosedLine(words[1..]);
      assert words[0] + " " + (Line(words[1..]) + " ") == Line(words) + " ";
    } else if |words| == 1 {
      assert words[1..] == [];
    }
  }

  lemma {:induction false} ClosedAppend(a: seq<string>, b: seq<string>)
    ensures Closed(a + b) == Closed(a) + Closed(b)
  {
    if a == [] {
      assert a + b == b;
    } else {
      ClosedAppend(a[1..], b);
      assert (a + b)[1..] == a[1..] + b;
      assert a[0] + " " + (Closed(a[1..]) + Closed(b)) == a[0] + " " + Closed(a[1..]) + Closed(b);
    }
  }

  /** Words begin only where words begin. */
  lemma {:induction false} WordStarts(words: seq<string>, x: nat) returns (t: nat)
    requires (forall w | w in words :: ' ' !in w) && x <= |Closed(words)| && AtWord(Closed(words), x)
    ensures t <= |words| && Cost(words[t..]) == |Closed(words)| - x
  {
    ClosedLine(words);
    if x == 0 {
      t := 0;
    } else {
      var n := |words[0]| + 1;
      assert words[0] in words && forall k | 0 <= k < n - 1 :: Closed(words)[k] == words[0][k];
      var rest := Closed(words[1..]);
      assert Closed(words)[n..] == rest;
      assert x > n ==> rest[x - n - 1] == Closed(words)[x - 1];
      var u := WordStarts(words[1..], x - n);
      t := u + 1;
      assert words[1..][u..] == words[t..];
    }
  }

  lemma ClosedSplits(words: seq<string>, k: nat)
    requires k <= |words|
    ensures Closed(words) == Closed(words[..k]) + Closed(words[k..])
    ensures |Closed(words[k..])| == Cost(words[k..]) == CostOf(words, k, |words|)
    ensures AtWord(Closed(words), |Closed(words[..k])|)
  {
    ClosedLine(words[..k]);
    ClosedLine(words[k..]);
    ClosedAppend(words[..k], words[k..]);
    assert words[..k] + words[k..] == words && words[k..] == words[k..|words|];
    var before := Closed(words[..k]);
    assert before != "" ==> before[|before| - 1] == ' ' && Closed(words)[|before| - 1] == before[|before| - 1];
  }

  /** The tail that is carried over is the longest one. */
  lemma {:induction false} CarriedIsLongest(words: seq<string>, overlap: int, k: nat)
    requires (forall w | w in words :: ' ' !in w) && IsTail(words, Window(0, |words|), overlap, k)
    ensures LongestTail(Closed(words), overlap, Cost(words[k..]))
    ensures Closed(words)[|Closed(words)| - Cost(words[k..])..] == Closed(words[k..])
  {
    var s, r := Closed(words), Cost(words[k..]);
    ClosedSplits(words, k);
    forall x: nat | x < |s| - r && AtWord(s, x) ensures |s| - x > overlap {
      LaterStartIsShorter(words, overlap, k, x);
    }
  }

  lemma {:induction false} LaterStartIsShorter(words: seq<string>, overlap: int, k: nat, x: nat)
    requires (forall w | w in words :: ' ' !in w) && IsTail(words, Window(0, |words|), overlap, k)
    requires x + Cost(words[k..]) < |Closed(words)| && AtWord(Closed(words), x)
    ensures |Closed(words)| - x > overlap
  {
    var t := WordStarts(words, x);
    ClosedSplits(words, t);
    ClosedSplits(words, k);
    if t >= k {
      SliceCost(words, k, t, |words|);
    } else {
      assert CostOf(words, t, |words|) > overlap;
    }
  }

  ghost function Repeated(words: seq<string>, ws: seq<Window>, i: nat): nat
    requires Steps(words, ws) && i < |ws|
  {
    assert AddsWords(ws, i);
    Cost(words[ws[i].start..PrevEnd(ws, i)])
  }

  lemma ChunkRepeats(words: seq<string>, size: int, overlap: int, ws: seq<Window>, i: nat)
    requires Greedy(words, size, overlap, ws) && i < |ws| && forall w | w in words :: IsWord(w)
    ensures Steps(words, ws) && Repeats(Chunks(words, ws), overlap, i, Repeated(words, ws, i))
  {
    ChainSteps(words, size, overlap, ws);
    ChainWindow(words, size, overlap, ws, i);
    var s, p, e := ws[i].start, PrevEnd(ws, i), ws[i].end;
    assert AddsWords(ws, i);
    ChunkSplits(words, s, p, e);
    assert |Line(words[p..e])| > 0 by {
      assert IsWord(words[p]);
      LineCost(words[p..e]);
      SliceCost(words, p, p + 1, e);
      assert words[p..p + 1] == [words[p]];
    }
    if i == 0 {
      assert words[s..p] == [];
    } else {
      ChunkBeginsWithTail(words, s, p, e);
      assert AddsWords(ws, i - 1);
      PrevTail(words, ws[i - 1], overlap, s);
    }
  }

  lemma ChunkBeginsWithTail(words: seq<string>, s: nat, p: nat, e: nat)
    requires s <= p < e <= |words|
    ensures Closed(words[s..p]) <= Line(words[s..e])
    ensures |Closed(words[s..p])| == Cost(words[s..p])
  {
    ClosedLine(words[s..p]);
    if s < p {
      assert words[s..e] == words[s..p] + words[p..e];
      JoinAppend(" ", words[s..p], words[p..e]);
    }
  }

  lemma PrevTail(words: seq<string>, w: Window, overlap: int, s: nat)
    requires IsTail(words, w, overlap, s) && w.start < w.end && forall v | v in words :: IsWord(v)
    ensures var prev := ChunkOf(words, w) + " ";
            && LongestTail(prev, overlap, Cost(words[s..w.end]))
            && prev[|prev| - Cost(words[s..w.end])..] == Closed(words[s..w.end])
  {
    var current, k := words[w.start..w.end], s - w.start;
    ClosedLine(current);
    forall v | v in current ensures ' ' !in v {
      assert IsWord(v);
    }
    assert current[k..] == words[s..w.end];
    forall t | 0 <= t <= |current| ensures CostOf(current, t, |current|) == CostOf(words, w.start + t, w.end) {
      assert current[t..|current|] == words[w.start + t..w.end];
    }
    CarriedIsLongest(current, overlap, k);
  }

  lemma {:induction false} NewTextsWithout(words: seq<string>, ws: seq<Window>, repeated: seq<nat>, n: nat)
    requires Steps(words, ws) && n <= |ws| == |repeated|
    requires forall i | 0 <= i < |ws| :: repeated[i] == Repeated(words, ws, i) && repeated[i] <= |Chunks(words, ws)[i]|
    ensures NewTexts(words, ws, n) == WithoutRepeats(Chunks(words, ws), repeated)[..n]
  {
    if n > 0 {
      NewTextsWithout(words, ws, repeated, n - 1);
      assert AddsWords(ws, n - 1);
    }
  }

  lemma WindowsRepeat(words: seq<string>, size: int, overlap: int, ws: seq<Window>) returns (repeated: seq<nat>)
    requires Greedy(words, size, overlap, ws) && forall w | w in words :: IsWord(w)
    ensures Steps(words, ws) && AllRepeat(Chunks(words, ws), overlap, repeated)
    ensures forall i | 0 <= i < |ws| :: repeated[i] == Repeated(words, ws, i) && repeated[i] <= |Chunks(words, ws)[i]|
  {
    ChainSteps(words, size, overlap, ws);
    repeated := seq(|ws|, i requires 0 <= i < |ws| => Repeated(words, ws, i));
    forall i | 0 <= i < |ws| ensures Repeats(Chunks(words, ws), overlap, i, repeated[i]) {
      ChunkRepeats(words, size, overlap, ws, i);
    }
  }

  /**
   Each chunk repeats exactly the longest run of final words of the chunk before it that fits in
   the overlap, and without what they repeat the chunks joined by spaces are the normalised text.
   */
  lemma ChunksRebuildText(text: string, size: int, overlap: int, chunks: seq<string>) returns (repeated: seq<nat>)
    requires ChunkedAs(text, size, overlap, chunks)
    ensures AllRepeat(chunks, overlap, repeated)
    ensures Line(WithoutRepeats(chunks, repeated)) == Normalize(text)
    ensures chunks == [] <==> Normalize(text) == ""
  {
    var words := Words(text);
    NormalizeIsJoin(text);
    WordsAreWords(text);
    if words == [] {
      repeated := [];
    } else {
      JoinWordsEnds(words);
      var ws :| Greedy(words, size, overlap, ws) && InBounds(words, ws) && chunks == Chunks(words, ws);
      repeated := WindowsRepeat(words, size, overlap, ws);
      NewTextsWithout(words, ws, repeated, |ws|);
      assert WithoutRepeats(chunks, repeated)[..|ws|] == WithoutRepeats(chunks, repeated);
      Reconstruction(text, size, overlap, ws);
    }
  }

  /** The bounds on the number and on the size of the chunks of a text, blank or not. */
  lemma {:induction false} ChunksAreBounded(text: string, size: int, overlap: int, chunks: seq<string>, longest: nat)
    requires ChunkedAs(text, size, overlap, chunks)
    ensures |chunks| / 2 * (size - overlap + 1) <= |Normalize(text)| + 1
    ensures WordsAtMost(Words(text), longest) ==>
              forall c | c in chunks :: |c| <= if size >= overlap + longest then size else overlap + longest
  {
    var words := Words(text);
    if words != [] {
      var ws :| Greedy(words, size, overlap, ws) && InBounds(words, ws) && chunks == Chunks(words, ws);
      ChunkCount(text, size, overlap, ws);
      if WordsAtMost(words, longest) {
        ChunkSizeBound(words, size, overlap, ws, longest);
      }
    }
  }
}
