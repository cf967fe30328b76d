/**
 What every greedy packing satisfies: it is the only one, its windows cover the words,
 and the text is found again from what each window adds.
 */
module Packings {
  import opened Text
  import opened Chunking

  // ---- What every packing satisfies ----

  lemma ChainWindow(words: seq<string>, size: int, overlap: int, ws: seq<Window>, i: nat)
    requires Chain(words, size, overlap, ws) && i < |ws|
    ensures Packed(words, size, i, ws[i], PrevEnd(ws, i))
    ensures if i == 0 then ws[i].start == 0 else IsTail(words, ws[i - 1], overlap, ws[i].start)
  {
    assert WindowOk(words, size, overlap, ws, i);
  }

  /** Window ends strictly increase. */
  lemma {:induction false} EndsIncrease(words: seq<string>, size: int, overlap: int, ws: seq<Window>, i: nat, j: nat)
    requires Chain(words, size, overlap, ws)
    requires i < j < |ws|
    ensures ws[i].end < ws[j].end
  {
    ChainWindow(words, size, overlap, ws, j);
    if i + 1 < j {
      EndsIncrease(words, size, overlap, ws, i, j - 1);
    }
  }

  /**
   The windows `[s_i, e_i)` of a packing begin at the first word, end at the last,
   and satisfy `s_i <= s_(i+1) <= e_i < e_(i+1)`.
   */
  lemma WindowsCover(words: seq<string>, size: int, overlap: int, ws: seq<Window>)
    requires Greedy(words, size, overlap, ws)
    ensures ws[0].start == 0 && ws[|ws| - 1].end == |words|
    ensures forall i | 0 < i < |ws| ::
              ws[i - 1].start <= ws[i].start <= ws[i - 1].end < ws[i].end
  {
    forall i | 0 <= i < |ws|
      ensures i == 0 ==> ws[i].start == 0
      ensures i > 0 ==> ws[i - 1].start <= ws[i].start <= ws[i - 1].end < ws[i].end
    {
      ChainWindow(words, size, overlap, ws, i);
    }
  }

  /** There is only one packing: `Greedy` leaves the program no choice. */
  lemma {:induction false} GreedyPrefixUnique(words: seq<string>, size: int, overlap: int,
                                              a: seq<Window>, b: seq<Window>, n: nat)
    requires Chain(words, size, overlap, a) && Chain(words, size, overlap, b)
    requires n <= |a| && n <= |b|
    ensures a[..n] == b[..n]
  {
    if n > 0 {
      GreedyPrefixUnique(words, size, overlap, a, b, n - 1);
      var i := n - 1;
      assert i > 0 ==> a[i - 1] == a[..i][i - 1] == b[..i][i - 1] == b[i - 1];
      ChainWindow(words, size, overlap, a, i);
      ChainWindow(words, size, overlap, b, i);
      var prev := PrevEnd(a, i);
      EndUnique(words, size, i, a[i], b[i], prev);
      EndUnique(words, size, i, b[i], a[i], prev);
      assert a[..n] == a[..i] + [a[i]] && b[..n] == b[..i] + [b[i]];
    }
  }

  lemma EndUnique(words: seq<string>, size: int, i: nat, a: Window, b: Window, prev: nat)
    requires Packed(words, size, i, a, prev) && Packed(words, size, i, b, prev)
    requires a.start == b.start
    ensures a.end >= b.end
  {
  }

  lemma PackingUnique(words: seq<string>, size: int, overlap: int, a: seq<Window>, b: seq<Window>)
    requires Greedy(words, size, overlap, a) && Greedy(words, size, overlap, b)
    ensures a == b
  {
    var n := if |a| <= |b| then |a| else |b|;
    GreedyPrefixUnique(words, size, overlap, a, b, n);
    var last := n - 1;
    assert a[last] == a[..n][last] == b[..n][last] == b[last];
    if |a| < |b| {
      EndsIncrease(words, size, overlap, b, last, |b| - 1);
    } else if |b| < |a| {
      EndsIncrease(words, size, overlap, a, last, |a| - 1);
    }
    assert a[..n] == a && b[..n] == b;
  }

  lemma ChunkingUnique(text: string, size: int, overlap: int, a: seq<string>, b: seq<string>)
    requires ChunkedAs(text, size, overlap, a) && ChunkedAs(text, size, overlap, b)
    ensures a == b
  {
    var words := Words(text);
    if words != [] {
      var v :| Greedy(words, size, overlap, v) && InBounds(words, v) && a == Chunks(words, v);
      var w :| Greedy(words, size, overlap, w) && InBounds(words, w) && b == Chunks(words, w);
      PackingUnique(words, size, overlap, v, w);
    }
  }

  // ---- Reconstruction ----

  /** Chunk `i` without the characters it repeats from the chunk before it. */
  ghost function NewText(words: seq<string>, ws: seq<Window>, i: nat): string
    requires InBounds(words, ws) && i < |ws| && AddsWords(ws, i)
  {
    ChunkSplits(words, ws[i].start, PrevEnd(ws, i), ws[i].end);
    Chunks(words, ws)[i][Cost(words[ws[i].start..PrevEnd(ws, i)])..]
  }

  lemma ChunkSplits(words: seq<string>, s: nat, p: nat, e: nat)
    requires s <= p < e <= |words|
    ensures Cost(words[s..p]) <= |Line(words[s..e])|
    ensures Line(words[s..e])[Cost(words[s..p])..] == Line(words[p..e])
  {
    assert words[s..e] == words[s..p] + words[p..e];
    LineCost(words[s..p]);
    if s < p {
      JoinAppend(" ", words[s..p], words[p..e]);
    } else {
      assert words[s..p] == [];
    }
  }

  ghost predicate Steps(words: seq<string>, ws: seq<Window>) {
    InBounds(words, ws) && forall i | 0 <= i < |ws| :: AddsWords(ws, i)
  }

  /** Window `i` starts no later than the new words begin, and adds at least one. */
  ghost predicate AddsWords(ws: seq<Window>, i: nat)
    requires i < |ws|
  {
    ws[i].start <= PrevEnd(ws, i) < ws[i].end
  }

  ghost function NewTexts(words: seq<string>, ws: seq<Window>, n: nat): seq<string>
    requires Steps(words, ws) && n <= |ws|
  {
    if n == 0 then [] else NewTexts(words, ws, n - 1) + [NewText(words, ws, n - 1)]
  }

  lemma {:induction false} NewTextsJoin(words: seq<string>, ws: seq<Window>, n: nat)
    requires Steps(words, ws) && 0 < n <= |ws|
    ensures Line(NewTexts(words, ws, n)) == Line(words[..ws[n - 1].end])
  {
    var i := n - 1;
    var p, e := PrevEnd(ws, i), ws[i].end;
    NewTextIsNew(words, ws, i);
    assert AddsWords(ws, i);
    if i > 0 {
      assert AddsWords(ws, i - 1);
      NewTextsJoin(words, ws, i);
      LinesJoin(NewTexts(words, ws, i), words, p, e);
    }
  }

  lemma LinesJoin(texts: seq<string>, words: seq<string>, p: nat, e: nat)
    requires 0 < p < e <= |words| && texts != [] && Line(texts) == Line(words[..p])
    ensures Line(texts + [Line(words[p..e])]) == Line(words[..e])
  {
    JoinAppend(" ", texts, [Line(words[p..e])]);
    JoinAppend(" ", words[..p], words[p..e]);
    assert words[..e] == words[..p] + words[p..e];
  }

  lemma NewTextIsNew(words: seq<string>, ws: seq<Window>, i: nat)
    requires Steps(words, ws) && i < |ws|
    ensures AddsWords(ws, i)
    ensures NewText(words, ws, i) == Line(words[PrevEnd(ws, i)..ws[i].end])
  {
    assert AddsWords(ws, i);
    ChunkSplits(words, ws[i].start, PrevEnd(ws, i), ws[i].end);
  }

  lemma ChainSteps(words: seq<string>, size: int, overlap: int, ws: seq<Window>)
    requires Chain(words, size, overlap, ws)
    ensures Steps(words, ws)
  {
    forall i | 0 <= i < |ws| ensures AddsWords(ws, i) && ws[i].end <= |words| {
      ChainWindow(words, size, overlap, ws, i);
    }
  }

  lemma PackingJoins(words: seq<string>, size: int, overlap: int, ws: seq<Window>)
    requires Greedy(words, size, overlap, ws)
    ensures Steps(words, ws) && Line(NewTexts(words, ws, |ws|)) == Line(words)
  {
    ChainSteps(words, size, overlap, ws);
    NewTextsJoin(words, ws, |ws|);
    assert words[..|words|] == words;
  }

  /** Dropping what each chunk repeats and joining with spaces gives the normalised text back. */
  lemma {:induction false} Reconstruction(text: string, size: int, overlap: int, ws: seq<Window>)
    requires Greedy(Words(text), size, overlap, ws)
    ensures Steps(Words(text), ws)
    ensures Line(NewTexts(Words(text), ws, |ws|)) == Normalize(text)
  {
    PackingJoins(Words(text), size, overlap, ws);
    NormalizeIsJoin(text);
  }
}
