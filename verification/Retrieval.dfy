/**
 Reciprocal rank fusion of ranked id lists, and the truncation and reordering of
 `hybrid_search`. Scores are exact.
 */
module Retrieval {
  import opened Wrappers
  import opened Sequences
  import opened Sorting

  type Id = string
  type Scored = (Id, real)

  // ---- Scores ----

  /** What position `position` of a ranking contributes. */
  function Weight(rrfK: nat, position: nat): real {
    1.0 / (rrfK + position + 1) as real
  }

  function ScoreIn(ranking: seq<Id>, id: Id, rrfK: nat): real {
    if ranking == [] then 0.0
    else
      var last := |ranking| - 1;
      ScoreIn(ranking[..last], id, rrfK) + if ranking[last] == id then Weight(rrfK, last) else 0.0
  }

  function Score(rankings: seq<seq<Id>>, id: Id, rrfK: nat): real {
    if rankings == [] then 0.0
    else Score(rankings[..|rankings| - 1], id, rrfK) + ScoreIn(rankings[|rankings| - 1], id, rrfK)
  }

  function Flatten(rankings: seq<seq<Id>>): seq<Id> {
    if rankings == [] then [] else Flatten(rankings[..|rankings| - 1]) + rankings[|rankings| - 1]
  }

  /** The ids of `ids` in the order in which they first appear. */
  function FirstSeen(ids: seq<Id>): seq<Id> {
    if ids == [] then []
    else
      var before, id := FirstSeen(ids[..|ids| - 1]), ids[|ids| - 1];
      if id in before then before else before + [id]
  }

  function Items(order: seq<Id>, rankings: seq<seq<Id>>, rrfK: nat): (items: seq<Scored>)
    ensures |items| == |order| && forall i | 0 <= i < |order| :: items[i] == (order[i], Score(rankings, order[i], rrfK))
  {
    seq(|order|, i requires 0 <= i < |order| => (order[i], Score(rankings, order[i], rrfK)))
  }

  const DESCENDING: Scored -> real := (item: Scored) => -item.1

  function Fused(rankings: seq<seq<Id>>, rrfK: nat): seq<Scored> {
    SortBy(Items(FirstSeen(Flatten(rankings)), rankings, rrfK), DESCENDING)
  }

  // ---- The program ----

  /** A Python dictionary of scores, which remembers the order of insertion. */
  class ScoreTable {
    var order: seq<Id>
    var score: map<Id, real>

    ghost predicate Valid()
      reads this
    {
      NoDuplicates(order) && forall id :: id in order <==> id in score
    }

    constructor ()
      ensures Valid() && order == [] && score == map[]
    {
      order, score := [], map[];
    }

    method Add(id: Id, x: real)
      requires Valid()
      modifies this
      ensures Valid()
      ensures order == if id in old(order) then old(order) else old(order) + [id]
      ensures score == old(score)[id := (if id in old(score) then old(score)[id] else 0.0) + x]
    {
      if id !in score {
        order := order + [id];
        score := score[id := 0.0];
      }
      score := score[id := score[id] + x];
    }
  }

  /** The table holds the fusion of `before` and of the first `n` ids of `ranking`. */
  ghost predicate Holds(order: seq<Id>, score: map<Id, real>, before: seq<seq<Id>>, ranking: seq<Id>, n: nat, rrfK: nat)
    requires n <= |ranking|
  {
    && order == FirstSeen(Flatten(before) + ranking[..n])
    && (forall id :: id in order <==> id in score)
    && forall id | id in score ::
         score[id] == Score(before, id, rrfK) + ScoreIn(ranking[..n], id, rrfK)
  }

  method AddRanking(scores: ScoreTable, ranking: seq<Id>, rrfK: nat, ghost before: seq<seq<Id>>)
    requires scores.Valid() && Holds(scores.order, scores.score, before, ranking, 0, rrfK)
    modifies scores
    ensures scores.Valid() && Holds(scores.order, scores.score, before, ranking, |ranking|, rrfK)
  {
    for position := 0 to |ranking|
      invariant scores.Valid() && Holds(scores.order, scores.score, before, ranking, position, rrfK)
    {
      Added(scores.order, scores.score, before, ranking, position, rrfK);
      scores.Add(ranking[position], 1.0 / (rrfK + position + 1) as real);
    }
  }

  lemma Added(order: seq<Id>, score: map<Id, real>, before: seq<seq<Id>>, ranking: seq<Id>, n: nat, rrfK: nat)
    requires n < |ranking| && Holds(order, score, before, ranking, n, rrfK)
    ensures var id := ranking[n];
            Holds(if id in order then order else order + [id],
                  score[id := (if id in score then score[id] else 0.0) + Weight(rrfK, n)],
                  before, ranking, n + 1, rrfK)
  {
    var id := ranking[n];
    OneMorePosition(before, ranking, n);
    if id !in order {
      NotSeen(Flatten(before) + ranking[..n], id);
      NoScore(before, id, rrfK);
      NoScoreIn(ranking[..n], id, rrfK);
    }
  }

  lemma OneMorePosition(before: seq<seq<Id>>, ranking: seq<Id>, n: nat)
    requires n < |ranking|
    ensures ranking[..n + 1][..n] == ranking[..n]
    ensures FirstSeen(Flatten(before) + ranking[..n + 1])
         == (var seen := FirstSeen(Flatten(before) + ranking[..n]);
             if ranking[n] in seen then seen else seen + [ranking[n]])
  {
    assert ranking[..n] + [ranking[n]] == ranking[..n + 1];
    Regroup(Flatten(before), ranking[..n], [ranking[n]]);
    FirstSeenSnoc(Flatten(before) + ranking[..n], ranking[n]);
  }

  lemma FirstSeenSnoc(ids: seq<Id>, id: Id)
    ensures FirstSeen(ids + [id]) == if id in FirstSeen(ids) then FirstSeen(ids) else FirstSeen(ids) + [id]
  {
    assert (ids + [id])[..|ids|] == ids;
  }

  lemma OneMoreRanking(rankings: seq<seq<Id>>, i: nat)
    requires i < |rankings|
    ensures rankings[..i + 1][..i] == rankings[..i]
    ensures Flatten(rankings[..i + 1]) == Flatten(rankings[..i]) + rankings[i]
    ensures rankings[i][..|rankings[i]|] == rankings[i]
  {
    assert rankings[..i + 1][..i] == rankings[..i];
  }

  method ReciprocalRankFusion(rankings: seq<seq<Id>>, rrfK: nat) returns (fused: seq<Scored>)
    ensures fused == Fused(rankings, rrfK)
  {
    var scores := new ScoreTable();
    for i := 0 to |rankings|
      invariant fresh(scores) && scores.Valid()
      invariant Holds(scores.order, scores.score, rankings[..i], [], 0, rrfK)
    {
      OneMoreRanking(rankings, i);
      assert Flatten(rankings[..i]) + rankings[i][..0] == Flatten(rankings[..i]) + [];
      AddRanking(scores, rankings[i], rrfK, rankings[..i]);
      assert Flatten(rankings[..i + 1]) + [] == Flatten(rankings[..i]) + rankings[i];
    }
    assert rankings[..|rankings|] == rankings && Flatten(rankings) + [] == Flatten(rankings);
    var items := seq(|scores.order|, i requires 0 <= i < |scores.order| && scores.Valid() reads scores =>
                     (scores.order[i], scores.score[scores.order[i]]));
    assert items == Items(scores.order, rankings, rrfK);
    fused := SortBy(items, DESCENDING);
  }

  lemma {:induction false} FirstSeenSet(ids: seq<Id>)
    ensures NoDuplicates(FirstSeen(ids))
    ensures forall id :: id in FirstSeen(ids) <==> id in ids
  {
    if ids != [] {
      FirstSeenSet(ids[..|ids| - 1]);
      assert ids == ids[..|ids| - 1] + [ids[|ids| - 1]];
    }
  }

  lemma NotSeen(ids: seq<Id>, id: Id)
    requires id !in FirstSeen(ids)
    ensures id !in ids
  {
    FirstSeenSet(ids);
  }

  lemma {:induction false} NoScoreIn(ranking: seq<Id>, id: Id, rrfK: nat)
    requires id !in ranking
    ensures ScoreIn(ranking, id, rrfK) == 0.0
  {
    if ranking != [] {
      NoScoreIn(ranking[..|ranking| - 1], id, rrfK);
    }
  }

  lemma {:induction false} NoScore(rankings: seq<seq<Id>>, id: Id, rrfK: nat)
    requires id !in Flatten(rankings)
    ensures Score(rankings, id, rrfK) == 0.0
  {
    if rankings != [] {
      NoScore(rankings[..|rankings| - 1], id, rrfK);
      NoScoreIn(rankings[|rankings| - 1], id, rrfK);
    }
  }

  // ---- Exactness ----

  function IdsOf(fused: seq<Scored>): (ids: seq<Id>)
    ensures |ids| == |fused| && forall i | 0 <= i < |fused| :: ids[i] == fused[i].0
  {
    seq(|fused|, i requires 0 <= i < |fused| => fused[i].0)
  }

  lemma {:induction false} InsertKeepsDistinct(sorted: seq<Scored>, x: Scored)
    requires NoDuplicates(IdsOf(sorted)) && x.0 !in IdsOf(sorted)
    ensures NoDuplicates(IdsOf(Insert(sorted, x, DESCENDING)))
  {
    var r := Insert(sorted, x, DESCENDING);
    if sorted != [] && DESCENDING(sorted[0]) <= DESCENDING(x) {
      var rest := sorted[1..];
      assert IdsOf(rest) == IdsOf(sorted)[1..];
      InsertKeepsDistinct(rest, x);
      InsertElements(rest, x, DESCENDING);
      PermutationMembers(Insert(rest, x, DESCENDING), rest + [x]);
      var tail := Insert(rest, x, DESCENDING);
      assert IdsOf(r) == [sorted[0].0] + IdsOf(tail);
      forall i | 0 <= i < |tail| ensures IdsOf(tail)[i] != sorted[0].0 {
        assert tail[i] in tail;
        assert tail[i] == x || exists j :: 0 <= j < |rest| && rest[j] == tail[i];
      }
    } else {
      assert IdsOf(r) == [x.0] + IdsOf(sorted);
    }
  }

  lemma {:induction false} SortKeepsDistinct(items: seq<Scored>)
    requires NoDuplicates(IdsOf(items))
    ensures NoDuplicates(IdsOf(SortBy(items, DESCENDING)))
  {
    if items != [] {
      var before, x := items[..|items| - 1], items[|items| - 1];
      assert IdsOf(before) == IdsOf(items)[..|before|];
      SortKeepsDistinct(before);
      SortBySorts(before, DESCENDING);
      PermutationMembers(SortBy(before, DESCENDING), before);
      forall i | 0 <= i < |before| ensures IdsOf(SortBy(before, DESCENDING))[i] != x.0 {
        var y := SortBy(before, DESCENDING)[i];
        assert y in SortBy(before, DESCENDING);
        var j :| 0 <= j < |before| && before[j] == y;
        assert IdsOf(items)[j] == y.0;
      }
      InsertKeepsDistinct(SortBy(before, DESCENDING), x);
    }
  }

  /**
   The result holds each input id once, with its summed score, in descending order
   of scores and equal scores in order of first appearance.
   */
  lemma FusedIsExact(rankings: seq<seq<Id>>, rrfK: nat)
    ensures var fused, order := Fused(rankings, rrfK), FirstSeen(Flatten(rankings));
            && NoDuplicates(IdsOf(fused))
            && (forall id :: id in IdsOf(fused) <==> id in Flatten(rankings))
            && (forall i | 0 <= i < |fused| :: fused[i].1 == Score(rankings, fused[i].0, rrfK))
            && (forall i, j | 0 <= i < j < |fused| ::
                  fused[i].1 > fused[j].1
                  || (fused[i].1 == fused[j].1 && Precedes(order, fused[i].0, fused[j].0)))
  {
    var order := FirstSeen(Flatten(rankings));
    var items := Items(order, rankings, rrfK);
    var fused := Fused(rankings, rrfK);
    FirstSeenSet(Flatten(rankings));
    assert IdsOf(items) == order;
    SortBySorts(items, DESCENDING);
    PermutationMembers(fused, items);
    SortKeepsDistinct(items);
    forall i | 0 <= i < |fused| ensures fused[i].1 == Score(rankings, fused[i].0, rrfK) && fused[i].0 in order {
      assert fused[i] in fused;
      var k :| 0 <= k < |items| && items[k] == fused[i];
    }
    forall id | id in order ensures id in IdsOf(fused) {
      var k :| 0 <= k < |order| && order[k] == id;
      assert items[k] in items;
      var i :| 0 <= i < |fused| && fused[i] == items[k];
      assert IdsOf(fused)[i] == id;
    }
    forall i, j | 0 <= i < j < |fused|
      ensures fused[i].1 > fused[j].1
           || (fused[i].1 == fused[j].1 && Precedes(order, fused[i].0, fused[j].0))
    {
      assert Ordered(fused[i], fused[j], items, DESCENDING);
      if fused[i].1 == fused[j].1 {
        var k, l :| 0 <= k < l < |items| && items[k] == fused[i] && items[l] == fused[j];
        assert order[k] == fused[i].0 && order[l] == fused[j].0;
      }
    }
  }

  /** A higher score comes first. */
  lemma HigherScoreFirst(rankings: seq<seq<Id>>, rrfK: nat, a: Id, b: Id)
    requires a in Flatten(rankings) && b in Flatten(rankings)
    requires Score(rankings, a, rrfK) > Score(rankings, b, rrfK)
    ensures Precedes(IdsOf(Fused(rankings, rrfK)), a, b)
  {
    var fused := Fused(rankings, rrfK);
    FusedIsExact(rankings, rrfK);
    var ids := IdsOf(fused);
    var i :| 0 <= i < |ids| && ids[i] == a;
    var j :| 0 <= j < |ids| && ids[j] == b;
    assert fused[i].0 == a && fused[j].0 == b;
    assert i < j;
  }

  // ---- Consensus ----

  lemma WeightDecreases(rrfK: nat, i: nat, j: nat)
    requires i < j
    ensures Weight(rrfK, i) > Weight(rrfK, j) > 0.0
  {
    Reciprocals((rrfK + i + 1) as real, (rrfK + j + 1) as real);
  }

  lemma Reciprocals(x: real, y: real)
    requires 0.0 < x < y
    ensures 1.0 / x > 1.0 / y > 0.0
  {
  }

  /** In a ranking without duplicates an id scores the weight of its position. */
  lemma {:induction false} ScoreAt(ranking: seq<Id>, id: Id, rrfK: nat, position: nat)
    requires NoDuplicates(ranking) && position < |ranking| && ranking[position] == id
    ensures ScoreIn(ranking, id, rrfK) == Weight(rrfK, position)
  {
    var last := |ranking| - 1;
    if position == last {
      NoScoreIn(ranking[..last], id, rrfK);
    } else {
      assert ranking[..last][position] == id;
      ScoreAt(ranking[..last], id, rrfK, position);
    }
  }

  lemma ScorePositive(ranking: seq<Id>, id: Id, rrfK: nat)
    requires NoDuplicates(ranking)
    ensures ScoreIn(ranking, id, rrfK) >= 0.0
  {
    if id in ranking {
      var position :| 0 <= position < |ranking| && ranking[position] == id;
      ScoreAt(ranking, id, rrfK, position);
      WeightDecreases(rrfK, position, position + 1);
    } else {
      NoScoreIn(ranking, id, rrfK);
    }
  }

  /** Wherever a ranking contains `b` it has `a` before it. */
  ghost predicate Dominates(rankings: seq<seq<Id>>, a: Id, b: Id) {
    forall r | r in rankings && b in r :: Precedes(r, a, b)
  }

  ghost predicate AllDistinct(rankings: seq<seq<Id>>) {
    forall r | r in rankings :: NoDuplicates(r)
  }

  lemma DominatedIn(ranking: seq<Id>, rrfK: nat, a: Id, b: Id)
    requires NoDuplicates(ranking) && (b in ranking ==> Precedes(ranking, a, b))
    ensures ScoreIn(ranking, a, rrfK) >= ScoreIn(ranking, b, rrfK)
    ensures b in ranking ==> ScoreIn(ranking, a, rrfK) > ScoreIn(ranking, b, rrfK) && a in ranking
  {
    if b in ranking {
      var i, j :| 0 <= i < j < |ranking| && ranking[i] == a && ranking[j] == b;
      ScoreAt(ranking, a, rrfK, i);
      ScoreAt(ranking, b, rrfK, j);
      WeightDecreases(rrfK, i, j);
    } else {
      NoScoreIn(ranking, b, rrfK);
      ScorePositive(ranking, a, rrfK);
    }
  }

  lemma {:induction false} DominatedScore(rankings: seq<seq<Id>>, rrfK: nat, a: Id, b: Id)
    requires AllDistinct(rankings) && Dominates(rankings, a, b)
    ensures Score(rankings, a, rrfK) >= Score(rankings, b, rrfK)
    ensures b in Flatten(rankings) ==>
              Score(rankings, a, rrfK) > Score(rankings, b, rrfK) && a in Flatten(rankings)
  {
    if rankings != [] {
      var before, last := rankings[..|rankings| - 1], rankings[|rankings| - 1];
      assert forall r | r in before :: r in rankings;
      assert last in rankings;
      DominatedScore(before, rrfK, a, b);
      DominatedIn(last, rrfK, a, b);
    }
  }

  /** If every ranking that contains `b` has `a` before it, the result has `a` before `b`. */
  lemma UnanimousOrder(rankings: seq<seq<Id>>, rrfK: nat, a: Id, b: Id)
    requires AllDistinct(rankings) && Dominates(rankings, a, b) && b in Flatten(rankings)
    ensures Precedes(IdsOf(Fused(rankings, rrfK)), a, b)
  {
    DominatedScore(rankings, rrfK, a, b);
    HigherScoreFirst(rankings, rrfK, a, b);
  }

  lemma TwoRankings(v: seq<Id>, l: seq<Id>, id: Id, rrfK: nat)
    ensures Score([v, l], id, rrfK) == ScoreIn(v, id, rrfK) + ScoreIn(l, id, rrfK)
    ensures id in Flatten([v, l]) <==> id in v || id in l
  {
    assert [v, l][..1] == [v] && [v][..0] == [];
    assert Score([v], id, rrfK) == ScoreIn(v, id, rrfK);
    assert Flatten([v]) == v;
  }

  ghost predicate InBoth(v: seq<Id>, l: seq<Id>, id: Id) {
    id in v && id in l
  }

  ghost predicate InOne(v: seq<Id>, l: seq<Id>, id: Id) {
    (id in v) != (id in l)
  }

  /** Every id that both rankings contain comes before every id that only one contains. */
  ghost predicate Consensus(v: seq<Id>, l: seq<Id>, rrfK: nat) {
    forall a, b :: InBoth(v, l, a) && InOne(v, l, b) ==> Precedes(IdsOf(Fused([v, l], rrfK)), a, b)
  }

  lemma {:induction false} ScoreBetween(ranking: seq<Id>, id: Id, rrfK: nat)
    requires NoDuplicates(ranking) && id in ranking && |ranking| <= rrfK + 1
    ensures 1.0 / (2 * rrfK + 1) as real <= ScoreIn(ranking, id, rrfK) <= 1.0 / (rrfK + 1) as real
  {
    var position :| 0 <= position < |ranking| && ranking[position] == id;
    ScoreAt(ranking, id, rrfK, position);
    if position > 0 {
      WeightDecreases(rrfK, 0, position);
    }
    if position < rrfK {
      WeightDecreases(rrfK, position, rrfK);
    }
  }

  lemma TwoSmallBeatOneLarge(rrfK: nat)
    ensures 2.0 * (1.0 / (2 * rrfK + 1) as real) > 1.0 / (rrfK + 1) as real
  {
    var half := (2 * rrfK + 1) as real / 2.0;
    Reciprocals(half, (rrfK + 1) as real);
    assert 1.0 / half == 2.0 * (1.0 / (2 * rrfK + 1) as real);
  }

  lemma ShortRankingsAgree(v: seq<Id>, l: seq<Id>, rrfK: nat)
    requires NoDuplicates(v) && NoDuplicates(l) && |v| <= rrfK + 1 && |l| <= rrfK + 1
    ensures Consensus(v, l, rrfK)
  {
    forall a, b | InBoth(v, l, a) && InOne(v, l, b) ensures Precedes(IdsOf(Fused([v, l], rrfK)), a, b) {
      TwoRankings(v, l, a, rrfK);
      TwoRankings(v, l, b, rrfK);
      ScoreBetween(v, a, rrfK);
      ScoreBetween(l, a, rrfK);
      TwoSmallBeatOneLarge(rrfK);
      if b in v {
        ScoreBetween(v, b, rrfK);
        NoScoreIn(l, b, rrfK);
      } else {
        ScoreBetween(l, b, rrfK);
        NoScoreIn(v, b, rrfK);
      }
      HigherScoreFirst([v, l], rrfK, a, b);
    }
  }

  // ---- The bound on the lengths is exact ----

  function Numbered(prefix: char, n: nat): (ids: seq<Id>)
    ensures |ids| == n && forall i | 0 <= i < n :: ids[i] == [prefix] + seq(i, _ => '0')
  {
    seq(n, i requires 0 <= i < n => [prefix] + seq(i, _ => '0'))
  }

  lemma NumberedDistinct(prefix: char, n: nat, id: Id)
    requires id != "" && id[0] != prefix
    ensures NoDuplicates(Numbered(prefix, n) + [id]) && id !in Numbered(prefix, n)
  {
    var ids := Numbered(prefix, n);
    forall i, j | 0 <= i < j < n ensures ids[i] != ids[j] {
      assert |ids[i]| == i + 1 && |ids[j]| == j + 1;
    }
    forall i | 0 <= i < n ensures ids[i] != id {
      assert ids[i][0] == prefix;
    }
  }

  /** An id that is last in two rankings of length `rrfK + 2` only ties with the first of one of them. */
  lemma LastInBothTies(rrfK: nat) returns (v: seq<Id>, l: seq<Id>)
    ensures NoDuplicates(v) && NoDuplicates(l) && |v| == |l| == rrfK + 2
    ensures !Consensus(v, l, rrfK)
  {
    var n := rrfK + 1;
    v, l := Numbered('v', n) + ["both"], Numbered('l', n) + ["both"];
    NumberedDistinct('v', n, "both");
    NumberedDistinct('l', n, "both");
    var a, b := "both", v[0];
    assert b == ['v'] + seq(0, _ => '0');
    assert |b| == 1 && b[0] == 'v';
    forall i | 0 <= i < |l| ensures l[i] != b {
      assert i < n ==> l[i][0] == 'l';
    }
    ScoreAt(v, a, rrfK, n);
    ScoreAt(l, a, rrfK, n);
    ScoreAt(v, b, rrfK, 0);
    NoScoreIn(l, b, rrfK);
    TwoRankings(v, l, a, rrfK);
    TwoRankings(v, l, b, rrfK);
    HalfOfTwice(rrfK);
    assert v[n] == a && l[n] == a;
    assert InBoth(v, l, a) && InOne(v, l, b);
    TieGoesToFirst(v, l, rrfK, a, b);
  }

  lemma HalfOfTwice(rrfK: nat)
    ensures Weight(rrfK, rrfK + 1) + Weight(rrfK, rrfK + 1) == Weight(rrfK, 0)
  {
    var x := (rrfK + 1) as real;
    assert (rrfK + (rrfK + 1) + 1) as real == 2.0 * x;
    assert 1.0 / (2.0 * x) + 1.0 / (2.0 * x) == 1.0 / x;
  }

  lemma {:induction false} FirstSeenHead(ids: seq<Id>)
    requires ids != []
    ensures FirstSeen(ids) != [] && FirstSeen(ids)[0] == ids[0]
  {
    var before := ids[..|ids| - 1];
    if before != [] {
      FirstSeenHead(before);
    } else {
      assert FirstSeen(before) == [];
    }
  }

  lemma TieGoesToFirst(v: seq<Id>, l: seq<Id>, rrfK: nat, a: Id, b: Id)
    requires v != [] && b == v[0] && a != b
    requires Score([v, l], a, rrfK) == Score([v, l], b, rrfK)
    ensures !Precedes(IdsOf(Fused([v, l], rrfK)), a, b)
  {
    var fused := Fused([v, l], rrfK);
    var order := FirstSeen(Flatten([v, l]));
    FusedIsExact([v, l], rrfK);
    FirstSeenSet(Flatten([v, l]));
    assert [v, l][..1] == [v] && [v][..0] == [];
    assert Flatten([v]) == [] + v == v;
    assert Flatten([v, l]) == v + l;
    FirstSeenHead(v + l);
    assert order[0] == b && !Precedes(order, a, b);
    forall i, j | 0 <= i < j < |fused| ensures !(IdsOf(fused)[i] == a && IdsOf(fused)[j] == b) {
      assert IdsOf(fused)[i] == fused[i].0 && IdsOf(fused)[j] == fused[j].0;
    }
  }

  ghost predicate ConsensusUpTo(n: nat, rrfK: nat) {
    forall v, l :: NoDuplicates(v) && NoDuplicates(l) && |v| <= n && |l| <= n ==> Consensus(v, l, rrfK)
  }

  /** Rankings of up to `n` ids reach consensus in general exactly when `n <= rrfK + 1`. */
  lemma ConsensusExactly(n: nat, rrfK: nat)
    ensures ConsensusUpTo(n, rrfK) <==> n <= rrfK + 1
  {
    if n <= rrfK + 1 {
      forall v, l | NoDuplicates(v) && NoDuplicates(l) && |v| <= n && |l| <= n ensures Consensus(v, l, rrfK) {
        ShortRankingsAgree(v, l, rrfK);
      }
    } else {
      var v, l := LastInBothTies(rrfK);
    }
  }

  // ---- Search ----

  datatype Mode = Hybrid | VectorOnly | LexicalOnly

  datatype Settings = Settings(candidateK: nat, rrfK: nat, defaultLimit: nat)

  const DEFAULTS := Settings(50, 60, 10)

  /** A chunk row joined with the title of its document. */
  datatype Row = Row(chunkId: Id, documentId: Id, title: string, chunkIndex: nat, content: string)

  datatype SearchHit = SearchHit(chunkId: Id, documentId: Id, title: string,
                                 chunkIndex: nat, content: string, score: real)

  /** `items[:limit]`; a negative limit counts from the end. */
  function Slice<T>(items: seq<T>, limit: int): seq<T> {
    if limit >= |items| then items
    else if limit >= 0 then items[..limit]
    else if -limit >= |items| then [] else items[..|items| + limit]
  }

  function Rankings(mode: Mode, vector: seq<Id>, lexical: seq<Id>): seq<seq<Id>> {
    (if mode != LexicalOnly then [vector] else []) + (if mode != VectorOnly then [lexical] else [])
  }

  /** No limit, and a limit of zero, mean the default. */
  function EffectiveLimit(limit: Option<int>, settings: Settings): int {
    if limit.None? || limit.value == 0 then settings.defaultLimit else limit.value
  }

  function Selected(mode: Mode, limit: Option<int>, settings: Settings,
                    vector: seq<Id>, lexical: seq<Id>): seq<Scored> {
    Slice(Fused(Rankings(mode, vector, lexical), settings.rrfK), EffectiveLimit(limit, settings))
  }

  ghost predicate UniqueRows(rows: seq<Row>) {
    forall i, j | 0 <= i < j < |rows| :: rows[i].chunkId != rows[j].chunkId
  }

  ghost predicate RowsFor(rows: seq<Row>, selected: seq<Scored>) {
    && UniqueRows(rows)
    && (forall row | row in rows :: row.chunkId in IdsOf(selected))
  }

  function IndexOf(ids: seq<Id>, id: Id): (i: nat)
    ensures i <= |ids| && (i < |ids| <==> id in ids) && (i < |ids| ==> ids[i] == id)
  {
    if ids == [] then 0 else if ids[0] == id then 0 else 1 + IndexOf(ids[1..], id)
  }

  function HitOf(row: Row, selected: seq<Scored>): SearchHit {
    var i := IndexOf(IdsOf(selected), row.chunkId);
    SearchHit(row.chunkId, row.documentId, row.title, row.chunkIndex, row.content,
              if i < |selected| then selected[i].1 else 0.0)
  }

  /** The hits of `selected`, in its order, for which there is a row. */
  ghost function HitsInOrder(selected: seq<Scored>, all: seq<Scored>, rows: seq<Row>): seq<SearchHit>
    requires UniqueRows(rows)
  {
    if selected == [] then []
    else if row :| row in rows && row.chunkId == selected[0].0 then
      [HitOf(row, all)] + HitsInOrder(selected[1..], all, rows)
    else HitsInOrder(selected[1..], all, rows)
  }

  /** `rows` is what the database answers to the selected ids, in whatever order. */
  method HybridSearch(mode: Mode, limit: Option<int>, settings: Settings,
                      vector: seq<Id>, lexical: seq<Id>, rows: seq<Row>)
    returns (hits: seq<SearchHit>)
    requires RowsFor(rows, Selected(mode, limit, settings, vector, lexical))
    ensures var selected := Selected(mode, limit, settings, vector, lexical);
            hits == HitsInOrder(selected, selected, rows)
  {
    var rankings := [];
    if mode == Hybrid || mode == VectorOnly {
      rankings := rankings + [vector];
    }
    if mode == Hybrid || mode == LexicalOnly {
      rankings := rankings + [lexical];
    }
    assert rankings == Rankings(mode, vector, lexical);
    var all := ReciprocalRankFusion(rankings, settings.rrfK);
    var fused := Slice(all, EffectiveLimit(limit, settings));
    SliceDistinct(rankings, settings.rrfK, EffectiveLimit(limit, settings));
    if fused == [] {
      return [];
    }
    var order := IdsOf(fused);
    var key := (hit: SearchHit) => IndexOf(order, hit.chunkId) as real;
    hits := SortBy(Unsorted(rows, fused), key);
    SortedHits(fused, rows, key);
  }

  lemma SliceDistinct(rankings: seq<seq<Id>>, rrfK: nat, limit: int)
    ensures NoDuplicates(IdsOf(Slice(Fused(rankings, rrfK), limit)))
  {
    FusedIsExact(rankings, rrfK);
    var fused := Fused(rankings, rrfK);
    var s := Slice(fused, limit);
    assert IdsOf(s) == IdsOf(fused)[..|s|];
  }

  ghost predicate IsHit(hit: SearchHit, selected: seq<Scored>, all: seq<Scored>, rows: seq<Row>) {
    exists row :: row in rows && row.chunkId in IdsOf(selected) && hit == HitOf(row, all)
  }

  lemma {:induction false} HitsInOrderMembers(selected: seq<Scored>, all: seq<Scored>, rows: seq<Row>)
    requires UniqueRows(rows)
    ensures forall hit :: hit in HitsInOrder(selected, all, rows) <==> IsHit(hit, selected, all, rows)
  {
    if selected != [] {
      var rest := selected[1..];
      HitsInOrderMembers(rest, all, rows);
      var hits := HitsInOrder(selected, all, rows);
      assert IdsOf(selected) == [selected[0].0] + IdsOf(rest);
      forall hit ensures hit in hits <==> IsHit(hit, selected, all, rows) {
        if row :| row in rows && row.chunkId == selected[0].0 {
          var row' :| row' in rows && row'.chunkId == selected[0].0
                   && hits == [HitOf(row', all)] + HitsInOrder(rest, all, rows);
          assert hit in hits <==> hit == HitOf(row', all) || hit in HitsInOrder(rest, all, rows);
          assert hit == HitOf(row', all) ==> IsHit(hit, selected, all, rows);
        } else {
          assert hits == HitsInOrder(rest, all, rows);
        }
      }
    }
  }

  lemma {:induction false} HitsInOrderAscend(selected: seq<Scored>, all: seq<Scored>, rows: seq<Row>,
                                             offset: nat, key: SearchHit -> real)
    requires forall hit :: key(hit) == IndexOf(IdsOf(all), hit.chunkId) as real
    requires UniqueRows(rows)
    requires NoDuplicates(IdsOf(all)) && offset <= |all| && selected == all[offset..]
    ensures StrictlyAscending(HitsInOrder(selected, all, rows), key)
    ensures forall hit | hit in HitsInOrder(selected, all, rows) :: IndexOf(IdsOf(all), hit.chunkId) >= offset
  {
    if selected != [] {
      var rest := selected[1..];
      assert rest == all[offset + 1..];
      HitsInOrderAscend(rest, all, rows, offset + 1, key);
      assert IdsOf(all)[offset] == selected[0].0;
      assert IndexOf(IdsOf(all), selected[0].0) == offset;
      var hits, tail := HitsInOrder(selected, all, rows), HitsInOrder(rest, all, rows);
      if hits != tail {
        assert hits[0].chunkId == selected[0].0 && hits == [hits[0]] + tail;
        AscendingCons(hits[0], tail, key);
      }
    }
  }

  function Unsorted(rows: seq<Row>, all: seq<Scored>): (hits: seq<SearchHit>)
    ensures |hits| == |rows| && forall i | 0 <= i < |rows| :: hits[i] == HitOf(rows[i], all)
  {
    seq(|rows|, i requires 0 <= i < |rows| => HitOf(rows[i], all))
  }

  lemma UnsortedMembers(rows: seq<Row>, selected: seq<Scored>)
    requires RowsFor(rows, selected)
    ensures NoDuplicates(Unsorted(rows, selected))
    ensures forall hit :: hit in Unsorted(rows, selected) <==> IsHit(hit, selected, selected, rows)
  {
    var hits := Unsorted(rows, selected);
    forall i, j | 0 <= i < j < |hits| ensures hits[i] != hits[j] {
      assert hits[i].chunkId == rows[i].chunkId && hits[j].chunkId == rows[j].chunkId;
    }
    forall hit ensures hit in hits <==> IsHit(hit, selected, selected, rows) {
      if hit in hits {
        var i :| 0 <= i < |hits| && hits[i] == hit;
        assert rows[i] in rows;
      }
      if IsHit(hit, selected, selected, rows) {
        var row :| row in rows && row.chunkId in IdsOf(selected) && hit == HitOf(row, selected);
        var i :| 0 <= i < |rows| && rows[i] == row;
        assert hits[i] == hit;
      }
    }
  }

  lemma HitsDiffer(rows: seq<Row>, selected: seq<Scored>, x: SearchHit, y: SearchHit)
    requires RowsFor(rows, selected)
    requires IsHit(x, selected, selected, rows) && IsHit(y, selected, selected, rows)
    requires IndexOf(IdsOf(selected), x.chunkId) == IndexOf(IdsOf(selected), y.chunkId)
    ensures x == y
  {
    var order := IdsOf(selected);
    var r :| r in rows && r.chunkId in order && x == HitOf(r, selected);
    var q :| q in rows && q.chunkId in order && y == HitOf(q, selected);
    assert order[IndexOf(order, x.chunkId)] == x.chunkId && order[IndexOf(order, y.chunkId)] == y.chunkId;
    SameRow(rows, r, q);
  }

  lemma SortedHits(selected: seq<Scored>, rows: seq<Row>, key: SearchHit -> real)
    requires RowsFor(rows, selected) && NoDuplicates(IdsOf(selected))
    requires forall hit :: key(hit) == IndexOf(IdsOf(selected), hit.chunkId) as real
    ensures SortBy(Unsorted(rows, selected), key) == HitsInOrder(selected, selected, rows)
  {
    var hits := Unsorted(rows, selected);
    UnsortedMembers(rows, selected);
    forall x, y | x in hits && y in hits && key(x) == key(y) ensures x == y {
      HitsDiffer(rows, selected, x, y);
    }
    SortByInjective(hits, key);
    SortBySorts(hits, key);
    PermutationMembers(SortBy(hits, key), hits);
    HitsInOrderMembers(selected, selected, rows);
    HitsInOrderAscend(selected, selected, rows, 0, key);
    AscendingUnique(SortBy(hits, key), HitsInOrder(selected, selected, rows), key);
  }

  /** The order in which the database returns the rows does not matter. */
  lemma {:induction false} RowOrderIrrelevant(selected: seq<Scored>, all: seq<Scored>, rows: seq<Row>, rows': seq<Row>)
    requires UniqueRows(rows)
    requires UniqueRows(rows')
    requires forall row :: row in rows <==> row in rows'
    ensures HitsInOrder(selected, all, rows) == HitsInOrder(selected, all, rows')
  {
    if selected != [] {
      RowOrderIrrelevant(selected[1..], all, rows, rows');
    }
  }

  ghost predicate HasRow(rows: seq<Row>, id: Id) {
    exists row :: row in rows && row.chunkId == id
  }

  ghost predicate AllReturned(rows: seq<Row>, selected: seq<Scored>) {
    forall i | 0 <= i < |selected| :: HasRow(rows, selected[i].0)
  }

  ghost function RowOf(rows: seq<Row>, id: Id): (row: Row)
    requires HasRow(rows, id)
    ensures row in rows && row.chunkId == id
  {
    var row :| row in rows && row.chunkId == id; row
  }

  lemma SameRow(rows: seq<Row>, r: Row, q: Row)
    requires UniqueRows(rows) && r in rows && q in rows && r.chunkId == q.chunkId
    ensures r == q
  {
  }

  /** When every selected row is returned, hit `i` is the row of the `i`-th selected id. */
  lemma {:induction false} CompleteHits(selected: seq<Scored>, all: seq<Scored>, rows: seq<Row>)
    requires UniqueRows(rows) && AllReturned(rows, selected)
    ensures |HitsInOrder(selected, all, rows)| == |selected|
    ensures forall i | 0 <= i < |selected| ::
              HitsInOrder(selected, all, rows)[i] == HitOf(RowOf(rows, selected[i].0), all)
  {
    if selected != [] {
      var rest := selected[1..];
      forall i | 0 <= i < |rest| ensures HasRow(rows, rest[i].0) {
        assert rest[i] == selected[i + 1];
      }
      CompleteHits(rest, all, rows);
      var row :| row in rows && row.chunkId == selected[0].0
                 && HitsInOrder(selected, all, rows) == [HitOf(row, all)] + HitsInOrder(rest, all, rows);
      SameRow(rows, row, RowOf(rows, selected[0].0));
      forall i | 0 <= i < |selected|
        ensures HitsInOrder(selected, all, rows)[i] == HitOf(RowOf(rows, selected[i].0), all)
      {
        assert i > 0 ==> selected[i] == rest[i - 1];
      }
    }
  }

  /** Limits select prefixes of one fused list. */
  lemma LimitsNest(fused: seq<Scored>, few: nat, many: nat)
    requires few <= many
    ensures Slice(fused, few) <= Slice(fused, many)
  {
  }

  /** The rows that the database `table` has for the selected ids, in whatever order. */
  ghost predicate Answers(table: seq<Row>, selected: seq<Scored>, rows: seq<Row>) {
    && UniqueRows(rows)
    && forall row :: row in rows <==> row in table && row.chunkId in IdsOf(selected)
  }

  lemma {:induction false} IndexInPrefix(ids: seq<Id>, n: nat, id: Id)
    requires n <= |ids| && id in ids[..n]
    ensures IndexOf(ids[..n], id) == IndexOf(ids, id)
  {
    if ids[0] != id {
      assert ids[1..][..n - 1] == ids[..n][1..];
      IndexInPrefix(ids[1..], n - 1, id);
    }
  }

  /** A chunk has the same score among fewer and among more. */
  lemma SameHit(few: seq<Scored>, many: seq<Scored>, row: Row)
    requires few <= many && row.chunkId in IdsOf(few)
    ensures HitOf(row, few) == HitOf(row, many)
  {
    assert IdsOf(few) == IdsOf(many)[..|few|];
    IndexInPrefix(IdsOf(many), |few|, row.chunkId);
  }

  lemma {:induction false} SameHits(part: seq<Scored>, few: seq<Scored>, many: seq<Scored>,
                                   fewRows: seq<Row>, manyRows: seq<Row>)
    requires few <= many && UniqueRows(fewRows) && UniqueRows(manyRows)
    requires forall i | 0 <= i < |part| :: part[i].0 in IdsOf(few)
    requires forall row: Row | row.chunkId in IdsOf(few) :: row in fewRows <==> row in manyRows
    ensures HitsInOrder(part, few, fewRows) == HitsInOrder(part, many, manyRows)
  {
    if part != [] {
      SameHits(part[1..], few, many, fewRows, manyRows);
      if row :| row in fewRows && row.chunkId == part[0].0 {
        SameHit(few, many, row);
        assert row in manyRows;
      }
    }
  }

  lemma {:induction false} HitsAppend(a: seq<Scored>, b: seq<Scored>, all: seq<Scored>, rows: seq<Row>)
    requires UniqueRows(rows)
    ensures HitsInOrder(a + b, all, rows) == HitsInOrder(a, all, rows) + HitsInOrder(b, all, rows)
  {
    if a == [] {
      assert a + b == b;
    } else {
      HitsAppend(a[1..], b, all, rows);
      assert (a + b)[1..] == a[1..] + b && (a + b)[0] == a[0];
    }
  }

  /**
   Two searches of one database that differ in the limit alone: the hits at the smaller limit
   are a prefix of those at the larger one, also when rows of selected ids are gone.
   */
  lemma SmallerLimitIsPrefix(mode: Mode, small: Option<int>, large: Option<int>, settings: Settings,
                             vector: seq<Id>, lexical: seq<Id>, table: seq<Row>, fewRows: seq<Row>, manyRows: seq<Row>)
    requires 0 <= EffectiveLimit(small, settings) <= EffectiveLimit(large, settings)
    requires Answers(table, Selected(mode, small, settings, vector, lexical), fewRows)
    requires Answers(table, Selected(mode, large, settings, vector, lexical), manyRows)
    ensures var few := Selected(mode, small, settings, vector, lexical);
            var many := Selected(mode, large, settings, vector, lexical);
            HitsInOrder(few, few, fewRows) <= HitsInOrder(many, many, manyRows)
  {
    var few := Selected(mode, small, settings, vector, lexical);
    var many := Selected(mode, large, settings, vector, lexical);
    LimitsNest(Fused(Rankings(mode, vector, lexical), settings.rrfK),
               EffectiveLimit(small, settings), EffectiveLimit(large, settings));
    assert many == few + many[|few|..] && IdsOf(few) == IdsOf(many)[..|few|];
    HitsAppend(few, many[|few|..], many, manyRows);
    SameHits(few, few, many, fewRows, manyRows);
  }

  /** With the default settings hybrid search always ranks by consensus. */
  lemma DefaultsAgree(vector: seq<Id>, lexical: seq<Id>)
    requires NoDuplicates(vector) && |vector| <= 50
    requires NoDuplicates(lexical) && |lexical| <= 50
    ensures DEFAULTS.candidateK == 50 && DEFAULTS.rrfK == 60 && DEFAULTS.defaultLimit == 10
    ensures Consensus(vector, lexical, DEFAULTS.rrfK)
  {
    ShortRankingsAgree(vector, lexical, DEFAULTS.rrfK);
  }
}
