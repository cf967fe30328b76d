/**
 What a search returns, in terms of the rankings and rows it is given: which chunks, in
 which order, with which scores and fields.
 */
module Hits {
  import opened Wrappers
  import opened Sorting
  import opened Retrieval

  // ---- Scores ----

  /** The first id of a ranking scores 1 / (rrfK + 1), the next one 1 / (rrfK + 2), and so on; others nothing. */
  lemma {:induction false} ScoreOfRank(ranking: seq<Id>, id: Id, rrfK: nat)
    requires NoDuplicates(ranking)
    ensures id in ranking ==> ScoreIn(ranking, id, rrfK) == 1.0 / (rrfK + 1 + IndexOf(ranking, id)) as real
    ensures id !in ranking ==> ScoreIn(ranking, id, rrfK) == 0.0
  {
    if id in ranking {
      ScoreAt(ranking, id, rrfK, IndexOf(ranking, id));
    } else {
      NoScoreIn(ranking, id, rrfK);
    }
  }

  /** The score of an id is the sum of what it scores in the rankings, in whatever order those come. */
  lemma {:induction false} ScoresAdd(a: seq<seq<Id>>, b: seq<seq<Id>>, id: Id, rrfK: nat)
    ensures Score(a + b, id, rrfK) == Score(a, id, rrfK) + Score(b, id, rrfK)
    ensures |a| == 1 ==> Score(a, id, rrfK) == ScoreIn(a[0], id, rrfK)
  {
    if b == [] {
      assert a + b == a;
    } else {
      var ab, rest := a + b, b[..|b| - 1];
      ScoresAdd(a, rest, id, rrfK);
      assert ab[..|ab| - 1] == a + rest && ab[|ab| - 1] == b[|b| - 1];
    }
    if |a| == 1 {
      assert a[..0] == [];
    }
  }

  // ---- Order ----

  lemma {:induction false} IndexOfAppend(ids: seq<Id>, x: Id, id: Id)
    ensures IndexOf(ids + [x], id) == if id in ids then IndexOf(ids, id) else if id == x then |ids| else |ids| + 1
  {
    if ids != [] {
      assert (ids + [x])[1..] == ids[1..] + [x];
      if ids[0] != id {
        IndexOfAppend(ids[1..], x, id);
      }
    } else {
      assert [] + [x] == [x] && [x][1..] == [];
    }
  }

  /** `FirstSeen` orders ids by where they first appear. */
  lemma {:induction false} FirstSeenOrder(ids: seq<Id>, i: nat, j: nat)
    requires i < j < |FirstSeen(ids)|
    ensures FirstSeen(ids)[i] in ids && FirstSeen(ids)[j] in ids
    ensures IndexOf(ids, FirstSeen(ids)[i]) < IndexOf(ids, FirstSeen(ids)[j])
  {
    var before, x := ids[..|ids| - 1], ids[|ids| - 1];
    var seen := FirstSeen(before);
    FirstSeenSet(before);
    assert ids == before + [x];
    IndexOfAppend(before, x, FirstSeen(ids)[i]);
    IndexOfAppend(before, x, FirstSeen(ids)[j]);
    assert seen[i] in seen && (j < |seen| ==> seen[j] in seen);
    if j < |seen| {
      FirstSeenOrder(before, i, j);
    }
  }

  lemma EarlierSeen(ids: seq<Id>, a: Id, b: Id)
    requires Precedes(FirstSeen(ids), a, b)
    ensures IndexOf(ids, a) < IndexOf(ids, b)
  {
    var i, j :| 0 <= i < j < |FirstSeen(ids)| && FirstSeen(ids)[i] == a && FirstSeen(ids)[j] == b;
    FirstSeenOrder(ids, i, j);
  }

  /** Descending scores, and among equal ones the order in which the ids first appear in the rankings. */
  lemma FusedOrder(rankings: seq<seq<Id>>, rrfK: nat, i: nat, j: nat)
    requires i < j < |Fused(rankings, rrfK)|
    ensures var a, b := Fused(rankings, rrfK)[i], Fused(rankings, rrfK)[j];
            a.1 > b.1 || (a.1 == b.1 && IndexOf(Flatten(rankings), a.0) < IndexOf(Flatten(rankings), b.0))
  {
    FusedIsExact(rankings, rrfK);
    var a, b := Fused(rankings, rrfK)[i], Fused(rankings, rrfK)[j];
    if a.1 == b.1 {
      EarlierSeen(Flatten(rankings), a.0, b.0);
    }
  }

  lemma FlattenOne(ranking: seq<Id>)
    ensures Flatten([ranking]) == ranking
  {
    assert [ranking][..0] == [] && Flatten([]) + ranking == ranking;
  }

  lemma LaterScoresLess(ranking: seq<Id>, rrfK: nat, a: Id, b: Id)
    requires NoDuplicates(ranking) && a in ranking && b in ranking
    requires IndexOf(ranking, a) < IndexOf(ranking, b)
    ensures Score([ranking], a, rrfK) > Score([ranking], b, rrfK)
  {
    ScoresAdd([ranking], [], a, rrfK);
    ScoresAdd([ranking], [], b, rrfK);
    ScoreAt(ranking, a, rrfK, IndexOf(ranking, a));
    ScoreAt(ranking, b, rrfK, IndexOf(ranking, b));
    WeightDecreases(rrfK, IndexOf(ranking, a), IndexOf(ranking, b));
  }

  lemma FusedEntry(ranking: seq<Id>, rrfK: nat, i: nat)
    requires i < |Fused([ranking], rrfK)|
    ensures var entry := Fused([ranking], rrfK)[i]; entry.0 in ranking && entry.1 == Score([ranking], entry.0, rrfK)
  {
    FusedIsExact([ranking], rrfK);
    FlattenOne(ranking);
    assert IdsOf(Fused([ranking], rrfK))[i] in IdsOf(Fused([ranking], rrfK));
  }

  lemma OneRankingAscends(ranking: seq<Id>, rrfK: nat, i: nat, j: nat)
    requires NoDuplicates(ranking) && i < j < |Fused([ranking], rrfK)|
    ensures var fused := Fused([ranking], rrfK); IndexOf(ranking, fused[i].0) < IndexOf(ranking, fused[j].0)
  {
    var a, b := Fused([ranking], rrfK)[i], Fused([ranking], rrfK)[j];
    FusedOrder([ranking], rrfK, i, j);
    FusedEntry(ranking, rrfK, i);
    FusedEntry(ranking, rrfK, j);
    FlattenOne(ranking);
    assert IndexOf(Flatten([ranking]), a.0) == IndexOf(ranking, a.0);
    assert IndexOf(Flatten([ranking]), b.0) == IndexOf(ranking, b.0);
    HigherIsEarlier(ranking, rrfK, a.0, b.0);
  }

  lemma HigherIsEarlier(ranking: seq<Id>, rrfK: nat, a: Id, b: Id)
    requires NoDuplicates(ranking) && a in ranking && b in ranking
    ensures Score([ranking], a, rrfK) > Score([ranking], b, rrfK) ==> IndexOf(ranking, a) < IndexOf(ranking, b)
  {
    if IndexOf(ranking, b) < IndexOf(ranking, a) {
      LaterScoresLess(ranking, rrfK, b, a);
    } else if IndexOf(ranking, a) == IndexOf(ranking, b) {
      assert a == ranking[IndexOf(ranking, a)] == b;
    }
  }

  /** Fusing a single ranking does not change it. */
  lemma OneRankingStays(ranking: seq<Id>, rrfK: nat)
    requires NoDuplicates(ranking)
    ensures IdsOf(Fused([ranking], rrfK)) == ranking
  {
    var ids := IdsOf(Fused([ranking], rrfK));
    var key := (id: Id) => IndexOf(ranking, id) as real;
    FusedIsExact([ranking], rrfK);
    FlattenOne(ranking);
    forall i, j | 0 <= i < j < |ids| ensures key(ids[i]) < key(ids[j]) {
      OneRankingAscends(ranking, rrfK, i, j);
    }
    InOwnOrder(ranking, key);
    AscendingUnique(ids, ranking, key);
  }

  lemma InOwnOrder(ranking: seq<Id>, key: Id -> real)
    requires NoDuplicates(ranking) && forall id :: key(id) == IndexOf(ranking, id) as real
    ensures StrictlyAscending(ranking, key)
  {
    forall i, j | 0 <= i < j < |ranking| ensures key(ranking[i]) < key(ranking[j]) {
      assert ranking[IndexOf(ranking, ranking[i])] == ranking[i];
      assert ranking[IndexOf(ranking, ranking[j])] == ranking[j];
    }
  }

  // ---- Modes and limits ----

  /** Without a limit, or with zero, the default one; a negative limit drops that many from the end. */
  lemma LimitExact(mode: Mode, limit: Option<int>, settings: Settings, vector: seq<Id>, lexical: seq<Id>)
    requires settings.defaultLimit > 0
    ensures var fused := Fused(Rankings(mode, vector, lexical), settings.rrfK);
            var selected := Selected(mode, limit, settings, vector, lexical);
            && selected <= fused
            && match limit
               case None => |selected| == MinOf(settings.defaultLimit, |fused|)
               case Some(n) =>
                 if n == 0 then |selected| == MinOf(settings.defaultLimit, |fused|)
                 else if n > 0 then |selected| == MinOf(n, |fused|)
                 else |selected| == |fused| - MinOf(-n, |fused|)
  {
  }

  function MinOf(a: int, b: int): (m: int)
    ensures m <= a && m <= b && (m == a || m == b)
  {
    if a <= b then a else b
  }

  /** The vector mode returns the beginning of the vector ranking. */
  lemma VectorModeSelects(limit: int, settings: Settings, vector: seq<Id>, lexical: seq<Id>)
    requires NoDuplicates(vector) && limit > 0
    ensures var ids := IdsOf(Selected(VectorOnly, Some(limit), settings, vector, lexical));
            ids <= vector && |ids| == MinOf(limit, |vector|)
  {
    assert Rankings(VectorOnly, vector, lexical) == [vector];
    OneRankingStays(vector, settings.rrfK);
  }

  /** The lexical mode returns the beginning of the lexical ranking. */
  lemma LexicalModeSelects(limit: int, settings: Settings, vector: seq<Id>, lexical: seq<Id>)
    requires NoDuplicates(lexical) && limit > 0
    ensures var ids := IdsOf(Selected(LexicalOnly, Some(limit), settings, vector, lexical));
            ids <= lexical && |ids| == MinOf(limit, |lexical|)
  {
    assert Rankings(LexicalOnly, vector, lexical) == [lexical];
    OneRankingStays(lexical, settings.rrfK);
  }

  /**
   The hybrid mode selects from the ids of both rankings by the sum of their two scores, and
   of equal ones the one that comes first in the vector ranking or, failing that, in the lexical one.
   */
  lemma HybridModeSelects(limit: int, settings: Settings, vector: seq<Id>, lexical: seq<Id>)
    requires limit > 0
    ensures var selected := Selected(Hybrid, Some(limit), settings, vector, lexical);
            && (forall i | 0 <= i < |selected| ::
                  && (selected[i].0 in vector || selected[i].0 in lexical)
                  && selected[i].1 == ScoreIn(vector, selected[i].0, settings.rrfK)
                                      + ScoreIn(lexical, selected[i].0, settings.rrfK))
            && (forall i, j | 0 <= i < j < |selected| ::
                  selected[i].1 > selected[j].1
                  || (selected[i].1 == selected[j].1
                      && IndexOf(vector + lexical, selected[i].0) < IndexOf(vector + lexical, selected[j].0)))
            && (|selected| < limit ==> forall id | id in vector || id in lexical :: id in IdsOf(selected))
  {
    var rankings := [vector, lexical];
    assert Rankings(Hybrid, vector, lexical) == rankings;
    var fused, selected := Fused(rankings, settings.rrfK), Selected(Hybrid, Some(limit), settings, vector, lexical);
    FusedIsExact(rankings, settings.rrfK);
    assert rankings[..1] == [vector] && [vector][..0] == [] && Flatten([vector]) == [] + vector == vector;
    assert Flatten(rankings) == vector + lexical;
    forall i | 0 <= i < |selected|
      ensures selected[i].0 in vector || selected[i].0 in lexical
      ensures selected[i].1 == ScoreIn(vector, selected[i].0, settings.rrfK)
                               + ScoreIn(lexical, selected[i].0, settings.rrfK)
    {
      assert selected[i] == fused[i] && IdsOf(fused)[i] in IdsOf(fused);
      TwoRankings(vector, lexical, fused[i].0, settings.rrfK);
    }
    forall i, j | 0 <= i < j < |selected|
      ensures selected[i].1 > selected[j].1
           || (selected[i].1 == selected[j].1
               && IndexOf(vector + lexical, selected[i].0) < IndexOf(vector + lexical, selected[j].0))
    {
      FusedOrder(rankings, settings.rrfK, i, j);
    }
    if |selected| < limit {
      assert selected == fused;
      forall id | id in vector || id in lexical ensures id in IdsOf(selected) {
        assert id in Flatten(rankings);
      }
    }
  }

  // ---- Hits ----

  /** The hit shows the row of the database and the score of its chunk. */
  ghost predicate ShowsRow(hit: SearchHit, row: Row, selected: seq<Scored>) {
    && hit.chunkId == row.chunkId && hit.documentId == row.documentId && hit.title == row.title
    && hit.chunkIndex == row.chunkIndex && hit.content == row.content
    && (hit.chunkId, hit.score) in selected
  }

  /** Every hit shows a row, and every row of a selected chunk is shown. */
  lemma HitsShowRows(selected: seq<Scored>, rows: seq<Row>)
    requires RowsFor(rows, selected) && NoDuplicates(IdsOf(selected))
    ensures var hits := HitsInOrder(selected, selected, rows);
            && (forall hit | hit in hits :: exists row :: row in rows && ShowsRow(hit, row, selected))
            && (forall row | row in rows :: exists hit :: hit in hits && ShowsRow(hit, row, selected))
  {
    var hits := HitsInOrder(selected, selected, rows);
    HitsInOrderMembers(selected, selected, rows);
    forall hit | hit in hits ensures exists row :: row in rows && ShowsRow(hit, row, selected) {
      var row :| row in rows && row.chunkId in IdsOf(selected) && hit == HitOf(row, selected);
      HitShowsRow(row, selected);
    }
    forall row | row in rows ensures exists hit :: hit in hits && ShowsRow(hit, row, selected) {
      HitShowsRow(row, selected);
      assert IsHit(HitOf(row, selected), selected, selected, rows);
    }
  }

  lemma HitShowsRow(row: Row, selected: seq<Scored>)
    requires row.chunkId in IdsOf(selected)
    ensures ShowsRow(HitOf(row, selected), row, selected)
  {
    var i := IndexOf(IdsOf(selected), row.chunkId);
    assert selected[i] in selected;
  }

  /**
   A search whose rows all come back: hit `i` is the `i`-th selected chunk with its score and the
   fields of its row.
   */
  lemma CompleteSearch(mode: Mode, limit: Option<int>, settings: Settings,
                       vector: seq<Id>, lexical: seq<Id>, rows: seq<Row>)
    requires var selected := Selected(mode, limit, settings, vector, lexical);
             RowsFor(rows, selected) && AllReturned(rows, selected)
    ensures var selected := Selected(mode, limit, settings, vector, lexical);
            var hits := HitsInOrder(selected, selected, rows);
            && |hits| == |selected|
            && forall i | 0 <= i < |hits| ::
                 && hits[i].chunkId == selected[i].0 && hits[i].score == selected[i].1
                 && exists row :: row in rows && ShowsRow(hits[i], row, selected)
  {
    var selected := Selected(mode, limit, settings, vector, lexical);
    var hits := HitsInOrder(selected, selected, rows);
    SliceDistinct(Rankings(mode, vector, lexical), settings.rrfK, EffectiveLimit(limit, settings));
    CompleteHits(selected, selected, rows);
    forall i | 0 <= i < |hits|
      ensures hits[i].chunkId == selected[i].0 && hits[i].score == selected[i].1
      ensures exists row :: row in rows && ShowsRow(hits[i], row, selected)
    {
      var row := RowOf(rows, selected[i].0);
      assert IdsOf(selected)[i] == row.chunkId;
      HitShowsRow(row, selected);
      assert IndexOf(IdsOf(selected), row.chunkId) == i;
    }
  }
}
