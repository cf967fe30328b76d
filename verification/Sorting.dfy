/** Python's `sorted(items, key=...)`: ascending and stable. */
module Sorting {

  function Insert<T>(sorted: seq<T>, x: T, key: T -> real): seq<T> {
    if sorted == [] then [x]
    else if key(sorted[0]) <= key(x) then [sorted[0]] + Insert(sorted[1..], x, key)
    else [x] + sorted
  }

  function SortBy<T>(items: seq<T>, key: T -> real): seq<T> {
    if items == [] then [] else Insert(SortBy(items[..|items| - 1], key), items[|items| - 1], key)
  }

  ghost predicate NoDuplicates<T(!new)>(s: seq<T>) {
    forall i, j | 0 <= i < j < |s| :: s[i] != s[j]
  }

  ghost predicate Precedes<T(!new)>(s: seq<T>, a: T, b: T) {
    exists i, j :: 0 <= i < j < |s| && s[i] == a && s[j] == b
  }

  /** One is the other in some order. */
  ghost predicate Permutation<T(!new)>(s: seq<T>, t: seq<T>) {
    multiset(s) == multiset(t)
  }

  lemma PermutationMembers<T(!new)>(s: seq<T>, t: seq<T>)
    requires Permutation(s, t)
    ensures |s| == |t| && forall x :: x in s <==> x in t
  {
    assert |multiset(s)| == |multiset(t)|;
    assert forall x :: x in s <==> x in multiset(s);
    assert forall x :: x in t <==> x in multiset(t);
  }

  /** In ascending order of keys, and equal keys as they stood in `items`. */
  ghost predicate StablySorted<T(!new)>(r: seq<T>, items: seq<T>, key: T -> real) {
    forall i, j | 0 <= i < j < |r| :: Ordered(r[i], r[j], items, key)
  }

  ghost predicate Ordered<T(!new)>(a: T, b: T, items: seq<T>, key: T -> real) {
    key(a) < key(b) || (key(a) == key(b) && Precedes(items, a, b))
  }

  lemma {:induction false} InsertElements<T(!new)>(sorted: seq<T>, x: T, key: T -> real)
    ensures Permutation(Insert(sorted, x, key), sorted + [x])
  {
    if sorted != [] && key(sorted[0]) <= key(x) {
      InsertElements(sorted[1..], x, key);
      assert sorted == [sorted[0]] + sorted[1..];
    }
  }

  lemma PrecedesSnoc<T(!new)>(items: seq<T>, x: T, a: T, b: T)
    requires Precedes(items, a, b) || (a in items && b == x)
    ensures Precedes(items + [x], a, b)
  {
    if Precedes(items, a, b) {
      var i, j :| 0 <= i < j < |items| && items[i] == a && items[j] == b;
      assert (items + [x])[i] == a && (items + [x])[j] == b;
    } else {
      var i :| 0 <= i < |items| && items[i] == a;
      assert (items + [x])[i] == a && (items + [x])[|items|] == b;
    }
  }

  lemma {:induction false} InsertSorts<T(!new)>(sorted: seq<T>, x: T, items: seq<T>, key: T -> real)
    requires StablySorted(sorted, items, key)
    requires forall y | y in sorted :: y in items
    ensures StablySorted(Insert(sorted, x, key), items + [x], key)
  {
    var r := Insert(sorted, x, key);
    if sorted == [] {
    } else if key(sorted[0]) <= key(x) {
      var rest := sorted[1..];
      assert forall i | 0 <= i < |rest| :: rest[i] == sorted[i + 1];
      InsertSorts(rest, x, items, key);
      InsertElements(rest, x, key);
      PermutationMembers(Insert(rest, x, key), rest + [x]);
      forall i, j | 0 <= i < j < |r| ensures Ordered(r[i], r[j], items + [x], key) {
        if i == 0 {
          assert r[j] in Insert(rest, x, key);
          OrderedAfterInsert(sorted, x, items, key, r[j]);
        } else {
          assert r[i] == Insert(rest, x, key)[i - 1] && r[j] == Insert(rest, x, key)[j - 1];
        }
      }
    } else {
      forall i, j | 0 <= i < j < |r| ensures Ordered(r[i], r[j], items + [x], key) {
        if i == 0 {
          assert j == 1 || Ordered(sorted[0], sorted[j - 1], items, key);
        } else {
          assert Ordered(sorted[i - 1], sorted[j - 1], items, key);
          if key(r[i]) == key(r[j]) {
            PrecedesSnoc(items, x, r[i], r[j]);
          }
        }
      }
    }
  }

  lemma OrderedAfterInsert<T(!new)>(sorted: seq<T>, x: T, items: seq<T>, key: T -> real, y: T)
    requires sorted != [] && StablySorted(sorted, items, key) && sorted[0] in items
    requires key(sorted[0]) <= key(x) && (y == x || y in sorted[1..])
    ensures Ordered(sorted[0], y, items + [x], key)
  {
    if y in sorted[1..] {
      var j :| 1 <= j < |sorted| && sorted[j] == y;
      assert Ordered(sorted[0], sorted[j], items, key);
    }
    if key(sorted[0]) == key(y) {
      PrecedesSnoc(items, x, sorted[0], y);
    }
  }

  /** Sorting keeps every element as often as it occurs and puts them in stable ascending order. */
  lemma {:induction false} SortBySorts<T(!new)>(items: seq<T>, key: T -> real)
    ensures Permutation(SortBy(items, key), items)
    ensures StablySorted(SortBy(items, key), items, key)
  {
    if items != [] {
      var before, x := items[..|items| - 1], items[|items| - 1];
      SortBySorts(before, key);
      assert items == before + [x];
      InsertElements(SortBy(before, key), x, key);
      PermutationMembers(SortBy(before, key), before);
      InsertSorts(SortBy(before, key), x, before, key);
    }
  }

  ghost predicate StrictlyAscending<T(!new)>(s: seq<T>, key: T -> real) {
    forall i, j | 0 <= i < j < |s| :: key(s[i]) < key(s[j])
  }

  lemma AscendingCons<T(!new)>(x: T, s: seq<T>, key: T -> real)
    requires StrictlyAscending(s, key) && forall y | y in s :: key(x) < key(y)
    ensures StrictlyAscending([x] + s, key)
  {
  }

  /** Only one sequence lists given elements with strictly ascending keys. */
  lemma {:induction false} AscendingUnique<T(!new)>(s: seq<T>, t: seq<T>, key: T -> real)
    requires StrictlyAscending(s, key) && StrictlyAscending(t, key)
    requires forall x :: x in s <==> x in t
    ensures s == t
  {
    assert t != [] ==> t[0] in t;
    if s != [] {
      assert s[0] in t && (t == [] || t[0] in s);
      assert s[0] == t[0];
      var s', t' := s[1..], t[1..];
      forall x ensures x in s' <==> x in t' {
        assert x in s' ==> x in s && x != s[0];
        assert x in t' ==> x in t && x != t[0];
        assert x in s && x != s[0] ==> x in s';
        assert x in t && x != t[0] ==> x in t';
      }
      AscendingUnique(s', t', key);
      assert s == [s[0]] + s' && t == [t[0]] + t';
    }
  }

  /** Sorting by a key that no two elements share gives the ascending sequence. */
  lemma SortByInjective<T(!new)>(items: seq<T>, key: T -> real)
    requires NoDuplicates(items) && forall x, y | x in items && y in items :: key(x) == key(y) ==> x == y
    ensures StrictlyAscending(SortBy(items, key), key)
  {
    var r := SortBy(items, key);
    SortBySorts(items, key);
    PermutationMembers(r, items);
    forall i, j | 0 <= i < j < |r| ensures key(r[i]) < key(r[j]) {
      assert Ordered(r[i], r[j], items, key);
      assert r[i] in r && r[j] in r;
      assert !Precedes(items, r[i], r[i]);
    }
  }
}
