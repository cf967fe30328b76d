/**
 The offline embedding provider: signed feature hashing of a bag of words into a
 unit vector, in exact arithmetic. Hashing, lower-casing and the square root are
 given; the square root is known only by its defining property.
 */
module Embeddings {
  import Text

  datatype Provider = Provider(dim: nat, lower: string -> string,
                               word: string -> nat, odd: string -> bool, sqrt: real -> real)

  ghost predicate Valid(p: Provider) {
    && p.dim >= 1
    && forall x: real | x >= 0.0 :: p.sqrt(x) >= 0.0 && p.sqrt(x) * p.sqrt(x) == x
  }

  // ---- Tokens ----

  predicate IsTokenChar(c: char) {
    'a' <= c <= 'z' || '0' <= c <= '9'
  }

  lemma TokenChars(c: char)
    ensures IsTokenChar(c) <==> c in "abcdefghijklmnopqrstuvwxyz" || c in "0123456789"
  {
  }

  function TokenLength(s: string): (n: nat)
    ensures n <= |s|
  {
    if s == "" || !IsTokenChar(s[0]) then 0 else 1 + TokenLength(s[1..])
  }

  /** The maximal runs of `[a-z0-9]`, in order. */
  function Tokens(s: string): seq<string>
    decreases |s|
  {
    if s == "" then []
    else if !IsTokenChar(s[0]) then Tokens(s[1..])
    else [s[..TokenLength(s)]] + Tokens(s[TokenLength(s)..])
  }

  lemma {:induction false} TokenLengthExact(s: string)
    ensures Text.AllIn(s[..TokenLength(s)], IsTokenChar)
    ensures TokenLength(s) < |s| ==> !IsTokenChar(s[TokenLength(s)])
  {
    if s != "" && IsTokenChar(s[0]) {
      TokenLengthExact(s[1..]);
      var n := TokenLength(s[1..]);
      var run := s[..n + 1];
      forall k | 0 <= k < |run| ensures IsTokenChar(run[k]) {
        assert k > 0 ==> run[k] == s[1..][..n][k - 1];
      }
    }
  }

  /** The tokens of every text are its maximal runs of lower-case letters and digits. */
  lemma {:induction false} TokensAreRuns(s: string) returns (gaps: seq<string>)
    ensures Text.AreRuns(s, Tokens(s), gaps, IsTokenChar)
    decreases |s|
  {
    if s == "" {
      gaps := [""];
    } else if !IsTokenChar(s[0]) {
      var rest := TokensAreRuns(s[1..]);
      assert [s[0]] + s[1..] == s;
      gaps := Text.GapFirst(s[0], s[1..], Tokens(s[1..]), rest, IsTokenChar);
    } else {
      var n := TokenLength(s);
      TokenLengthExact(s);
      var rest := TokensAreRuns(s[n..]);
      assert s[..n] + s[n..] == s;
      gaps := Text.WordFirst(s[..n], s[n..], Tokens(s[n..]), rest, IsTokenChar);
    }
  }

  /** ... and no other list of tokens is. */
  lemma TokensExact(s: string, tokens: seq<string>, gaps: seq<string>)
    requires Text.AreRuns(s, tokens, gaps, IsTokenChar)
    ensures tokens == Tokens(s)
  {
    var gaps' := TokensAreRuns(s);
    Text.RunsUnique(s, tokens, gaps, Tokens(s), gaps', IsTokenChar);
  }

  // ---- Vectors ----

  function Zeros(dim: nat): (v: seq<real>)
    ensures |v| == dim && forall i | 0 <= i < dim :: v[i] == 0.0
  {
    seq(dim, _ => 0.0)
  }

  function Times(x: real, y: real): real {
    x * y
  }

  function Dot(u: seq<real>, v: seq<real>): real
    requires |u| == |v|
  {
    if u == [] then 0.0 else Times(u[0], v[0]) + Dot(u[1..], v[1..])
  }

  function Scaled(v: seq<real>, norm: real): (r: seq<real>)
    requires norm != 0.0
    ensures |r| == |v| && forall i | 0 <= i < |v| :: r[i] == v[i] / norm
  {
    seq(|v|, i requires 0 <= i < |v| => v[i] / norm)
  }

  function Bucket(p: Provider, token: string): (b: nat)
    requires p.dim >= 1
    ensures b < p.dim
  {
    p.word(token) % p.dim
  }

  function Sign(p: Provider, token: string): real {
    if p.odd(token) then 1.0 else -1.0
  }

  /** The vector before normalisation: each token adds its sign to its bucket. */
  function Raw(p: Provider, tokens: seq<string>): (v: seq<real>)
    requires p.dim >= 1
    ensures |v| == p.dim
  {
    if tokens == [] then Zeros(p.dim)
    else
      var before, t := Raw(p, tokens[..|tokens| - 1]), tokens[|tokens| - 1];
      before[Bucket(p, t) := before[Bucket(p, t)] + Sign(p, t)]
  }

  ghost function Embedded(p: Provider, text: string): (v: seq<real>)
    requires Valid(p)
    ensures |v| == p.dim
  {
    var raw := Raw(p, Tokens(p.lower(text)));
    DotSelf(raw);
    var norm := p.sqrt(Dot(raw, raw));
    if norm == 0.0 then raw[Bucket(p, text) := 1.0] else Scaled(raw, norm)
  }

  // ---- The program ----

  method HashTokens(p: Provider, tokens: seq<string>) returns (values: array<real>)
    requires p.dim >= 1
    ensures fresh(values) && values[..] == Raw(p, tokens)
  {
    values := new real[p.dim](_ => 0.0);
    assert values[..] == Zeros(p.dim);
    for i := 0 to |tokens|
      invariant values[..] == Raw(p, tokens[..i])
    {
      assert tokens[..i + 1][..i] == tokens[..i];
      var bucket := p.word(tokens[i]) % p.dim;
      values[bucket] := values[bucket] + if p.odd(tokens[i]) then 1.0 else -1.0;
    }
    assert tokens[..|tokens|] == tokens;
  }

  method SumOfSquares(values: array<real>) returns (squares: real)
    ensures squares == Dot(values[..], values[..])
  {
    squares := 0.0;
    ghost var v := values[..];
    for i := 0 to values.Length
      invariant squares == Dot(v[..i], v[..i])
    {
      DotSnoc(v, v, i);
      squares := squares + Times(values[i], values[i]);
    }
    assert v[..|v|] == v;
  }

  method Vector(p: Provider, text: string) returns (values: array<real>)
    requires Valid(p)
    ensures fresh(values) && values[..] == Embedded(p, text)
  {
    values := HashTokens(p, Tokens(p.lower(text)));
    ghost var raw := values[..];
    DotSelf(raw);
    var squares := SumOfSquares(values);
    var norm := p.sqrt(squares);
    if norm == 0.0 {
      values[p.word(text) % p.dim] := 1.0;
      assert values[..] == raw[Bucket(p, text) := 1.0];
      return;
    }
    var unit := new real[p.dim](i requires 0 <= i < values.Length reads values => values[i] / norm);
    assert unit[..] == Scaled(raw, norm);
    return unit;
  }

  method Embed(p: Provider, texts: seq<string>) returns (vectors: seq<seq<real>>)
    requires Valid(p)
    ensures |vectors| == |texts|
    ensures forall i | 0 <= i < |texts| :: vectors[i] == Embedded(p, texts[i])
  {
    vectors := [];
    for i := 0 to |texts|
      invariant |vectors| == i
      invariant forall k | 0 <= k < i :: vectors[k] == Embedded(p, texts[k])
    {
      var v := Vector(p, texts[i]);
      vectors := vectors + [v[..]];
    }
  }

  lemma {:induction false} DotSnoc(u: seq<real>, v: seq<real>, i: nat)
    requires |u| == |v| && i < |u|
    ensures Dot(u[..i + 1], v[..i + 1]) == Dot(u[..i], v[..i]) + Times(u[i], v[i])
  {
    if i == 0 {
      assert u[..1][1..] == [] && v[..1][1..] == [];
    } else {
      DotSnoc(u[1..], v[1..], i - 1);
      assert u[..i + 1][1..] == u[1..][..i] && v[..i + 1][1..] == v[1..][..i];
      assert u[..i][1..] == u[1..][..i - 1] && v[..i][1..] == v[1..][..i - 1];
    }
  }

  // ---- Norms ----

  lemma {:induction false} DotSelf(v: seq<real>)
    ensures Dot(v, v) >= 0.0
  {
    if v != [] {
      DotSelf(v[1..]);
      Square(v[0]);
    }
  }

  lemma {:induction false} DotSelfPositive(v: seq<real>, i: nat)
    requires i < |v| && v[i] != 0.0
    ensures Dot(v, v) > 0.0
  {
    Square(v[0]);
    if i == 0 {
      DotSelf(v[1..]);
    } else {
      DotSelfPositive(v[1..], i - 1);
    }
  }

  lemma PositiveProduct(x: real, y: real)
    requires x > 0.0 && y > 0.0
    ensures Times(x, y) > 0.0
  {
  }

  lemma Square(x: real)
    ensures Times(x, x) >= 0.0 && (x != 0.0 ==> Times(x, x) > 0.0)
  {
    if x > 0.0 {
      PositiveProduct(x, x);
    } else if x < 0.0 {
      PositiveProduct(-x, -x);
      assert Times(x, x) == Times(-x, -x);
    }
  }

  lemma Cancel(x: real, s: real)
    requires s > 0.0 && Times(x, s) == s
    ensures x == 1.0
  {
    Distributes(x, -1.0, s);
    Distributes(1.0, -x, s);
    if x > 1.0 {
      PositiveProduct(x - 1.0, s);
    } else if x < 1.0 {
      PositiveProduct(1.0 - x, s);
    }
  }

  lemma {:induction false} DotScaled(u: seq<real>, n: real, v: seq<real>, m: real)
    requires |u| == |v| && n != 0.0 && m != 0.0
    ensures Times(Dot(Scaled(u, n), Scaled(v, m)), Times(n, m)) == Dot(u, v)
  {
    if u != [] {
      DotScaled(u[1..], n, v[1..], m);
      var su, sv := Scaled(u, n), Scaled(v, m);
      assert su[1..] == Scaled(u[1..], n) && sv[1..] == Scaled(v[1..], m);
      Quotients(u[0], n, v[0], m);
      Distributes(Times(su[0], sv[0]), Dot(su[1..], sv[1..]), Times(n, m));
    }
  }

  lemma Quotients(a: real, n: real, b: real, m: real)
    requires n != 0.0 && m != 0.0
    ensures Times(Times(a / n, b / m), Times(n, m)) == Times(a, b)
  {
    var x, y := a / n, b / m;
    assert x * n == a && y * m == b;
    assert (x * y) * (n * m) == (x * n) * (y * m);
  }

  lemma Distributes(x: real, y: real, k: real)
    ensures Times(x + y, k) == Times(x, k) + Times(y, k)
  {
  }

  lemma {:induction false} DotZeros(u: seq<real>, v: seq<real>)
    requires |u| == |v| && forall i | 0 <= i < |u| :: u[i] == 0.0
    ensures Dot(u, v) == 0.0
  {
    if u != [] {
      DotZeros(u[1..], v[1..]);
    }
  }

  /** Adding `x` at index `b` adds `x * v[b]` to the dot product. */
  lemma {:induction false} DotBump(u: seq<real>, v: seq<real>, b: nat, x: real)
    requires |u| == |v| && b < |u|
    ensures Dot(u[b := u[b] + x], v) == Dot(u, v) + Times(x, v[b])
  {
    var u' := u[b := u[b] + x];
    if b == 0 {
      assert u'[1..] == u[1..];
      Distributes(u[0], x, v[0]);
    } else {
      DotBump(u[1..], v[1..], b - 1, x);
      assert u'[1..] == u[1..][b - 1 := u[1..][b - 1] + x];
    }
  }

  /**
   Every embedding has `dim` components and squared norm one, also when there are
   no tokens or their signs cancel.
   */
  lemma UnitNorm(p: Provider, text: string)
    requires Valid(p)
    ensures |Embedded(p, text)| == p.dim && Dot(Embedded(p, text), Embedded(p, text)) == 1.0
  {
    var raw := Raw(p, Tokens(p.lower(text)));
    DotSelf(raw);
    var squares := Dot(raw, raw);
    var norm := p.sqrt(squares);
    assert Times(norm, norm) == squares;
    if norm == 0.0 {
      assert squares == 0.0;
      var b := Bucket(p, text);
      var unit := Embedded(p, text);
      forall i | 0 <= i < |raw| ensures raw[i] == 0.0 {
        if raw[i] != 0.0 {
          DotSelfPositive(raw, i);
        }
      }
      assert unit == raw[b := raw[b] + 1.0];
      DotBump(raw, unit, b, 1.0);
      DotZeros(raw, unit);
    } else {
      DotScaled(raw, norm, raw, norm);
      var unit := Scaled(raw, norm);
      assert Times(norm, norm) == squares;
      Square(norm);
      Cancel(Dot(unit, unit), Times(norm, norm));
    }
  }

  /** The number of tokens in a bucket whose sign hash is odd, or even. */
  function InBucket(p: Provider, tokens: seq<string>, b: nat, odd: bool): nat
    requires p.dim >= 1
  {
    if tokens == [] then 0
    else
      var t := tokens[0];
      InBucket(p, tokens[1..], b, odd) + if p.word(t) % p.dim == b && p.odd(t) == odd then 1 else 0
  }

  lemma {:induction false} InBucketSnoc(p: Provider, tokens: seq<string>, t: string, b: nat, odd: bool)
    requires p.dim >= 1
    ensures InBucket(p, tokens + [t], b, odd)
         == InBucket(p, tokens, b, odd) + if p.word(t) % p.dim == b && p.odd(t) == odd then 1 else 0
  {
    if tokens == [] {
      assert [] + [t] == [t] && [t][1..] == [];
    } else {
      InBucketSnoc(p, tokens[1..], t, b, odd);
      assert (tokens + [t])[1..] == tokens[1..] + [t];
    }
  }

  /** Before normalisation a bucket holds the number of its odd tokens less that of its even ones, collisions or not. */
  lemma {:induction false} BucketExact(p: Provider, tokens: seq<string>, b: nat)
    requires p.dim >= 1 && b < p.dim
    ensures Raw(p, tokens)[b] == InBucket(p, tokens, b, true) as real - InBucket(p, tokens, b, false) as real
  {
    if tokens != [] {
      var before, t := tokens[..|tokens| - 1], tokens[|tokens| - 1];
      BucketExact(p, before, b);
      assert tokens == before + [t];
      InBucketSnoc(p, before, t, b, true);
      InBucketSnoc(p, before, t, b, false);
    }
  }

  /** In every bucket the signs of the tokens cancel; so they do when there are no tokens. */
  ghost predicate Cancels(p: Provider, tokens: seq<string>)
    requires p.dim >= 1
  {
    forall b: nat | b < p.dim :: InBucket(p, tokens, b, true) == InBucket(p, tokens, b, false)
  }

  lemma CancelsExactly(p: Provider, tokens: seq<string>)
    requires p.dim >= 1
    ensures Cancels(p, tokens) <==> Dot(Raw(p, tokens), Raw(p, tokens)) == 0.0
    ensures Cancels(p, tokens) ==> forall b | 0 <= b < p.dim :: Raw(p, tokens)[b] == 0.0
  {
    var raw := Raw(p, tokens);
    forall b: nat | b < p.dim
      ensures raw[b] == InBucket(p, tokens, b, true) as real - InBucket(p, tokens, b, false) as real
    {
      BucketExact(p, tokens, b);
    }
    if Cancels(p, tokens) {
      DotZeros(raw, raw);
    } else {
      var b: nat :| b < p.dim && InBucket(p, tokens, b, true) != InBucket(p, tokens, b, false);
      DotSelfPositive(raw, b);
    }
  }

  lemma NormExact(p: Provider, squares: real)
    requires Valid(p) && squares >= 0.0
    ensures p.sqrt(squares) >= 0.0 && (p.sqrt(squares) == 0.0 <==> squares == 0.0)
  {
    var norm := p.sqrt(squares);
    assert Times(norm, norm) == squares;
    Square(norm);
  }

  /**
   The embedding is the bucket vector divided by its length, or, when all signs cancel,
   the unit vector of the bucket of the whole text.
   */
  lemma EmbeddingExact(p: Provider, text: string, b: nat)
    requires Valid(p) && b < p.dim
    ensures var tokens := Tokens(p.lower(text));
            var norm := p.sqrt(Dot(Raw(p, tokens), Raw(p, tokens)));
            if Cancels(p, tokens) then Embedded(p, text)[b] == if b == p.word(text) % p.dim then 1.0 else 0.0
            else
              && norm > 0.0
              && Times(Embedded(p, text)[b], norm)
                 == InBucket(p, tokens, b, true) as real - InBucket(p, tokens, b, false) as real
  {
    var tokens := Tokens(p.lower(text));
    var raw := Raw(p, tokens);
    DotSelf(raw);
    CancelsExactly(p, tokens);
    NormExact(p, Dot(raw, raw));
    if !Cancels(p, tokens) {
      BucketExact(p, tokens, b);
      Quotient(raw[b], p.sqrt(Dot(raw, raw)));
      assert Embedded(p, text) == Scaled(raw, p.sqrt(Dot(raw, raw)));
    } else {
      assert Embedded(p, text) == raw[Bucket(p, text) := 1.0];
    }
  }

  lemma Quotient(x: real, norm: real)
    requires norm > 0.0
    ensures Times(x / norm, norm) == x
  {
  }

  lemma {:induction false} DotBounds(u: seq<real>, v: seq<real>)
    requires |u| == |v|
    ensures 2.0 * Dot(u, v) <= Dot(u, u) + Dot(v, v)
    ensures -2.0 * Dot(u, v) <= Dot(u, u) + Dot(v, v)
  {
    if u != [] {
      DotBounds(u[1..], v[1..]);
      var x, y := u[0], v[0];
      Square(x - y);
      Square(x + y);
      Binomials(x, y);
    }
  }

  lemma Binomials(x: real, y: real)
    ensures Times(x - y, x - y) == Times(x, x) - 2.0 * Times(x, y) + Times(y, y)
    ensures Times(x + y, x + y) == Times(x, x) + 2.0 * Times(x, y) + Times(y, y)
  {
  }

  /** The similarity of any two texts lies between -1 and 1, and that of a text with itself is 1. */
  lemma SimilarityBounds(p: Provider, a: string, b: string)
    requires Valid(p)
    ensures -1.0 <= Dot(Embedded(p, a), Embedded(p, b)) <= 1.0
    ensures a == b ==> Dot(Embedded(p, a), Embedded(p, b)) == 1.0
  {
    UnitNorm(p, a);
    UnitNorm(p, b);
    DotBounds(Embedded(p, a), Embedded(p, b));
  }

  // ---- Bags of words ----

  function Occurrences(tokens: seq<string>, t: string): nat {
    if tokens == [] then 0
    else Occurrences(tokens[..|tokens| - 1], t) + if tokens[|tokens| - 1] == t then 1 else 0
  }

  function Vocabulary(tokens: seq<string>): set<string> {
    set t | t in tokens
  }

  /** The sum over the words of `words` of the product of their counts. */
  ghost function SharedCounts(words: set<string>, a: seq<string>, b: seq<string>): nat {
    if words == {} then 0
    else
      var t :| t in words;
      Occurrences(a, t) * Occurrences(b, t) + SharedCounts(words - {t}, a, b)
  }

  /** The dot product of the two bags of words. */
  ghost function BagDot(a: seq<string>, b: seq<string>): nat {
    SharedCounts(Vocabulary(a) * Vocabulary(b), a, b)
  }

  ghost predicate NoCollisions(p: Provider, a: seq<string>, b: seq<string>)
    requires p.dim >= 1
  {
    forall s, t | s in a + b && t in a + b :: Bucket(p, s) == Bucket(p, t) ==> s == t
  }

  lemma {:induction false} Occurs(tokens: seq<string>, t: string)
    ensures Occurrences(tokens, t) > 0 <==> t in tokens
  {
    if tokens != [] {
      Occurs(tokens[..|tokens| - 1], t);
      assert tokens == tokens[..|tokens| - 1] + [tokens[|tokens| - 1]];
    }
  }

  /** The count of a word in a bag. */
  lemma {:induction false} OccurrencesExact(tokens: seq<string>, t: string)
    ensures Occurrences(tokens, t) == multiset(tokens)[t]
  {
    if tokens != [] {
      OccurrencesExact(tokens[..|tokens| - 1], t);
      assert tokens == tokens[..|tokens| - 1] + [tokens[|tokens| - 1]];
    }
  }

  lemma {:induction false} SharedCountsRemove(words: set<string>, a: seq<string>, b: seq<string>, t: string)
    requires t in words
    ensures SharedCounts(words, a, b) == Occurrences(a, t) * Occurrences(b, t) + SharedCounts(words - {t}, a, b)
    decreases words
  {
    var s :| s in words && SharedCounts(words, a, b)
                           == Occurrences(a, s) * Occurrences(b, s) + SharedCounts(words - {s}, a, b);
    if s != t {
      SharedCountsRemove(words - {s}, a, b, t);
      SharedCountsRemove(words - {t}, a, b, s);
      assert words - {s} - {t} == words - {t} - {s};
    }
  }

  /** Words that one of the texts lacks do not count. */
  lemma {:induction false} SharedCountsOf(words: set<string>, a: seq<string>, b: seq<string>)
    requires Vocabulary(a) * Vocabulary(b) <= words
    ensures SharedCounts(words, a, b) == BagDot(a, b)
    decreases words
  {
    var shared := Vocabulary(a) * Vocabulary(b);
    if words != shared {
      var t :| t in words && t !in shared;
      SharedCountsRemove(words, a, b, t);
      Occurs(a, t);
      Occurs(b, t);
      SharedCountsOf(words - {t}, a, b);
    }
  }

  /** One more occurrence of `x` on the left adds the occurrences of `x` on the right. */
  lemma {:induction false} SharedCountsSnoc(words: set<string>, a: seq<string>, b: seq<string>, x: string)
    ensures SharedCounts(words, a + [x], b)
         == SharedCounts(words, a, b) + if x in words then Occurrences(b, x) else 0
    decreases words
  {
    assert (a + [x])[..|a|] == a;
    if words != {} {
      var t :| t in words;
      SharedCountsRemove(words, a + [x], b, t);
      SharedCountsRemove(words, a, b, t);
      SharedCountsSnoc(words - {t}, a, b, x);
      assert (Occurrences(a, t) + 1) * Occurrences(b, t) == Occurrences(a, t) * Occurrences(b, t) + Occurrences(b, t);
    }
  }

  lemma {:induction false} NothingShared(words: set<string>, b: seq<string>)
    ensures SharedCounts(words, [], b) == 0
    decreases words
  {
    if words != {} {
      var t :| t in words;
      SharedCountsRemove(words, [], b, t);
      NothingShared(words - {t}, b);
    }
  }

  /** Without collisions a bucket holds the signed count of its token. */
  lemma {:induction false} BucketHoldsCount(p: Provider, tokens: seq<string>, t: string)
    requires p.dim >= 1 && forall s | s in tokens :: Bucket(p, s) == Bucket(p, t) ==> s == t
    ensures Raw(p, tokens)[Bucket(p, t)] == Times(Sign(p, t), Occurrences(tokens, t) as real)
  {
    if tokens != [] {
      var before := tokens[..|tokens| - 1];
      assert forall s | s in before :: s in tokens;
      BucketHoldsCount(p, before, t);
      Distributes(Occurrences(before, t) as real, 1.0, Sign(p, t));
      assert tokens[|tokens| - 1] in tokens;
    }
  }

  lemma {:induction false} HashedDot(p: Provider, a: seq<string>, b: seq<string>)
    requires p.dim >= 1 && NoCollisions(p, a, b)
    ensures Dot(Raw(p, a), Raw(p, b)) == SharedCounts(Vocabulary(b), a, b) as real
  {
    if a == [] {
      DotZeros(Raw(p, a), Raw(p, b));
      NothingShared(Vocabulary(b), b);
    } else {
      var before, t := a[..|a| - 1], a[|a| - 1];
      assert a == before + [t];
      assert forall s | s in before + b :: s in a + b;
      HashedDot(p, before, b);
      SharedCountsSnoc(Vocabulary(b), before, b, t);
      Occurs(b, t);
      OneMoreToken(p, before, b, t);
    }
  }

  lemma OneMoreToken(p: Provider, before: seq<string>, b: seq<string>, t: string)
    requires p.dim >= 1 && NoCollisions(p, before + [t], b)
    ensures Dot(Raw(p, before + [t]), Raw(p, b)) == Dot(Raw(p, before), Raw(p, b)) + Occurrences(b, t) as real
  {
    assert (before + [t])[..|before|] == before;
    DotBump(Raw(p, before), Raw(p, b), Bucket(p, t), Sign(p, t));
    forall s | s in b && Bucket(p, s) == Bucket(p, t) ensures s == t {
      assert s in before + [t] + b && t in before + [t] + b;
    }
    BucketHoldsCount(p, b, t);
    SignSquared(p, t, Occurrences(b, t) as real);
  }

  lemma SignSquared(p: Provider, t: string, x: real)
    ensures Times(Sign(p, t), Times(Sign(p, t), x)) == x
  {
  }

  /**
   Without collisions the dot product of two hashed vectors is that of the bags of
   words, so it is never negative and is zero exactly for disjoint vocabularies.
   */
  lemma {:induction false} HashingIsBagOfWords(p: Provider, a: seq<string>, b: seq<string>)
    requires p.dim >= 1 && NoCollisions(p, a, b)
    ensures Dot(Raw(p, a), Raw(p, b)) == BagDot(a, b) as real
    ensures BagDot(a, b) == 0 <==> Vocabulary(a) !! Vocabulary(b)
  {
    HashedDot(p, a, b);
    SharedCountsOf(Vocabulary(b), a, b);
    BagDotZero(a, b);
  }

  lemma BagDotZero(a: seq<string>, b: seq<string>)
    ensures BagDot(a, b) == 0 <==> Vocabulary(a) !! Vocabulary(b)
  {
    var shared := Vocabulary(a) * Vocabulary(b);
    assert BagDot(a, b) == SharedCounts(shared, a, b);
    if shared == {} {
      forall t | t in Vocabulary(a) ensures t !in Vocabulary(b) {
        assert t !in shared;
      }
    } else {
      var t :| t in shared;
      SharedCountsRemove(shared, a, b, t);
      Occurs(a, t);
      Occurs(b, t);
      ProductPositive(Occurrences(a, t), Occurrences(b, t));
    }
  }

  lemma ProductPositive(m: nat, n: nat)
    requires m > 0 && n > 0
    ensures m * n > 0
  {
  }

  /**
   The same for embedded texts: without collisions two texts that contain tokens have
   a similarity of at least zero, and zero exactly when they share no token.
   */
  lemma {:induction false} SimilarityIsSharedVocabulary(p: Provider, s: string, t: string)
    requires Valid(p)
    requires var a, b := Tokens(p.lower(s)), Tokens(p.lower(t)); a != [] && b != [] && NoCollisions(p, a, b)
    ensures var a, b := Tokens(p.lower(s)), Tokens(p.lower(t));
            var similarity := Dot(Embedded(p, s), Embedded(p, t));
            similarity >= 0.0 && (similarity == 0.0 <==> Vocabulary(a) !! Vocabulary(b))
  {
    var a, b := Tokens(p.lower(s)), Tokens(p.lower(t));
    HashingIsBagOfWords(p, a, b);
    var n := NormPositive(p, a, b);
    assert NoCollisions(p, b, a) by { assert forall x :: x in b + a <==> x in a + b; }
    var m := NormPositive(p, b, a);
    DotScaled(Raw(p, a), n, Raw(p, b), m);
    var similarity := Dot(Embedded(p, s), Embedded(p, t));
    assert similarity == Dot(Scaled(Raw(p, a), n), Scaled(Raw(p, b), m));
    PositiveProduct(n, m);
    SignOfProduct(similarity, Times(n, m), BagDot(a, b) as real);
  }

  lemma NormPositive(p: Provider, a: seq<string>, b: seq<string>) returns (n: real)
    requires Valid(p) && a != [] && NoCollisions(p, a, b)
    ensures n == p.sqrt(Dot(Raw(p, a), Raw(p, a))) && n > 0.0
  {
    assert NoCollisions(p, a, a) by { assert forall x | x in a + a :: x in a + b; }
    HashingIsBagOfWords(p, a, a);
    assert a[0] in Vocabulary(a) * Vocabulary(a);
    DotSelf(Raw(p, a));
    n := p.sqrt(Dot(Raw(p, a), Raw(p, a)));
    assert Times(n, n) == Dot(Raw(p, a), Raw(p, a));
    assert n == 0.0 ==> Times(n, n) == 0.0;
  }

  lemma SignOfProduct(x: real, scale: real, y: real)
    requires scale > 0.0 && Times(x, scale) == y && y >= 0.0
    ensures x >= 0.0 && (x == 0.0 <==> y == 0.0)
  {
  }
}
