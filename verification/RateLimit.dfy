/**
 The fixed-window rate limiter: any number of API replicas share one Redis, and
 the INCR and the EXPIRE of a request are separate commands. Time is counted in
 ticks, and a window is `window` ticks long.
 */
module RateLimit {
  import opened Wrappers

  /** The endpoint and address of a caller, and the number of the window. */
  datatype Key = Key(client: string, bucket: nat)

  /** A key without `expiresAt` lives for ever; otherwise it is gone from that tick on. */
  datatype Counter = Counter(count: nat, expiresAt: Option<nat>)

  type Store = map<Key, Counter>

  predicate Live(keys: Store, key: Key, now: nat) {
    key in keys && (keys[key].expiresAt.Some? ==> now < keys[key].expiresAt.value)
  }

  function CountOf(keys: Store, key: Key, now: nat): nat {
    if Live(keys, key, now) then keys[key].count else 0
  }

  /** INCR creates a missing or expired key without a lifetime. */
  function Incremented(keys: Store, key: Key, now: nat): Store {
    if Live(keys, key, now) then keys[key := keys[key].(count := keys[key].count + 1)]
    else keys[key := Counter(1, None)]
  }

  /** EXPIRE has no effect on a missing key. */
  function Expiring(keys: Store, key: Key, now: nat, window: nat): Store {
    if Live(keys, key, now) then keys[key := keys[key].(expiresAt := Some(now + window))] else keys
  }

  class Redis {
    var keys: Store
    var now: nat

    constructor ()
      ensures keys == map[] && now == 0
    {
      keys, now := map[], 0;
    }

    method Incr(key: Key) returns (count: nat)
      modifies this`keys
      ensures keys == Incremented(old(keys), key, now)
      ensures count == CountOf(old(keys), key, now) + 1 && CountOf(keys, key, now) == count
    {
      count := 1;
      if key in keys && (keys[key].expiresAt.None? || now < keys[key].expiresAt.value) {
        count := keys[key].count + 1;
        keys := keys[key := keys[key].(count := count)];
      } else {
        keys := keys[key := Counter(1, None)];
      }
    }

    method Expire(key: Key, seconds: nat)
      modifies this`keys
      ensures keys == Expiring(old(keys), key, now, seconds)
    {
      if key in keys && (keys[key].expiresAt.None? || now < keys[key].expiresAt.value) {
        keys := keys[key := keys[key].(expiresAt := Some(now + seconds))];
      }
    }
  }

  /** One request whose two commands are not interrupted; `false` is the 429 answer. */
  method EnforceRateLimit(redis: Redis, enabled: bool, client: string, limit: int, window: nat) returns (admitted: bool)
    requires window > 0
    modifies redis`keys
    ensures !enabled ==> admitted && redis.keys == old(redis.keys)
    ensures enabled ==>
              var key, before := Key(client, redis.now / window), old(redis.keys);
              && admitted == (CountOf(before, key, redis.now) < limit)
              && redis.keys == (var counted := Incremented(before, key, redis.now);
                                if CountOf(before, key, redis.now) == 0
                                then Expiring(counted, key, redis.now, window) else counted)
    ensures enabled ==>
              var key, before, now := Key(client, redis.now / window), old(redis.keys), redis.now;
              && key in redis.keys
              && redis.keys[key] == (if Live(before, key, now) && before[key].count > 0
                                     then Counter(before[key].count + 1, before[key].expiresAt)
                                     else Counter(1, Some(now + window)))
              && (forall other | other != key ::
                    (other in redis.keys <==> other in before)
                    && (other in before ==> redis.keys[other] == before[other]))
  {
    if !enabled {
      return true;
    }
    var bucket := redis.now / window;
    var key := Key(client, bucket);
    var count := redis.Incr(key);
    if count == 1 {
      redis.Expire(key, window);
    }
    admitted := count <= limit;
  }

  // ---- Many replicas ----

  datatype Entry = Entry(time: nat, client: string, admitted: bool)

  /** `pending` are the EXPIRE commands that a replica still has to send. */
  datatype World = World(now: nat, keys: Store, pending: set<Key>, log: seq<Entry>)

  /** A pending EXPIRE may be delayed for any time, and need never be sent. */
  datatype Step = Tick(ticks: nat) | Request(client: string) | SendExpire(key: Key)

  function Next(w: World, limit: int, window: nat, step: Step): World
    requires window > 0
  {
    match step
    case Tick(ticks) => w.(now := w.now + ticks)
    case Request(client) =>
      var key := Key(client, w.now / window);
      var count := CountOf(w.keys, key, w.now) + 1;
      World(w.now, Incremented(w.keys, key, w.now),
            if count == 1 then w.pending + {key} else w.pending,
            w.log + [Entry(w.now, client, count <= limit)])
    case SendExpire(key) =>
      if key in w.pending then
        w.(keys := Expiring(w.keys, key, w.now, window), pending := w.pending - {key})
      else w
  }

  const START := World(0, map[], {}, [])

  function Run(limit: int, window: nat, steps: seq<Step>): World
    requires window > 0
  {
    if steps == [] then START
    else Next(Run(limit, window, steps[..|steps| - 1]), limit, window, steps[|steps| - 1])
  }

  function Bit(b: bool): nat {
    if b then 1 else 0
  }

  /** Requests of a caller in a window. */
  function Requests(log: seq<Entry>, client: string, bucket: nat, window: nat): nat
    requires window > 0
  {
    if log == [] then 0
    else
      var e := log[|log| - 1];
      Requests(log[..|log| - 1], client, bucket, window) + Bit(e.client == client && e.time / window == bucket)
  }

  function Admitted(log: seq<Entry>, client: string, bucket: nat, window: nat): nat
    requires window > 0
  {
    if log == [] then 0
    else
      var e := log[|log| - 1];
      Admitted(log[..|log| - 1], client, bucket, window)
      + Bit(e.client == client && e.time / window == bucket && e.admitted)
  }

  /** Requests admitted from tick `from` until before tick `to`. */
  function AdmittedBetween(log: seq<Entry>, client: string, from: nat, to: nat): nat {
    if log == [] then 0
    else
      var e := log[|log| - 1];
      AdmittedBetween(log[..|log| - 1], client, from, to)
      + Bit(e.client == client && from <= e.time < to && e.admitted)
  }

  function Quota(limit: int): nat {
    if limit < 0 then 0 else limit
  }

  function Min(a: nat, b: nat): nat {
    if a <= b then a else b
  }

  /** A key of window `b` cannot expire before window `b` is over. */
  ghost predicate KeysOutliveWindows(w: World, window: nat)
    requires window > 0
  {
    && (forall key | key in w.keys :: key.bucket <= w.now / window)
    && (forall key | key in w.pending :: key.bucket <= w.now / window)
    && (forall key | key in w.keys && w.keys[key].expiresAt.Some? ::
          key.bucket < w.keys[key].expiresAt.value / window)
  }

  /** The counter of the running window is the number of its requests: it was never dropped. */
  ghost predicate CountsRequests(w: World, window: nat)
    requires window > 0
  {
    && (forall e | e in w.log :: e.time <= w.now)
    && (forall client :: CountOf(w.keys, Key(client, w.now / window), w.now)
                         == Requests(w.log, client, w.now / window, window))
  }

  ghost predicate AdmitsQuota(w: World, limit: int, window: nat)
    requires window > 0
  {
    forall client, bucket ::
      Admitted(w.log, client, bucket, window) == Min(Requests(w.log, client, bucket, window), Quota(limit))
  }

  lemma DivMonotone(a: nat, b: nat, window: nat)
    requires window > 0 && a <= b
    ensures a / window <= b / window
  {
    var p, q := a / window, b / window;
    assert a == window * p + a % window && b == window * q + b % window;
    if p > q {
      MulMonotone(window, q + 1, p);
    }
  }

  lemma NextWindow(a: nat, window: nat)
    requires window > 0
    ensures (a + window) / window == a / window + 1
  {
    var q, r := a / window, a % window;
    assert a == window * q + r;
    DivUnique(a + window, q + 1, r, window);
  }

  lemma MulMonotone(w: nat, a: nat, b: nat)
    requires a <= b
    ensures w * a <= w * b
  {
  }

  lemma DivUnique(x: nat, q: nat, r: nat, window: nat)
    requires window > 0 && r < window && x == window * q + r
    ensures x / window == q
  {
    var q', r' := x / window, x % window;
    assert x == window * q' + r';
    if q' < q {
      MulMonotone(window, q' + 1, q);
    } else if q < q' {
      MulMonotone(window, q + 1, q');
    }
  }

  lemma LiveInWindow(w: World, client: string, window: nat)
    requires window > 0 && KeysOutliveWindows(w, window)
    ensures var key := Key(client, w.now / window); Live(w.keys, key, w.now) <==> key in w.keys
  {
    var key := Key(client, w.now / window);
    if key in w.keys && w.keys[key].expiresAt.Some? && w.keys[key].expiresAt.value <= w.now {
      DivMonotone(w.keys[key].expiresAt.value, w.now, window);
    }
  }

  lemma {:induction false} NoneLater(log: seq<Entry>, now: nat, client: string, bucket: nat, window: nat)
    requires window > 0 && now / window < bucket && forall e | e in log :: e.time <= now
    ensures Requests(log, client, bucket, window) == 0
  {
    if log != [] {
      NoneLater(log[..|log| - 1], now, client, bucket, window);
      DivMonotone(log[|log| - 1].time, now, window);
    }
  }

  lemma TickKeeps(w: World, limit: int, window: nat, ticks: nat)
    requires window > 0 && KeysOutliveWindows(w, window) && CountsRequests(w, window)
    ensures var w' := Next(w, limit, window, Tick(ticks)); KeysOutliveWindows(w', window) && CountsRequests(w', window)
  {
    var w' := Next(w, limit, window, Tick(ticks));
    DivMonotone(w.now, w'.now, window);
    forall client
      ensures CountOf(w'.keys, Key(client, w'.now / window), w'.now)
           == Requests(w'.log, client, w'.now / window, window)
    {
      LiveInWindow(w', client, window);
      LiveInWindow(w, client, window);
      if w.now / window < w'.now / window {
        NoneLater(w.log, w.now, client, w'.now / window, window);
      }
    }
  }

  lemma RequestKeepsKeys(w: World, limit: int, window: nat, client: string)
    requires window > 0 && KeysOutliveWindows(w, window)
    ensures KeysOutliveWindows(Next(w, limit, window, Request(client)), window)
  {
  }

  lemma RequestCounted(w: World, limit: int, window: nat, client: string)
    requires window > 0 && KeysOutliveWindows(w, window) && CountsRequests(w, window)
    ensures CountsRequests(Next(w, limit, window, Request(client)), window)
  {
    var w' := Next(w, limit, window, Request(client));
    assert w'.log[..|w'.log| - 1] == w.log;
    forall c
      ensures CountOf(w'.keys, Key(c, w'.now / window), w'.now)
           == Requests(w'.log, c, w'.now / window, window)
    {
      LiveInWindow(w, c, window);
    }
  }

  lemma RequestAdmits(w: World, limit: int, window: nat, client: string)
    requires window > 0 && CountsRequests(w, window) && AdmitsQuota(w, limit, window)
    ensures AdmitsQuota(Next(w, limit, window, Request(client)), limit, window)
  {
    var w' := Next(w, limit, window, Request(client));
    assert w'.log[..|w'.log| - 1] == w.log;
    forall c, bucket
      ensures Admitted(w'.log, c, bucket, window) == Min(Requests(w'.log, c, bucket, window), Quota(limit))
    {
      assert Admitted(w.log, c, bucket, window) == Min(Requests(w.log, c, bucket, window), Quota(limit));
    }
  }

  lemma ExpireKeeps(w: World, limit: int, window: nat, key: Key)
    requires window > 0 && KeysOutliveWindows(w, window) && CountsRequests(w, window)
    ensures var w' := Next(w, limit, window, SendExpire(key));
            KeysOutliveWindows(w', window) && CountsRequests(w', window)
  {
    var w' := Next(w, limit, window, SendExpire(key));
    NextWindow(w.now, window);
    forall client
      ensures CountOf(w'.keys, Key(client, w'.now / window), w'.now)
           == Requests(w'.log, client, w'.now / window, window)
    {
      LiveInWindow(w, client, window);
      assert CountOf(w.keys, Key(client, w.now / window), w.now) == Requests(w.log, client, w.now / window, window);
    }
  }

  /**
   In every run, whatever happens to the EXPIRE commands: the counter of the running
   window is never dropped, and a window has admitted exactly the smaller of its
   requests and the limit.
   */
  lemma {:induction false} WindowsAreExact(limit: int, window: nat, steps: seq<Step>)
    requires window > 0
    ensures var w := Run(limit, window, steps);
            && KeysOutliveWindows(w, window) && CountsRequests(w, window) && AdmitsQuota(w, limit, window)
  {
    if steps != [] {
      var before := Run(limit, window, steps[..|steps| - 1]);
      WindowsAreExact(limit, window, steps[..|steps| - 1]);
      match steps[|steps| - 1]
      case Tick(ticks) => TickKeeps(before, limit, window, ticks);
      case Request(client) =>
        RequestKeepsKeys(before, limit, window, client);
        RequestCounted(before, limit, window, client);
        RequestAdmits(before, limit, window, client);
      case SendExpire(key) => ExpireKeeps(before, limit, window, key);
    }
  }

  lemma {:induction false} IntervalInTwoWindows(log: seq<Entry>, client: string, from: nat, window: nat)
    requires window > 0
    ensures var b := from / window;
            AdmittedBetween(log, client, from, from + window)
            <= Admitted(log, client, b, window) + Admitted(log, client, b + 1, window)
  {
    if log != [] {
      IntervalInTwoWindows(log[..|log| - 1], client, from, window);
      var e := log[|log| - 1];
      if from <= e.time < from + window {
        DivMonotone(from, e.time, window);
        DivMonotone(e.time, from + window, window);
        NextWindow(from, window);
      }
    }
  }

  /** Any interval as long as a window admits at most twice the limit. */
  lemma AtMostTwiceTheLimit(limit: int, window: nat, steps: seq<Step>, client: string, from: nat)
    requires window > 0
    ensures AdmittedBetween(Run(limit, window, steps).log, client, from, from + window) <= 2 * Quota(limit)
  {
    var log := Run(limit, window, steps).log;
    var b := from / window;
    WindowsAreExact(limit, window, steps);
    IntervalInTwoWindows(log, client, from, window);
    assert Admitted(log, client, b, window) == Min(Requests(log, client, b, window), Quota(limit));
    assert Admitted(log, client, b + 1, window) == Min(Requests(log, client, b + 1, window), Quota(limit));
  }

  // ---- Every key expires ----

  /** A key without a lifetime is about to get one, and no lifetime is longer than a window from now. */
  ghost predicate Expires(w: World, window: nat) {
    && (forall key | key in w.keys && w.keys[key].expiresAt.None? :: key in w.pending)
    && (forall key | key in w.keys && w.keys[key].expiresAt.Some? :: w.keys[key].expiresAt.value <= w.now + window)
  }

  lemma StepExpires(w: World, limit: int, window: nat, step: Step)
    requires window > 0 && Expires(w, window)
    ensures Expires(Next(w, limit, window, step), window)
  {
    match step
    case Tick(ticks) =>
    case Request(client) =>
      var key := Key(client, w.now / window);
      assert Live(w.keys, key, w.now) ==> key in w.keys;
      if Live(w.keys, key, w.now) {
        CountedKeepsLifetime(w.keys, key, w.now);
      }
    case SendExpire(key) =>
  }

  lemma CountedKeepsLifetime(keys: Store, key: Key, now: nat)
    requires Live(keys, key, now)
    ensures key in keys && Incremented(keys, key, now)[key].expiresAt == keys[key].expiresAt
  {
  }

  /**
   In every run a counter never stays without a lifetime: it has one that ends within a window,
   or the command that sets one is still to be sent.
   */
  lemma {:induction false} KeysExpire(limit: int, window: nat, steps: seq<Step>)
    requires window > 0
    ensures Expires(Run(limit, window, steps), window)
  {
    if steps != [] {
      KeysExpire(limit, window, steps[..|steps| - 1]);
      StepExpires(Run(limit, window, steps[..|steps| - 1]), limit, window, steps[|steps| - 1]);
    }
  }

  /** That command gives a live counter one window from when it is sent, keeps its count, and touches no other. */
  lemma ExpireExact(w: World, limit: int, window: nat, key: Key)
    requires window > 0 && key in w.pending
    ensures var w' := Next(w, limit, window, SendExpire(key));
            && (Live(w.keys, key, w.now) ==>
                  key in w'.keys && w'.keys[key] == Counter(w.keys[key].count, Some(w.now + window)))
            && (forall other | other != key || !Live(w.keys, key, w.now) ::
                  (other in w'.keys <==> other in w.keys)
                  && (other in w.keys ==> w'.keys[other] == w.keys[other]))
            && w'.now == w.now && w'.log == w.log && w'.pending == w.pending - {key}
  {
  }

  // ---- Twice the limit is reached ----

  function Burst(client: string, n: nat): seq<Step> {
    if n == 0 then [] else Burst(client, n - 1) + [Request(client)]
  }

  /** A burst at the last tick of window 0 and one at the first tick of window 1. */
  function TwoBursts(client: string, limit: nat, window: nat): seq<Step>
    requires window > 0
  {
    [Tick(window - 1)] + Burst(client, limit) + [Tick(1)] + Burst(client, limit)
  }

  lemma AdmittedRequest(w: World, limit: int, window: nat, key: Key, from: nat)
    requires window > 0 && key.bucket == w.now / window && from <= w.now < from + window
    requires CountOf(w.keys, key, w.now) < limit
    ensures var w' := Next(w, limit, window, Request(key.client));
            && w'.now == w.now
            && CountOf(w'.keys, key, w.now) == CountOf(w.keys, key, w.now) + 1
            && AdmittedBetween(w'.log, key.client, from, from + window)
               == AdmittedBetween(w.log, key.client, from, from + window) + 1
  {
    var w' := Next(w, limit, window, Request(key.client));
    assert w'.log[..|w'.log| - 1] == w.log;
  }

  function Repeated(w: World, limit: int, window: nat, client: string, n: nat): World
    requires window > 0
  {
    if n == 0 then w else Next(Repeated(w, limit, window, client, n - 1), limit, window, Request(client))
  }

  lemma RunSnoc(limit: int, window: nat, steps: seq<Step>, step: Step)
    requires window > 0
    ensures Run(limit, window, steps + [step]) == Next(Run(limit, window, steps), limit, window, step)
  {
    assert (steps + [step])[..|steps|] == steps;
  }

  lemma {:induction false} RunBurst(limit: int, window: nat, before: seq<Step>, client: string, n: nat)
    requires window > 0
    ensures Run(limit, window, before + Burst(client, n))
         == Repeated(Run(limit, window, before), limit, window, client, n)
  {
    if n == 0 {
      assert before + Burst(client, 0) == before;
    } else {
      RunBurst(limit, window, before, client, n - 1);
      RunSnoc(limit, window, before + Burst(client, n - 1), Request(client));
      BurstSnoc(before, client, n);
    }
  }

  lemma BurstSnoc(before: seq<Step>, client: string, n: nat)
    requires n > 0
    ensures before + Burst(client, n) == (before + Burst(client, n - 1)) + [Request(client)]
  {
  }

  /** From `w` to `w'`, in one instant, `n` requests of this window have been counted and admitted. */
  ghost predicate BurstSoFar(w: World, w': World, window: nat, key: Key, n: nat, from: nat) {
    && w'.now == w.now
    && CountOf(w'.keys, key, w.now) == n
    && AdmittedBetween(w'.log, key.client, from, from + window)
       == AdmittedBetween(w.log, key.client, from, from + window) + n
  }

  lemma BurstStep(w: World, w': World, limit: int, window: nat, key: Key, n: nat, from: nat)
    requires window > 0 && key.bucket == w'.now / window && n < limit && from <= w.now < from + window
    requires BurstSoFar(w, w', window, key, n, from)
    ensures BurstSoFar(w, Next(w', limit, window, Request(key.client)), window, key, n + 1, from)
  {
    AdmittedRequest(w', limit, window, key, from);
  }

  /** A burst of at most `limit` requests that opens a window is admitted. */
  lemma {:induction false} BurstAdmitted(w: World, limit: int, window: nat, key: Key, n: nat, from: nat)
    requires window > 0 && key.bucket == w.now / window && n <= limit && from <= w.now < from + window
    requires CountOf(w.keys, key, w.now) == 0
    ensures BurstSoFar(w, Repeated(w, limit, window, key.client, n), window, key, n, from)
  {
    if n > 0 {
      BurstAdmitted(w, limit, window, key, n - 1, from);
      BurstStep(w, Repeated(w, limit, window, key.client, n - 1), limit, window, key, n - 1, from);
    }
  }

  /** With windows longer than a tick the bound is tight: two bursts around a boundary are all admitted. */
  lemma TwiceTheLimitIsReached(limit: nat, window: nat, client: string)
    requires window > 1
    ensures AdmittedBetween(Run(limit, window, TwoBursts(client, limit, window)).log,
                            client, window - 1, window - 1 + window) == 2 * limit
  {
    var before := [Tick(window - 1)] + Burst(client, limit) + [Tick(1)];
    BetweenBursts(limit, window, client);
    SecondBurst(Run(limit, window, before), limit, window, client);
    RunBurst(limit, window, before, client, limit);
  }

  lemma SecondBurst(w: World, limit: nat, window: nat, client: string)
    requires window > 1 && w.now == window && w.now / window == 1
    requires CountOf(w.keys, Key(client, 1), w.now) == 0
    requires AdmittedBetween(w.log, client, window - 1, window - 1 + window) == limit
    ensures AdmittedBetween(Repeated(w, limit, window, client, limit).log, client, window - 1, window - 1 + window)
         == 2 * limit
  {
    BurstAdmitted(w, limit, window, Key(client, 1), limit, window - 1);
  }

  lemma BetweenBursts(limit: nat, window: nat, client: string)
    requires window > 1
    ensures var w := Run(limit, window, [Tick(window - 1)] + Burst(client, limit) + [Tick(1)]);
            && w.now == window && w.now / window == 1
            && CountOf(w.keys, Key(client, 1), w.now) == 0
            && AdmittedBetween(w.log, client, window - 1, window - 1 + window) == limit
  {
    var second := [Tick(window - 1)] + Burst(client, limit);
    var third := second + [Tick(1)];
    FirstBurst(limit, window, client);
    assert third[..|third| - 1] == second;
    WindowsAreExact(limit, window, third);
    NoRequestsYet(limit, window, second, client);
    DivUnique(window, 1, 0, window);
  }

  lemma LastTick(limit: int, window: nat)
    requires window > 1
    ensures Run(limit, window, [Tick(window - 1)]) == START.(now := window - 1) && (window - 1) / window == 0
  {
    RunSnoc(limit, window, [], Tick(window - 1));
    assert [] + [Tick(window - 1)] == [Tick(window - 1)];
    DivUnique(window - 1, 0, window - 1, window);
  }

  lemma FirstBurst(limit: nat, window: nat, client: string)
    requires window > 1
    ensures var w := Run(limit, window, [Tick(window - 1)] + Burst(client, limit));
            w.now == window - 1 && AdmittedBetween(w.log, client, window - 1, window - 1 + window) == limit
  {
    LastTick(limit, window);
    BurstAdmitted(START.(now := window - 1), limit, window, Key(client, 0), limit, window - 1);
    RunBurst(limit, window, [Tick(window - 1)], client, limit);
  }

  lemma NoRequestsYet(limit: int, window: nat, steps: seq<Step>, client: string)
    requires window > 0 && Run(limit, window, steps).now == window - 1
    ensures Requests(Run(limit, window, steps).log, client, 1, window) == 0
  {
    WindowsAreExact(limit, window, steps);
    DivUnique(window - 1, 0, window - 1, window);
    NoneLater(Run(limit, window, steps).log, window - 1, client, 1, window);
  }
}
