/**
 Rotation of refresh tokens on the server, and the browser tab that refreshes at
 most once at a time. Tokens are numbers that are never issued twice; hashing them
 is taken to be injective. Server transactions run one after the other, except in the
 last part.
 */
module Auth {
  import opened Wrappers

  type Token = nat
  type User = nat

  const REFRESH_TTL: nat := 14 * 24 * 60 * 60

  datatype TokenRow = TokenRow(user: User, expiresAt: nat, revokedAt: Option<nat>)

  /** `successor[t]` is the token that `t` was exchanged for, and `loggedOut` were revoked by a logout. */
  datatype Server = Server(rows: map<Token, TokenRow>, active: map<User, bool>, nextToken: Token, now: nat,
                           successor: map<Token, Token>, loggedOut: set<Token>)

  datatype Reply = Granted(token: Token) | Denied(status: nat)

  const UNAUTHORIZED: nat := 401
  const TOO_MANY_REQUESTS: nat := 429

  predicate Redeemable(s: Server, t: Token) {
    && t in s.rows && s.rows[t].revokedAt.None? && s.now < s.rows[t].expiresAt
    && s.rows[t].user in s.active && s.active[s.rows[t].user]
  }

  function Issued(s: Server, user: User): Server {
    s.(rows := s.rows[s.nextToken := TokenRow(user, s.now + REFRESH_TTL, None)], nextToken := s.nextToken + 1)
  }

  function Revoked(s: Server, t: Token): Server
    requires t in s.rows
  {
    s.(rows := s.rows[t := s.rows[t].(revokedAt := Some(s.now))])
  }

  function Refreshed(s: Server, t: Token): (Server, Reply) {
    if !Redeemable(s, t) then (s, Denied(UNAUTHORIZED))
    else (Issued(Revoked(s, t), s.rows[t].user).(successor := s.successor[t := s.nextToken]), Granted(s.nextToken))
  }

  function LoggedOut(s: Server, t: Token): Server {
    if t in s.rows && s.rows[t].revokedAt.None? then Revoked(s, t).(loggedOut := s.loggedOut + {t}) else s
  }

  /** Removing a user removes the rows of its tokens. */
  function Removed(s: Server, user: User): Server {
    s.(active := s.active - {user}, rows := map t | t in s.rows && s.rows[t].user != user :: s.rows[t])
  }

  // ---- The server program ----

  class AuthServer {
    var rows: map<Token, TokenRow>
    var active: map<User, bool>
    var nextToken: Token
    var now: nat
    ghost var successor: map<Token, Token>
    ghost var loggedOut: set<Token>

    ghost function State(): Server
      reads this
    {
      Server(rows, active, nextToken, now, successor, loggedOut)
    }

    constructor ()
      ensures State() == Server(map[], map[], 0, 0, map[], {})
    {
      rows, active, nextToken, now, successor, loggedOut := map[], map[], 0, 0, map[], {};
    }

    method IssueTokens(user: User) returns (t: Token)
      modifies this`rows, this`nextToken
      ensures t == old(nextToken) && State() == Issued(old(State()), user)
      ensures rows == old(rows)[t := TokenRow(user, now + REFRESH_TTL, None)] && nextToken == t + 1
    {
      t := nextToken;
      rows := rows[t := TokenRow(user, now + REFRESH_TTL, None)];
      nextToken := nextToken + 1;
    }

    /** `throttled` is the verdict of the rate limiter, which is asked first. */
    method Refresh(t: Token, throttled: bool) returns (reply: Reply)
      modifies this
      ensures throttled ==> reply == Denied(TOO_MANY_REQUESTS) && State() == old(State())
      ensures !throttled ==> (State(), reply) == Refreshed(old(State()), t)
      ensures reply.Granted? ==>
                && t in old(rows) && reply.token == old(nextToken)
                && rows == old(rows)[t := old(rows)[t].(revokedAt := Some(now))]
                             [reply.token := TokenRow(old(rows)[t].user, now + REFRESH_TTL, None)]
    {
      if throttled {
        return Denied(TOO_MANY_REQUESTS);
      }
      if t !in rows || rows[t].revokedAt.Some? || rows[t].expiresAt <= now {
        return Denied(UNAUTHORIZED);
      }
      var user := rows[t].user;
      if user !in active || !active[user] {
        return Denied(UNAUTHORIZED);
      }
      rows := rows[t := rows[t].(revokedAt := Some(now))];
      successor := successor[t := nextToken];
      var next := IssueTokens(user);
      return Granted(next);
    }

    method Logout(t: Token)
      modifies this
      ensures State() == LoggedOut(old(State()), t)
      ensures t in old(rows) && old(rows)[t].revokedAt.None? ==>
                rows == old(rows)[t := old(rows)[t].(revokedAt := Some(now))]
      ensures t !in old(rows) || old(rows)[t].revokedAt.Some? ==> rows == old(rows)
    {
      if t in rows && rows[t].revokedAt.None? {
        rows := rows[t := rows[t].(revokedAt := Some(now))];
        loggedOut := loggedOut + {t};
      }
    }
  }

  // ---- Runs of the server ----

  datatype ServerStep =
    | Login(user: User)
    | RefreshToken(token: Token)
    | Logout(token: Token)
    | SetActive(user: User, active: bool)
    | RemoveUser(user: User)
    | Wait(seconds: nat)

  function ServerNext(s: Server, step: ServerStep): Server {
    match step
    case Login(user) => if user in s.active && s.active[user] then Issued(s, user) else s
    case RefreshToken(t) => Refreshed(s, t).0
    case Logout(t) => LoggedOut(s, t)
    case SetActive(user, active) => s.(active := s.active[user := active])
    case RemoveUser(user) => Removed(s, user)
    case Wait(seconds) => s.(now := s.now + seconds)
  }

  /** A token is revoked exactly when it was redeemed or logged out, and tokens are issued in order. */
  ghost predicate ServerInv(s: Server) {
    && (forall t | t in s.rows :: t < s.nextToken)
    && (forall t | t in s.rows :: s.rows[t].revokedAt.Some? <==> t in s.successor || t in s.loggedOut)
    && s.successor.Keys !! s.loggedOut
    && (forall t | t in s.successor :: t < s.successor[t] < s.nextToken)
    && (forall t | t in s.loggedOut :: t < s.nextToken)
  }

  lemma ServerStepInv(s: Server, step: ServerStep)
    requires ServerInv(s)
    ensures ServerInv(ServerNext(s, step))
  {
  }

  /**
   A step never takes back a redemption or redeems a token again, and never changes
   the time of a revocation; only removing the user removes the row.
   */
  lemma RevocationIsFinal(s: Server, step: ServerStep, t: Token)
    requires ServerInv(s)
    ensures var s' := ServerNext(s, step);
            && (t in s.successor ==> t in s'.successor && s'.successor[t] == s.successor[t])
            && (t in s.rows && s.rows[t].revokedAt.Some? && t in s'.rows ==> s'.rows[t] == s.rows[t])
            && (t in s.rows && t !in s'.rows ==> step == RemoveUser(s.rows[t].user))
  {
  }

  /** Different tokens are exchanged for different tokens: every lineage is a chain. */
  ghost predicate Lineages(s: Server) {
    forall t, u | t in s.successor && u in s.successor :: s.successor[t] == s.successor[u] ==> t == u
  }

  function ServerRun(s: Server, steps: seq<ServerStep>): Server {
    if steps == [] then s else ServerNext(ServerRun(s, steps[..|steps| - 1]), steps[|steps| - 1])
  }

  const NEW_SERVER := Server(map[], map[], 0, 0, map[], {})

  /** In every serial run each token is redeemed at most once and no two tokens share a successor. */
  lemma {:induction false} ServerRuns(steps: seq<ServerStep>)
    ensures var s := ServerRun(NEW_SERVER, steps); ServerInv(s) && Lineages(s)
  {
    if steps != [] {
      ServerRuns(steps[..|steps| - 1]);
      ServerStepInv(ServerRun(NEW_SERVER, steps[..|steps| - 1]), steps[|steps| - 1]);
    }
  }

  /** What was redeemed or revoked at some point of a run still is at every later point. */
  lemma {:induction false} RevocationLasts(s: Server, steps: seq<ServerStep>, t: Token)
    requires ServerInv(s)
    ensures var s' := ServerRun(s, steps);
            && ServerInv(s')
            && (t in s.successor ==> t in s'.successor && s'.successor[t] == s.successor[t])
            && (t in s.rows && s.rows[t].revokedAt.Some? && t in s'.rows ==> s'.rows[t] == s.rows[t])
            && (t < s.nextToken && t !in s.rows ==> t !in s'.rows)
            && s.nextToken <= s'.nextToken
  {
    if steps != [] {
      RevocationLasts(s, steps[..|steps| - 1], t);
      var s1 := ServerRun(s, steps[..|steps| - 1]);
      ServerStepInv(s1, steps[|steps| - 1]);
      RevocationIsFinal(s1, steps[|steps| - 1], t);
    }
  }

  /**
   A granted refresh issues a fresh token for the user of the presented one, with a whole
   lifetime of fourteen days, revokes the presented one now, and leaves every other row alone.
   */
  lemma GrantExact(s: Server, t: Token)
    requires ServerInv(s) && Refreshed(s, t).1.Granted?
    ensures var (s', reply) := Refreshed(s, t);
            && t in s.rows && s.rows[t].revokedAt.None? && reply.token !in s.rows && reply.token in s'.rows
            && s'.rows[reply.token].user == s.rows[t].user
            && s'.rows[reply.token].revokedAt == None
            && s'.rows[reply.token].expiresAt == s.now + 1_209_600
            && s'.rows[t] == TokenRow(s.rows[t].user, s.rows[t].expiresAt, Some(s.now))
            && (forall u | u != t && u != reply.token :: u in s'.rows <==> u in s.rows)
            && (forall u | u in s.rows && u != t :: s'.rows[u] == s.rows[u])
            && s'.active == s.active
  {
  }

  /** A lineage belongs to one user. */
  ghost predicate SameUsers(s: Server) {
    forall t | t in s.successor && t in s.rows && s.successor[t] in s.rows ::
      s.rows[s.successor[t]].user == s.rows[t].user
  }

  /** In every serial run a token is exchanged for one of the same user. */
  lemma {:induction false} SuccessorsKeepUser(steps: seq<ServerStep>)
    ensures SameUsers(ServerRun(NEW_SERVER, steps))
  {
    if steps != [] {
      SuccessorsKeepUser(steps[..|steps| - 1]);
      ServerRuns(steps[..|steps| - 1]);
      StepKeepsUsers(ServerRun(NEW_SERVER, steps[..|steps| - 1]), steps[|steps| - 1]);
    }
  }

  lemma StepKeepsUsers(s: Server, step: ServerStep)
    requires ServerInv(s) && SameUsers(s)
    ensures SameUsers(ServerNext(s, step))
  {
  }

  /** A token that was logged out is refused for ever, whether or not it was good before. */
  lemma {:induction false} LogoutLasts(s: Server, t: Token, steps: seq<ServerStep>)
    requires ServerInv(s) && t < s.nextToken
    ensures var s' := ServerRun(ServerNext(s, Logout(t)), steps);
            && !Redeemable(s', t) && Refreshed(s', t) == (s', Denied(UNAUTHORIZED))
  {
    ServerStepInv(s, Logout(t));
    RevocationLasts(ServerNext(s, Logout(t)), steps, t);
  }

  /** Removing a user takes exactly the user and the tokens of that user away. */
  lemma RemovalExact(s: Server, user: User)
    ensures var s' := ServerNext(s, RemoveUser(user));
            && (forall t :: t in s'.rows <==> t in s.rows && s.rows[t].user != user)
            && (forall t | t in s'.rows :: s'.rows[t] == s.rows[t])
            && (forall u :: u in s'.active <==> u in s.active && u != user)
            && (forall u | u in s'.active :: s'.active[u] == s.active[u])
            && s'.nextToken == s.nextToken && s'.now == s.now
  {
  }

  /** A sign-in of an active user, and of no one else, issues one fresh token for that user. */
  lemma LoginExact(s: Server, user: User)
    requires ServerInv(s)
    ensures var s' := ServerNext(s, Login(user));
            if user in s.active && s.active[user] then
              && s.nextToken !in s.rows && s'.nextToken == s.nextToken + 1
              && s'.rows == s.rows[s.nextToken := TokenRow(user, s.now + 1_209_600, None)]
              && s'.successor == s.successor && s'.active == s.active
            else s' == s
  {
  }

  /** How often token `t` is exchanged for a new pair during a run. */
  function Grants(s: Server, steps: seq<ServerStep>, t: Token): nat {
    if steps == [] then 0
    else
      Grants(s, steps[..|steps| - 1], t)
      + if steps[|steps| - 1] == RefreshToken(t) && Redeemable(ServerRun(s, steps[..|steps| - 1]), t) then 1 else 0
  }

  lemma {:induction false} GrantsAreSuccessors(s: Server, steps: seq<ServerStep>, t: Token)
    requires ServerInv(s) && t !in s.successor
    ensures ServerInv(ServerRun(s, steps))
    ensures Grants(s, steps, t) == if t in ServerRun(s, steps).successor then 1 else 0
  {
    if steps != [] {
      var before := ServerRun(s, steps[..|steps| - 1]);
      GrantsAreSuccessors(s, steps[..|steps| - 1], t);
      ServerStepInv(before, steps[|steps| - 1]);
    }
  }

  /** A refresh token is exchanged at most once. */
  lemma RedeemedAtMostOnce(steps: seq<ServerStep>, t: Token)
    ensures Grants(NEW_SERVER, steps, t) <= 1
  {
    GrantsAreSuccessors(NEW_SERVER, steps, t);
  }

  // ---- Overlapping transactions ----

  /** What a refresh read: whether its token was good then, and which refreshes had committed. */
  datatype View = View(token: Token, time: nat, good: bool, committed: set<nat>)

  /** The reads of a refresh and its commit are two steps; `Other` are the other requests, each in one step. */
  datatype TxStep = Read(id: nat, token: Token) | Commit(id: nat) | Abort(id: nat) | Other(step: ServerStep)

  datatype TxWorld = TxWorld(server: Server, open: map<nat, View>, done: map<nat, View>)

  /**
   The row is not locked and not read again: the commit revokes it,
   whatever it is by then, and issues a new token.
   */
  function CommitView(s: Server, v: View): Server
    requires v.token in s.rows
  {
    var revoked := s.(rows := s.rows[v.token := s.rows[v.token].(revokedAt := Some(v.time))]);
    Issued(revoked, s.rows[v.token].user).(successor := s.successor[v.token := s.nextToken])
  }

  /** A refusal changes nothing, and a commit whose row has been removed fails. */
  function TxNext(w: TxWorld, step: TxStep): TxWorld {
    match step
    case Read(id, t) =>
      if id in w.open || id in w.done then w
      else w.(open := w.open[id := View(t, w.server.now, Redeemable(w.server, t), w.done.Keys)])
    case Commit(id) =>
      if id !in w.open then w
      else
        var v := w.open[id];
        if v.good && v.token !in w.server.rows then w.(open := w.open - {id})
        else TxWorld(if v.good then CommitView(w.server, v) else w.server, w.open - {id}, w.done[id := v])
    case Abort(id) => w.(open := w.open - {id})
    case Other(step) => if step.RefreshToken? then w else w.(server := ServerNext(w.server, step))
  }

  function TxRun(steps: seq<TxStep>): TxWorld {
    if steps == [] then TxWorld(NEW_SERVER, map[], map[])
    else TxNext(TxRun(steps[..|steps| - 1]), steps[|steps| - 1])
  }

  /** Refresh `id` has committed and granted a new pair for `t`. */
  predicate Granting(w: TxWorld, id: nat, t: Token) {
    id in w.done && w.done[id].good && w.done[id].token == t
  }

  /** A token that can never be redeemed again by a refresh that has yet to read it. */
  predicate Used(s: Server, t: Token) {
    t < s.nextToken && (t in s.rows ==> s.rows[t].revokedAt.Some?)
  }

  ghost predicate ViewOk(w: TxWorld, v: View) {
    && v.committed <= w.done.Keys
    && (v.good ==> v.token < w.server.nextToken)
    && forall c | c in v.committed && Granting(w, c, v.token) :: !v.good
  }

  ghost predicate TxInv(w: TxWorld) {
    && (forall t | t in w.server.rows :: t < w.server.nextToken)
    && w.open.Keys !! w.done.Keys
    && (forall id | id in w.open :: ViewOk(w, w.open[id]))
    && (forall id | id in w.done :: ViewOk(w, w.done[id]))
    && (forall id | id in w.done && w.done[id].good :: Used(w.server, w.done[id].token))
  }

  lemma ReadInv(w: TxWorld, id: nat, t: Token)
    requires TxInv(w)
    ensures TxInv(TxNext(w, Read(id, t)))
  {
    var w' := TxNext(w, Read(id, t));
    forall x | x in w'.open ensures ViewOk(w', w'.open[x]) {
      assert x in w.open ==> ViewOk(w, w.open[x]);
      assert forall c, u :: Granting(w', c, u) <==> Granting(w, c, u);
    }
    forall x | x in w'.done ensures ViewOk(w', w'.done[x]) {
      assert ViewOk(w, w.done[x]);
    }
  }

  /** Whoever saw nothing of `id` is not affected by its commit. */
  lemma CommitKeepsView(w: TxWorld, id: nat, v: View)
    requires TxInv(w) && ViewOk(w, v)
    ensures ViewOk(TxNext(w, Commit(id)), v)
  {
    var w' := TxNext(w, Commit(id));
    forall c | c in v.committed && Granting(w', c, v.token) ensures !v.good {
      assert Granting(w, c, v.token);
    }
  }

  lemma CommitInv(w: TxWorld, id: nat)
    requires TxInv(w)
    ensures TxInv(TxNext(w, Commit(id)))
  {
    var w' := TxNext(w, Commit(id));
    forall x | x in w'.open ensures ViewOk(w', w'.open[x]) {
      CommitKeepsView(w, id, w.open[x]);
    }
    forall x | x in w'.done ensures ViewOk(w', w'.done[x]) {
      CommitKeepsView(w, id, if x in w.done then w.done[x] else w.open[x]);
    }
  }

  lemma ServerKeepsUsed(s: Server, step: ServerStep, t: Token)
    requires !step.RefreshToken? && Used(s, t)
    ensures Used(ServerNext(s, step), t)
  {
  }

  /** Nothing that the views speak of depends on the other requests. */
  lemma SameViews(w: TxWorld, w': TxWorld, v: View)
    requires ViewOk(w, v) && w'.done == w.done && w.server.nextToken <= w'.server.nextToken
    ensures ViewOk(w', v)
  {
    assert forall c :: Granting(w', c, v.token) <==> Granting(w, c, v.token);
  }

  lemma OtherInv(w: TxWorld, step: TxStep)
    requires TxInv(w) && (step.Abort? || step.Other?)
    ensures TxInv(TxNext(w, step))
  {
    var w' := TxNext(w, step);
    forall x | x in w'.open ensures ViewOk(w', w'.open[x]) {
      SameViews(w, w', w.open[x]);
    }
    forall x | x in w'.done ensures ViewOk(w', w'.done[x]) {
      SameViews(w, w', w.done[x]);
    }
    forall x | x in w'.done && w'.done[x].good ensures Used(w'.server, w'.done[x].token) {
      if step.Other? && !step.step.RefreshToken? {
        ServerKeepsUsed(w.server, step.step, w.done[x].token);
      }
    }
  }

  lemma {:induction false} TxRunInv(steps: seq<TxStep>)
    ensures TxInv(TxRun(steps))
  {
    if steps != [] {
      var w, step := TxRun(steps[..|steps| - 1]), steps[|steps| - 1];
      TxRunInv(steps[..|steps| - 1]);
      match step
      case Read(id, t) => ReadInv(w, id, t);
      case Commit(id) => CommitInv(w, id);
      case _ => OtherInv(w, step);
    }
  }

  /**
   Two refreshes that both exchange one token overlapped: neither had committed when the
   other read the row.
   */
  lemma DoubleGrantsOverlap(steps: seq<TxStep>, t: Token, a: nat, b: nat)
    requires Granting(TxRun(steps), a, t) && Granting(TxRun(steps), b, t)
    ensures var done := TxRun(steps).done; a !in done[b].committed && b !in done[a].committed
  {
    TxRunInv(steps);
    var w := TxRun(steps);
    assert ViewOk(w, w.done[a]) && ViewOk(w, w.done[b]);
  }

  /** The commit of a refresh that read a good token, whatever has become of it since, if its row is still there. */
  lemma CommitExact(w: TxWorld, id: nat)
    requires TxInv(w) && id in w.open && w.open[id].good && w.open[id].token in w.server.rows
    ensures var v, s, s' := w.open[id], w.server, TxNext(w, Commit(id)).server;
            && s.nextToken !in s.rows
            && s'.rows == s.rows[v.token := s.rows[v.token].(revokedAt := Some(v.time))]
                                [s.nextToken := TokenRow(s.rows[v.token].user, s.now + 1_209_600, None)]
            && s'.successor == s.successor[v.token := s.nextToken] && s'.nextToken == s.nextToken + 1
  {
  }

  /** An aborted refresh is forgotten and has changed nothing. */
  lemma AbortExact(w: TxWorld, id: nat)
    ensures var w' := TxNext(w, Abort(id));
            && w'.server == w.server && w'.done == w.done
            && forall x :: (x in w'.open <==> x in w.open && x != id) && (x in w'.open ==> w'.open[x] == w.open[x])
  {
  }

  ghost predicate TxUsers(w: TxWorld) {
    && SameUsers(w.server)
    && (forall t | t in w.server.rows :: t < w.server.nextToken)
    && (forall t | t in w.server.successor :: t < w.server.nextToken && w.server.successor[t] < w.server.nextToken)
  }

  lemma TxStepKeepsUsers(w: TxWorld, step: TxStep)
    requires TxUsers(w) && TxInv(w)
    ensures TxUsers(TxNext(w, step))
  {
  }

  lemma {:induction false} TxRunUsers(steps: seq<TxStep>)
    ensures TxUsers(TxRun(steps))
  {
    if steps != [] {
      TxRunUsers(steps[..|steps| - 1]);
      TxRunInv(steps[..|steps| - 1]);
      TxStepKeepsUsers(TxRun(steps[..|steps| - 1]), steps[|steps| - 1]);
    }
  }

  /** Overlapping refreshes, too, exchange a token for one of the same user. */
  lemma OverlapsKeepUser(steps: seq<TxStep>)
    ensures SameUsers(TxRun(steps).server)
  {
    TxRunUsers(steps);
  }

  lemma TxSnoc(steps: seq<TxStep>, step: TxStep) returns (longer: seq<TxStep>)
    ensures longer == steps + [step] && TxRun(longer) == TxNext(TxRun(steps), step)
  {
    longer := steps + [step];
    assert longer[..|steps|] == steps;
  }

  /** Refreshes 0, ..., n - 1 have read token 0 while it was good, and the first `k` of them have committed. */
  ghost predicate Overlapping(w: TxWorld, n: nat, k: nat) {
    && (forall id: nat :: id in w.open <==> k <= id < n)
    && (forall id: nat :: id in w.done <==> id < k)
    && (forall id | id in w.open :: w.open[id].good && w.open[id].token == 0)
    && (forall id | id in w.done :: Granting(w, id, 0))
    && 0 in w.server.rows && (k == 0 ==> Redeemable(w.server, 0)) && w.server.nextToken > 0
  }

  lemma {:induction false} AllHaveRead(n: nat) returns (steps: seq<TxStep>)
    ensures Overlapping(TxRun(steps), n, 0)
  {
    if n == 0 {
      steps := TxSnoc([], Other(SetActive(0, true)));
      assert TxRun([]) == TxWorld(NEW_SERVER, map[], map[]);
      steps := TxSnoc(steps, Other(Login(0)));
    } else {
      steps := AllHaveRead(n - 1);
      steps := TxSnoc(steps, Read(n - 1, 0));
    }
  }

  lemma {:induction false} SomeHaveCommitted(n: nat, k: nat) returns (steps: seq<TxStep>)
    requires k <= n
    ensures Overlapping(TxRun(steps), n, k)
  {
    if k == 0 {
      steps := AllHaveRead(n);
    } else {
      steps := SomeHaveCommitted(n, k - 1);
      steps := TxSnoc(steps, Commit(k - 1));
    }
  }

  /** Any number of overlapping refreshes can exchange one token. */
  lemma DoubleGrantsReached(n: nat) returns (steps: seq<TxStep>)
    ensures forall id: nat :: Granting(TxRun(steps), id, 0) <==> id < n
  {
    steps := SomeHaveCommitted(n, n);
  }
}
