/**
 One browser tab and the server: API calls that are answered 401 share a single
 refresh. Each step is one piece of JavaScript that runs to completion, the handling
 of one message by the server, or something the user or the environment does.
 */
module Session {
  import opened Wrappers
  import opened Sequences
  import opened Auth

  type CallId = nat

  /** The module variable `refreshPromise`. */
  datatype Promise = NoPromise | Unsettled | Settled(ok: bool)

  /**
   `Sent` waits for the answer to its request, which carries the pair whose refresh token
   is `under`, if the tab had one. `Awaiting` waits for the refresh, whose
   result is there once the promise has settled; the creator clears the variable.
   */
  datatype Call =
    | Sent(retried: bool, under: Option<Token>)
    | Awaiting(creator: bool, result: Option<bool>)
    | Returned

  /** The chat client sends refreshes of its own, outside the promise. */
  datatype Origin = Shared | Chat

  datatype Message = Request(origin: Origin, token: Token) | Response(origin: Origin, reply: Reply)

  /** `logins` are token pairs on their way to the tab, `logouts` revocations on their way to the server. */
  datatype Tab = Tab(store: Option<Token>, promise: Promise, calls: map<CallId, Call>)

  datatype World = World(server: Server, tab: Tab, messages: seq<Message>, logins: set<Token>, logouts: set<Token>)

  // ---- The tab ----

  /** A call is answered 401 for the first time: join the refresh or start one. */
  function Unauthorized(tab: Tab, call: CallId): (Tab, Option<Token>) {
    if tab.promise != NoPromise then
      var result := if tab.promise.Settled? then Some(tab.promise.ok) else None;
      (tab.(calls := tab.calls[call := Awaiting(false, result)]), None)
    else if tab.store.None? then
      (tab.(promise := Settled(false), calls := tab.calls[call := Awaiting(true, Some(false))]), None)
    else
      (tab.(promise := Unsettled, calls := tab.calls[call := Awaiting(true, None)]), tab.store)
  }

  /** The promise settles: everyone who awaits it gets the result. */
  function Settle(tab: Tab, ok: bool): Tab {
    tab.(promise := Settled(ok),
         calls := map c | c in tab.calls ::
                    if tab.calls[c].Awaiting? && tab.calls[c].result.None? then tab.calls[c].(result := Some(ok))
                    else tab.calls[c])
  }

  function AfterReply(tab: Tab, reply: Reply): Tab {
    Settle(tab.(store := if reply.Granted? then Some(reply.token) else None), reply.Granted?)
  }

  /** A waiting call goes on: the creator clears the variable, and a success is followed by one retry. */
  function Resumed(tab: Tab, call: CallId): Tab
    requires call in tab.calls && tab.calls[call].Awaiting? && tab.calls[call].result.Some?
  {
    var c := tab.calls[call];
    tab.(promise := if c.creator then NoPromise else tab.promise,
         calls := tab.calls[call := if c.result.value then Sent(true, tab.store) else Returned])
  }

  /** The same in the form of the client module. */
  class Client {
    var store: Option<Token>
    var promise: Promise
    var calls: map<CallId, Call>

    function State(): Tab
      reads this
    {
      Tab(store, promise, calls)
    }

    constructor ()
      ensures State() == Tab(None, NoPromise, map[])
    {
      store, promise, calls := None, NoPromise, map[];
    }

    method SetTokens(t: Token)
      modifies this`store
      ensures State() == old(State()).(store := Some(t))
    {
      store := Some(t);
    }

    method Clear()
      modifies this`store
      ensures State() == old(State()).(store := None)
    {
      store := None;
    }

    /** `refreshAccessToken` up to its first wait; `send` is the token to present to the server. */
    method RefreshAccessToken(call: CallId) returns (send: Option<Token>)
      modifies this
      ensures (State(), send) == Unauthorized(old(State()), call)
      ensures send == if old(promise) == NoPromise then old(store) else None
      ensures store == old(store) && (promise == old(promise) || old(promise) == NoPromise)
      ensures call in calls && calls[call].Awaiting? && (calls[call].creator <==> old(promise) == NoPromise)
    {
      if promise != NoPromise {
        calls := calls[call := Awaiting(false, if promise.Settled? then Some(promise.ok) else None)];
        return None;
      }
      var refreshToken := store;
      if refreshToken.None? {
        promise := Settled(false);
        calls := calls[call := Awaiting(true, Some(false))];
        return None;
      }
      promise := Unsettled;
      calls := calls[call := Awaiting(true, None)];
      return refreshToken;
    }

    method OnReply(reply: Reply)
      modifies this
      ensures State() == AfterReply(old(State()), reply)
      ensures store == (if reply.Granted? then Some(reply.token) else None) && promise == Settled(reply.Granted?)
      ensures calls.Keys == old(calls).Keys
      ensures forall c | c in old(calls) ::
                calls[c] == match old(calls)[c]
                            case Awaiting(creator, None) => Awaiting(creator, Some(reply.Granted?))
                            case other => other
    {
      if reply.Granted? {
        SetTokens(reply.token);
      } else {
        Clear();
      }
      promise := Settled(reply.Granted?);
      calls := map c | c in calls ::
                 if calls[c].Awaiting? && calls[c].result.None? then calls[c].(result := Some(reply.Granted?))
                 else calls[c];
    }

    method Resume(call: CallId)
      requires call in calls && calls[call].Awaiting? && calls[call].result.Some?
      modifies this
      ensures State() == Resumed(old(State()), call)
      ensures store == old(store) && promise == if old(calls)[call].creator then NoPromise else old(promise)
      ensures calls == old(calls)[call := if old(calls)[call].result.value then Sent(true, store) else Returned]
    {
      var c := calls[call];
      if c.creator {
        promise := NoPromise;
      }
      calls := calls[call := if c.result.value then Sent(true, store) else Returned];
    }
  }

  // ---- Tab and server together ----

  datatype Step =
    | Start(call: CallId)
    | Answer(call: CallId, unauthorized: bool)
    | Resume(call: CallId)
    | Handle(i: nat, throttled: bool)
    | Deliver(i: nat)
    | NeverArrives(i: nat)
    | LoseReply(i: nat)
    | ChatRefresh
    | SignIn(user: User)
    | SignedIn(token: Token)
    | SignOut
    | HandleSignOut(token: Token)
    | ClearStore
    | ServerSide(step: ServerStep)

  function RemoveAt(messages: seq<Message>, i: nat): seq<Message>
    requires i < |messages|
  {
    messages[..i] + messages[i + 1..]
  }

  function AnswerCall(w: World, call: CallId, unauthorized: bool): World
    requires call in w.tab.calls && w.tab.calls[call].Sent?
  {
    if unauthorized && !w.tab.calls[call].retried then
      var (tab, send) := Unauthorized(w.tab, call);
      w.(tab := tab, messages := if send.Some? then w.messages + [Request(Shared, send.value)] else w.messages)
    else w.(tab := w.tab.(calls := w.tab.calls[call := Returned]))
  }

  function HandleRequest(w: World, i: nat, throttled: bool): World
    requires i < |w.messages| && w.messages[i].Request?
  {
    var m := w.messages[i];
    var (server, reply) := if throttled then (w.server, Denied(TOO_MANY_REQUESTS)) else Refreshed(w.server, m.token);
    w.(server := server, messages := w.messages[i := Response(m.origin, reply)])
  }

  /** The chat client stores a granted pair and ignores a refusal. */
  function DeliverReply(w: World, i: nat): World
    requires i < |w.messages| && w.messages[i].Response?
  {
    var m := w.messages[i];
    w.(messages := RemoveAt(w.messages, i),
       tab := if m.origin == Shared then AfterReply(w.tab, m.reply)
              else if m.reply.Granted? then w.tab.(store := Some(m.reply.token)) else w.tab)
  }

  /** The connection fails; only the shared refresh has a promise to settle. */
  function Dropped(w: World, i: nat): World
    requires i < |w.messages|
  {
    w.(messages := RemoveAt(w.messages, i),
       tab := if w.messages[i].origin == Shared then Settle(w.tab, false) else w.tab)
  }

  /** A step that is not possible changes nothing. */
  function Next(w: World, step: Step): World {
    match step
    case Start(call) =>
      if call in w.tab.calls then w else w.(tab := w.tab.(calls := w.tab.calls[call := Sent(false, w.tab.store)]))
    case Answer(call, unauthorized) =>
      if call in w.tab.calls && w.tab.calls[call].Sent? then AnswerCall(w, call, unauthorized) else w
    case Resume(call) =>
      if call in w.tab.calls && w.tab.calls[call].Awaiting? && w.tab.calls[call].result.Some?
      then w.(tab := Resumed(w.tab, call)) else w
    case Handle(i, throttled) =>
      if i < |w.messages| && w.messages[i].Request? then HandleRequest(w, i, throttled) else w
    case Deliver(i) => if i < |w.messages| && w.messages[i].Response? then DeliverReply(w, i) else w
    case NeverArrives(i) => if i < |w.messages| && w.messages[i].Request? then Dropped(w, i) else w
    case LoseReply(i) => if i < |w.messages| && w.messages[i].Response? then Dropped(w, i) else w
    case ChatRefresh =>
      if w.tab.store.Some? then w.(messages := w.messages + [Request(Chat, w.tab.store.value)]) else w
    case SignIn(user) =>
      if user in w.server.active && w.server.active[user]
      then w.(server := Issued(w.server, user), logins := w.logins + {w.server.nextToken}) else w
    case SignedIn(t) =>
      if t in w.logins then w.(logins := w.logins - {t}, tab := w.tab.(store := Some(t))) else w
    case SignOut =>
      if w.tab.store.Some? then w.(tab := w.tab.(store := None), logouts := w.logouts + {w.tab.store.value}) else w
    case HandleSignOut(t) =>
      if t in w.logouts then w.(server := LoggedOut(w.server, t), logouts := w.logouts - {t}) else w
    case ClearStore => w.(tab := w.tab.(store := None))
    case ServerSide(step) => if step.RefreshToken? then w else w.(server := ServerNext(w.server, step))
  }

  const NEW_WORLD := World(NEW_SERVER, Tab(None, NoPromise, map[]), [], {}, {})

  function Run(steps: seq<Step>): World {
    if steps == [] then NEW_WORLD else Next(Run(steps[..|steps| - 1]), steps[|steps| - 1])
  }

  /** Only API calls refresh, and no answer of the server to a refresh is lost. */
  predicate Orderly(step: Step) {
    !step.ChatRefresh? && !step.LoseReply?
  }

  // ---- What holds in orderly runs ----

  ghost predicate NotRedeemed(w: World, t: Token) {
    t !in w.server.successor && t < w.server.nextToken
  }

  /** At most one refresh is under way, and it is the one of the promise. */
  ghost predicate SingleFlight(w: World) {
    && |w.messages| == (if w.tab.promise.Unsettled? then 1 else 0)
    && (w.messages != [] ==> w.messages[0].origin == Shared)
  }

  /** Tokens that can be presented later are the newest of their lineages. */
  ghost predicate Newest(w: World) {
    && ServerInv(w.server)
    && (forall t | t in w.logins :: NotRedeemed(w, t) && w.tab.store != Some(t))
    && (forall t | t in w.logins && w.messages != [] ::
          w.messages[0] != Request(Shared, t) && w.messages[0] != Response(Shared, Granted(t)))
    && (w.messages != [] && w.messages[0].Request? ==> NotRedeemed(w, w.messages[0].token))
    && (w.messages != [] && w.messages[0].Response? && w.messages[0].reply.Granted? ==>
          NotRedeemed(w, w.messages[0].reply.token) && w.tab.store != Some(w.messages[0].reply.token))
    && (w.tab.store.Some? ==> w.tab.store.value < w.server.nextToken)
    && (w.tab.store.Some? ==>
          NotRedeemed(w, w.tab.store.value)
          || (w.messages != [] && w.messages[0].Response? && w.messages[0].reply.Granted?))
  }

  /** Everyone who waits will be woken: the promise is unsettled, or the result is there. */
  ghost predicate NobodyStranded(w: World) {
    && (forall c | c in w.tab.calls && w.tab.calls[c].Awaiting? && w.tab.calls[c].result.None?
        :: w.tab.promise.Unsettled?)
    && (w.tab.promise != NoPromise ==> exists c :: IsCreator(w, c))
    && (forall c | IsCreator(w, c) :: w.tab.promise != NoPromise)
    && (forall c, d | IsCreator(w, c) && IsCreator(w, d) :: c == d)
    && (forall c | IsCreator(w, c) && w.tab.calls[c].result.Some? :: w.tab.promise.Settled?)
  }

  ghost predicate IsCreator(w: World, c: CallId) {
    c in w.tab.calls && w.tab.calls[c].Awaiting? && w.tab.calls[c].creator
  }

  ghost predicate Inv(w: World) {
    SingleFlight(w) && Newest(w) && NobodyStranded(w)
  }

  lemma StartInv(w: World, call: CallId)
    requires Inv(w)
    ensures Inv(Next(w, Start(call)))
  {
    var w' := Next(w, Start(call));
    if w.tab.promise != NoPromise {
      var c :| IsCreator(w, c);
      assert IsCreator(w', c);
    }
    assert forall c | IsCreator(w', c) :: IsCreator(w, c);
  }

  lemma AnswerInv(w: World, call: CallId, unauthorized: bool)
    requires Inv(w)
    ensures Inv(Next(w, Answer(call, unauthorized)))
  {
    var w' := Next(w, Answer(call, unauthorized));
    if w' != w {
      if w.tab.promise != NoPromise {
        var c :| IsCreator(w, c);
        assert IsCreator(w', c);
        assert forall d | IsCreator(w', d) :: IsCreator(w, d);
      } else if w'.tab.promise != NoPromise {
        assert IsCreator(w', call);
        assert forall d | IsCreator(w', d) :: d == call || IsCreator(w, d);
      } else {
        assert forall d | IsCreator(w', d) :: IsCreator(w, d);
      }
    }
  }

  lemma ResumeInv(w: World, call: CallId)
    requires Inv(w)
    ensures Inv(Next(w, Resume(call)))
  {
    var w' := Next(w, Resume(call));
    if w' != w {
      assert forall d | IsCreator(w', d) :: IsCreator(w, d) && d != call;
      if w.tab.calls[call].creator {
        assert IsCreator(w, call);
      } else if w.tab.promise != NoPromise {
        var c :| IsCreator(w, c);
        assert IsCreator(w', c);
      }
    }
  }

  /** Settling needs the promise to be unsettled, so nobody waits for another one. */
  lemma SettleInv(w: World, w': World, ok: bool)
    requires Inv(w) && w.tab.promise.Unsettled?
    requires w'.tab == Settle(w.tab.(store := w'.tab.store), ok) && w'.messages == []
    requires w'.server == w.server && w'.logins == w.logins
    requires w'.tab.store.Some? ==>
               || (w'.tab.store == w.tab.store && NotRedeemed(w, w.tab.store.value))
               || w.messages[0] == Response(Shared, Granted(w'.tab.store.value))
    ensures Inv(w')
  {
    var c :| IsCreator(w, c);
    assert IsCreator(w', c);
    assert forall d | IsCreator(w', d) :: IsCreator(w, d);
  }

  lemma DeliverInv(w: World, i: nat)
    requires Inv(w)
    ensures Inv(Next(w, Deliver(i)))
  {
    var w' := Next(w, Deliver(i));
    if i < |w.messages| && w.messages[i].Response? {
      SettleInv(w, w', w.messages[0].reply.Granted?);
    }
  }

  lemma NeverArrivesInv(w: World, i: nat)
    requires Inv(w)
    ensures Inv(Next(w, NeverArrives(i)))
  {
    var w' := Next(w, NeverArrives(i));
    if i < |w.messages| && w.messages[i].Request? {
      SettleInv(w, w', false);
    }
  }

  lemma SameTabCreators(w: World, w': World)
    requires NobodyStranded(w) && w'.tab.promise == w.tab.promise && w'.tab.calls == w.tab.calls
    ensures NobodyStranded(w')
  {
    assert forall c :: IsCreator(w', c) <==> IsCreator(w, c);
  }

  lemma HandleInv(w: World, i: nat, throttled: bool)
    requires Inv(w)
    ensures Inv(Next(w, Handle(i, throttled)))
  {
    var w' := Next(w, Handle(i, throttled));
    SameTabCreators(w, w');
    if i < |w.messages| && w.messages[i].Request? {
      assert i == 0 && w'.messages == [w'.messages[0]];
      ServerStepInv(w.server, RefreshToken(w.messages[0].token));
    }
  }

  /** The server alone moves: it redeems nothing and takes no token back. */
  lemma ServerSideInv(w: World, w': World, step: ServerStep)
    requires Inv(w) && !step.RefreshToken?
    requires w'.server == ServerNext(w.server, step) && w'.tab == w.tab
             && w'.messages == w.messages && w'.logins == w.logins
    ensures Inv(w')
  {
    SameTabCreators(w, w');
    ServerStepInv(w.server, step);
  }

  lemma SignInInv(w: World, user: User)
    requires Inv(w)
    ensures Inv(Next(w, SignIn(user)))
  {
    SameTabCreators(w, Next(w, SignIn(user)));
    ServerStepInv(w.server, Login(user));
  }

  lemma StoreInv(w: World, step: Step)
    requires Inv(w) && (step.SignedIn? || step.SignOut? || step.ClearStore?)
    ensures Inv(Next(w, step))
  {
    SameTabCreators(w, Next(w, step));
  }

  lemma {:induction false} OrderlyRuns(steps: seq<Step>)
    requires forall step | step in steps :: Orderly(step)
    ensures Inv(Run(steps))
  {
    if steps != [] {
      var before, step := steps[..|steps| - 1], steps[|steps| - 1];
      assert forall s | s in before :: s in steps;
      OrderlyRuns(before);
      assert step in steps;
      var w := Run(before);
      match step
      case Start(call) => StartInv(w, call);
      case Answer(call, unauthorized) => AnswerInv(w, call, unauthorized);
      case Resume(call) => ResumeInv(w, call);
      case Handle(i, throttled) => HandleInv(w, i, throttled);
      case Deliver(i) => DeliverInv(w, i);
      case NeverArrives(i) => NeverArrivesInv(w, i);
      case SignIn(user) => SignInInv(w, user);
      case HandleSignOut(t) => if t in w.logouts { ServerSideInv(w, Next(w, step), Logout(t)); }
      case ServerSide(s) => if !s.RefreshToken? { ServerSideInv(w, Next(w, step), s); }
      case _ => StoreInv(w, step);
    }
  }

  // ---- Theorems ----

  /**
   In every orderly run at most one refresh is under way, however many calls were
   answered 401, and everyone who waits for it will get its result.
   */
  lemma AtMostOneRefresh(steps: seq<Step>)
    requires forall step | step in steps :: Orderly(step)
    ensures var w := Run(steps);
            && |w.messages| <= 1
            && (forall c | c in w.tab.calls && w.tab.calls[c].Awaiting? && w.tab.calls[c].result.None?
                :: |w.messages| == 1)
            && (w.tab.promise != NoPromise ==> exists c :: IsCreator(w, c))
  {
    OrderlyRuns(steps);
  }

  /** While no refresh is under way the stored token is the newest of its lineage. */
  lemma StoredTokenIsNewest(steps: seq<Step>)
    requires forall step | step in steps :: Orderly(step)
    ensures var w := Run(steps);
            w.messages == [] && w.tab.store.Some? ==> w.tab.store.value !in w.server.successor
  {
    OrderlyRuns(steps);
  }

  /** Why the server may refuse a token that it issued, apart from its having been exchanged. */
  ghost predicate Excused(s: Auth.Server, t: Token) {
    || t !in s.rows                                // its user was removed
    || s.rows[t].expiresAt <= s.now
    || t in s.loggedOut
    || s.rows[t].user !in s.active || !s.active[s.rows[t].user]
  }

  lemma RedeemableUnlessExcused(s: Auth.Server, t: Token)
    requires ServerInv(s) && t !in s.successor
    ensures Redeemable(s, t) <==> !Excused(s, t)
  {
  }

  /**
   In every orderly run the server refuses a refresh only because of expiry, logout,
   or deactivation or removal of the user: never because the token was used before.
   */
  lemma RefreshFailsOnlyIfExcused(steps: seq<Step>, i: nat)
    requires forall step | step in steps :: Orderly(step)
    requires i < |Run(steps).messages| && Run(steps).messages[i].Request?
    ensures var w := Run(steps);
            Refreshed(w.server, w.messages[i].token).1 == Denied(UNAUTHORIZED)
            <==> Excused(w.server, w.messages[i].token)
  {
    OrderlyRuns(steps);
    RedeemableUnlessExcused(Run(steps).server, Run(steps).messages[i].token);
  }

  // ---- How often a pair is refreshed ----

  /**
   A refresh, by the call that started it, the pair that this call was sent under,
   and whether its creator has gone on.
   */
  datatype Flight = Flight(creator: CallId, under: Option<Token>, ended: bool)

  /** The first 401 of this call makes it the creator of a refresh. */
  ghost predicate StartsRefresh(w: World, call: CallId) {
    && call in w.tab.calls && w.tab.calls[call].Sent? && !w.tab.calls[call].retried
    && IsCreator(Next(w, Answer(call, true)), call)
  }

  ghost function Advanced(w: World, flights: seq<Flight>, step: Step): seq<Flight> {
    if step.Answer? && step.unauthorized && StartsRefresh(w, step.call) then
      flights + [Flight(step.call, w.tab.calls[step.call].under, false)]
    else if step.Resume? && IsCreator(w, step.call) && !IsCreator(Next(w, step), step.call) then
      Ended(flights, step.call)
    else flights
  }

  function Ended(flights: seq<Flight>, call: CallId): seq<Flight> {
    seq(|flights|, i requires 0 <= i < |flights| =>
      if flights[i].creator == call then flights[i].(ended := true) else flights[i])
  }

  /** All refreshes of a run, in the order in which they were started. */
  ghost function Flights(steps: seq<Step>): seq<Flight> {
    if steps == [] then []
    else Advanced(Run(steps[..|steps| - 1]), Flights(steps[..|steps| - 1]), steps[|steps| - 1])
  }

  ghost predicate UnderWay(flights: seq<Flight>) {
    flights != [] && !flights[|flights| - 1].ended
  }

  /** Only the last refresh can be under way, and the promise and its creator are those of that one. */
  ghost predicate FlightInv(w: World, flights: seq<Flight>) {
    && (forall i | 0 <= i < |flights| - 1 :: flights[i].ended)
    && (UnderWay(flights) <==> w.tab.promise != NoPromise)
    && (forall c :: IsCreator(w, c) <==> UnderWay(flights) && c == flights[|flights| - 1].creator)
  }

  ghost predicate IsShared(w: World, i: nat) {
    i < |w.messages| && w.messages[i].origin == Shared
  }

  /** At most one message belongs to the promise, which is unsettled as long as there is one. */
  ghost predicate SharedInv(w: World) {
    && (forall i: nat | IsShared(w, i) :: w.tab.promise.Unsettled?)
    && (forall i: nat, j: nat | IsShared(w, i) && IsShared(w, j) :: i == j)
    && (forall c | IsCreator(w, c) && w.tab.calls[c].result.Some? :: w.tab.promise.Settled?)
  }

  lemma SameCreators(w: World, step: Step)
    requires !step.Answer? && !step.Resume?
    ensures forall c :: IsCreator(Next(w, step), c) <==> IsCreator(w, c)
  {
  }

  /** Message `i` leaves, and settles the promise if it belongs to it. */
  lemma RemovedShared(w: World, w': World, i: nat)
    requires SharedInv(w) && i < |w.messages| && w'.messages == RemoveAt(w.messages, i)
    requires if IsShared(w, i) then w'.tab.promise.Settled?
             else w'.tab.promise == w.tab.promise && w'.tab.calls == w.tab.calls
    ensures SharedInv(w')
  {
    forall j: nat | IsShared(w', j) ensures IsShared(w, if j < i then j else j + 1) {
    }
  }

  lemma DepartureShared(w: World, step: Step, i: nat)
    requires SharedInv(w) && (step == Deliver(i) || step == NeverArrives(i) || step == LoseReply(i))
    ensures SharedInv(Next(w, step))
  {
    var w' := Next(w, step);
    if w' != w {
      RemovedShared(w, w', i);
    }
  }

  lemma AnswerShared(w: World, flights: seq<Flight>, call: CallId, unauthorized: bool)
    requires FlightInv(w, flights) && SharedInv(w)
    ensures SharedInv(Next(w, Answer(call, unauthorized)))
  {
    var w' := Next(w, Answer(call, unauthorized));
    assert forall c | c != call :: IsCreator(w', c) <==> IsCreator(w, c);
    forall j: nat | IsShared(w', j) ensures IsShared(w, j) || (j == |w.messages| && w.tab.promise == NoPromise) {
    }
  }

  lemma ResumeShared(w: World, flights: seq<Flight>, call: CallId)
    requires FlightInv(w, flights) && SharedInv(w)
    ensures SharedInv(Next(w, Resume(call)))
  {
    var w' := Next(w, Resume(call));
    if w' != w {
      assert forall c :: IsCreator(w', c) <==> IsCreator(w, c) && c != call;
      assert forall j: nat :: IsShared(w', j) <==> IsShared(w, j);
      assert IsCreator(w, call) ==> w.tab.promise.Settled?;
    }
  }

  lemma SharedStep(w: World, flights: seq<Flight>, step: Step)
    requires FlightInv(w, flights) && SharedInv(w)
    ensures SharedInv(Next(w, step))
  {
    match step
    case Answer(call, unauthorized) => AnswerShared(w, flights, call, unauthorized);
    case Resume(call) => ResumeShared(w, flights, call);
    case Deliver(i) => DepartureShared(w, step, i);
    case NeverArrives(i) => DepartureShared(w, step, i);
    case LoseReply(i) => DepartureShared(w, step, i);
    case _ =>
      var w' := Next(w, step);
      SameCreators(w, step);
      assert forall j: nat :: IsShared(w', j) <==> IsShared(w, j);
  }

  lemma AnswerFlights(w: World, flights: seq<Flight>, call: CallId, unauthorized: bool)
    requires FlightInv(w, flights)
    ensures FlightInv(Next(w, Answer(call, unauthorized)), Advanced(w, flights, Answer(call, unauthorized)))
  {
    var w', next := Next(w, Answer(call, unauthorized)), Advanced(w, flights, Answer(call, unauthorized));
    assert forall c | c != call :: IsCreator(w', c) <==> IsCreator(w, c);
    if unauthorized && StartsRefresh(w, call) {
      assert w.tab.promise == NoPromise && !UnderWay(flights);
      assert next[|next| - 1].creator == call && forall i | 0 <= i < |flights| :: next[i] == flights[i];
    } else {
      assert next == flights && (IsCreator(w', call) <==> IsCreator(w, call));
    }
  }

  lemma ResumeFlights(w: World, flights: seq<Flight>, call: CallId)
    requires FlightInv(w, flights)
    ensures FlightInv(Next(w, Resume(call)), Advanced(w, flights, Resume(call)))
  {
    var w', next := Next(w, Resume(call)), Advanced(w, flights, Resume(call));
    assert forall c | c != call :: IsCreator(w', c) <==> IsCreator(w, c);
    if IsCreator(w, call) && !IsCreator(w', call) {
      assert next == Ended(flights, call) && !UnderWay(next);
    } else {
      assert next == flights && (IsCreator(w', call) <==> IsCreator(w, call));
    }
  }

  lemma OtherFlights(w: World, flights: seq<Flight>, step: Step)
    requires FlightInv(w, flights) && SharedInv(w) && !step.Answer? && !step.Resume?
    ensures FlightInv(Next(w, step), Advanced(w, flights, step))
  {
    SameCreators(w, step);
    match step
    case Deliver(i) => assert IsShared(w, i) ==> w.tab.promise.Unsettled?;
    case NeverArrives(i) => assert IsShared(w, i) ==> w.tab.promise.Unsettled?;
    case LoseReply(i) => assert IsShared(w, i) ==> w.tab.promise.Unsettled?;
    case _ =>
  }

  lemma {:induction false} RunFlights(steps: seq<Step>)
    ensures FlightInv(Run(steps), Flights(steps)) && SharedInv(Run(steps))
  {
    if steps != [] {
      var before, step := steps[..|steps| - 1], steps[|steps| - 1];
      RunFlights(before);
      SharedStep(Run(before), Flights(before), step);
      match step
      case Answer(call, unauthorized) => AnswerFlights(Run(before), Flights(before), call, unauthorized);
      case Resume(call) => ResumeFlights(Run(before), Flights(before), call);
      case _ => OtherFlights(Run(before), Flights(before), step);
    }
  }

  /** In every run, orderly or not, at most one message on its way belongs to the shared refresh. */
  lemma OneSharedRefresh(steps: seq<Step>)
    ensures forall i: nat, j: nat | IsShared(Run(steps), i) && IsShared(Run(steps), j) :: i == j
  {
    RunFlights(steps);
  }

  /**
   In every run the first 401 of a call starts a refresh exactly when the creators of all
   refreshes started before have gone on, whatever pairs those were for. It is presented to the
   server if the tab has a token.
   */
  lemma {:induction false} RefreshStartsExactly(steps: seq<Step>, call: CallId)
    requires var calls := Run(steps).tab.calls; call in calls && calls[call].Sent? && !calls[call].retried
    ensures var w, flights := Run(steps), Flights(steps);
            var w' := Next(w, Answer(call, true));
            && (StartsRefresh(w, call) <==> forall f | f in flights :: f.ended)
            && (|w'.messages| > |w.messages| <==> StartsRefresh(w, call) && w.tab.store.Some?)
  {
    RunFlights(steps);
  }

  lemma ExtendFlights(steps: seq<Step>, step: Step)
    ensures Flights(steps + [step]) == Advanced(Run(steps), Flights(steps), step)
  {
    assert (steps + [step])[..|steps|] == steps;
  }

  ghost function FlightsFor(flights: seq<Flight>, pair: Token): nat {
    if flights == [] then 0
    else FlightsFor(flights[..|flights| - 1], pair) + if flights[|flights| - 1].under == Some(pair) then 1 else 0
  }

  /**
   A call that was sent under the pair of the last refresh starts one more refresh for that pair
   exactly when its 401 arrives after the creator of that refresh has gone on; before, it joins.
   */
  lemma {:induction false} SecondRefreshExactly(steps: seq<Step>, call: CallId, pair: Token)
    requires Run(steps).tab.calls.Keys >= {call} && Run(steps).tab.calls[call] == Sent(false, Some(pair))
    requires Flights(steps) != [] && Flights(steps)[|Flights(steps)| - 1].under == Some(pair)
    ensures var flights := Flights(steps);
            FlightsFor(Flights(steps + [Answer(call, true)]), pair)
            == FlightsFor(flights, pair) + if flights[|flights| - 1].ended then 1 else 0
  {
    RefreshStartsExactly(steps, call);
    RunFlights(steps);
    ExtendFlights(steps, Answer(call, true));
    FlightsForSnoc(Flights(steps), Flight(call, Some(pair), false), pair);
  }

  lemma FlightsForSnoc(flights: seq<Flight>, f: Flight, pair: Token)
    ensures FlightsFor(flights + [f], pair) == FlightsFor(flights, pair) + if f.under == Some(pair) then 1 else 0
  {
    assert (flights + [f])[..|flights|] == flights;
  }

  // ---- What the conditions are for ----

  lemma Extend(steps: seq<Step>, step: Step) returns (longer: seq<Step>)
    ensures longer == steps + [step] && Run(longer) == Next(Run(steps), step)
  {
    longer := steps + [step];
    assert longer[..|steps|] == steps;
  }

  /** The steps of `path` lead through these worlds. */
  ghost predicate LeadsThrough(path: seq<Step>, worlds: seq<World>) {
    |worlds| == |path| + 1 && forall i | 0 <= i < |path| :: StepLeads(path, worlds, i)
  }

  ghost predicate StepLeads(path: seq<Step>, worlds: seq<World>, i: nat)
    requires i < |path| && |worlds| == |path| + 1
  {
    Next(worlds[i], path[i]) == worlds[i + 1]
  }

  lemma {:induction false} RunsThrough(start: seq<Step>, path: seq<Step>, worlds: seq<World>)
    requires LeadsThrough(path, worlds) && Run(start) == worlds[0]
    ensures Run(start + path) == worlds[|path|]
  {
    if path == [] {
      assert start + path == start;
    } else {
      var n := |path| - 1;
      assert LeadsThrough(path[..n], worlds[..|path|]) by {
        forall i | 0 <= i < n ensures StepLeads(path[..n], worlds[..|path|], i) {
          assert StepLeads(path, worlds, i);
        }
      }
      RunsThrough(start, path[..n], worlds[..|path|]);
      assert StepLeads(path, worlds, n);
      var before := Extend(start + path[..n], path[n]);
      LastApart(start, path);
    }
  }

  /** The same for the refreshes. */
  ghost predicate FlightLeads(path: seq<Step>, worlds: seq<World>, flights: seq<seq<Flight>>, i: nat)
    requires i < |path| && |worlds| == |flights| == |path| + 1
  {
    Advanced(worlds[i], flights[i], path[i]) == flights[i + 1]
  }

  /** The two of them, up to the worlds and refreshes after the path. */
  ghost predicate FlightsLead(path: seq<Step>, worlds: seq<World>, flights: seq<seq<Flight>>) {
    && LeadsThrough(path, worlds) && |flights| == |worlds|
    && forall i | 0 <= i < |path| :: FlightLeads(path, worlds, flights, i)
  }

  lemma FlightsLeadBefore(path: seq<Step>, worlds: seq<World>, flights: seq<seq<Flight>>)
    requires FlightsLead(path, worlds, flights) && path != []
    ensures FlightsLead(path[..|path| - 1], worlds[..|path|], flights[..|path|])
  {
    var n := |path| - 1;
    var path', worlds', flights' := path[..n], worlds[..n + 1], flights[..n + 1];
    forall i | 0 <= i < n ensures StepLeads(path', worlds', i) && FlightLeads(path', worlds', flights', i) {
      assert StepLeads(path, worlds, i) && FlightLeads(path, worlds, flights, i);
    }
  }

  lemma LastFlight(steps: seq<Step>, path: seq<Step>, worlds: seq<World>, flights: seq<seq<Flight>>, n: nat)
    requires n < |path| && |worlds| == |flights| == |path| + 1 && FlightLeads(path, worlds, flights, n)
    requires Run(steps) == worlds[n] && Flights(steps) == flights[n]
    ensures Flights(steps + [path[n]]) == flights[n + 1]
  {
    ExtendFlights(steps, path[n]);
  }

  lemma {:induction false} FlightsThrough(start: seq<Step>, path: seq<Step>, worlds: seq<World>,
                                         flights: seq<seq<Flight>>)
    requires FlightsLead(path, worlds, flights)
    requires Run(start) == worlds[0] && Flights(start) == flights[0]
    ensures Flights(start + path) == flights[|path|]
  {
    if path == [] {
      assert start + path == start;
    } else {
      var n := |path| - 1;
      FlightsLeadBefore(path, worlds, flights);
      FlightsThrough(start, path[..n], worlds[..n + 1], flights[..n + 1]);
      RunsThrough(start, path[..n], worlds[..n + 1]);
      LastFlight(start + path[..n], path, worlds, flights, n);
      LastApart(start, path);
    }
  }

  const ROW := TokenRow(0, REFRESH_TTL, None)
  const USED_ROW := TokenRow(0, REFRESH_TTL, Some(0))
  const SIGNED_IN := Auth.Server(map[0 := ROW], map[0 := true], 1, 0, map[], {})
  const ROTATED := Auth.Server(map[0 := USED_ROW, 1 := ROW], map[0 := true], 2, 0, map[0 := 1], {})
  const ROTATED_TWICE := Auth.Server(map[0 := USED_ROW, 1 := USED_ROW, 2 := ROW],
                                     map[0 := true], 3, 0, map[0 := 1, 1 := 2], {})

  /** User 0 has signed in with token 0, and call 0 is under way. */
  const ONE_CALL := World(SIGNED_IN, Tab(Some(0), NoPromise, map[0 := Sent(false, Some(0))]), [], {}, {})

  const SIGN_IN := [ServerSide(SetActive(0, true)), SignIn(0), SignedIn(0), Start(0)]
  const SIGN_IN_WORLDS := [NEW_WORLD,
                           NEW_WORLD.(server := NEW_SERVER.(active := map[0 := true])),
                           World(SIGNED_IN, Tab(None, NoPromise, map[]), [], {0}, {}),
                           World(SIGNED_IN, Tab(Some(0), NoPromise, map[]), [], {}, {}),
                           ONE_CALL]

  lemma {:induction false} SignedInWorld()
    ensures Run(SIGN_IN) == ONE_CALL && Flights(SIGN_IN) == []
  {
    assert LeadsThrough(SIGN_IN, SIGN_IN_WORLDS) by {
      forall i | 0 <= i < |SIGN_IN| ensures StepLeads(SIGN_IN, SIGN_IN_WORLDS, i) {
      }
    }
    RunsThrough([], SIGN_IN, SIGN_IN_WORLDS);
    assert [] + SIGN_IN == SIGN_IN;
    NoFlights(SIGN_IN);
  }

  /** Without a 401 there is no refresh. */
  lemma {:induction false} NoFlights(steps: seq<Step>)
    requires forall i | 0 <= i < |steps| :: !steps[i].Answer? && !steps[i].Resume?
    ensures Flights(steps) == []
  {
    if steps != [] {
      NoFlights(steps[..|steps| - 1]);
    }
  }

  // Call 1 is sent under the same pair. The 401 of call 0 starts a refresh, the server answers
  // it, the tab stores the new pair, and call 0 goes on; only then comes the 401 of call 1.
  const TWO_CALLS := World(SIGNED_IN, Tab(Some(0), NoPromise,
                                          map[0 := Sent(false, Some(0)), 1 := Sent(false, Some(0))]),
                           [], {}, {})
  const WAITING := Tab(Some(0), Unsettled, map[0 := Awaiting(true, None), 1 := Sent(false, Some(0))])
  const REQUESTED := World(SIGNED_IN, WAITING, [Request(Shared, 0)], {}, {})
  const GRANTED := World(ROTATED, WAITING, [Response(Shared, Granted(1))], {}, {})
  const DELIVERED := World(ROTATED, Tab(Some(1), Settled(true),
                                        map[0 := Awaiting(true, Some(true)), 1 := Sent(false, Some(0))]),
                           [], {}, {})
  const GONE_ON := World(ROTATED, Tab(Some(1), NoPromise, map[0 := Sent(true, Some(1)), 1 := Sent(false, Some(0))]),
                         [], {}, {})
  const WAITING_AGAIN := Tab(Some(1), Unsettled, map[0 := Sent(true, Some(1)), 1 := Awaiting(true, None)])
  const REQUESTED_AGAIN := World(ROTATED, WAITING_AGAIN, [Request(Shared, 1)], {}, {})
  const GRANTED_AGAIN := World(ROTATED_TWICE, WAITING_AGAIN, [Response(Shared, Granted(2))], {}, {})
  const DELIVERED_AGAIN := World(ROTATED_TWICE, Tab(Some(2), Settled(true),
                                                    map[0 := Sent(true, Some(1)), 1 := Awaiting(true, Some(true))]),
                                 [], {}, {})

  lemma RequestWorlds()
    ensures Next(ONE_CALL, Start(1)) == TWO_CALLS
    ensures Next(TWO_CALLS, Answer(0, true)) == REQUESTED
    ensures Next(REQUESTED, Handle(0, false)) == GRANTED
  {
  }

  lemma ReplyWorlds()
    ensures Next(GRANTED, Deliver(0)) == DELIVERED
    ensures Next(DELIVERED, Resume(0)) == GONE_ON
  {
    assert Next(GRANTED, Deliver(0)).tab.calls == DELIVERED.tab.calls;
    assert Next(DELIVERED, Resume(0)).tab.calls == GONE_ON.tab.calls;
  }

  lemma SecondRefreshWorlds()
    ensures Next(GONE_ON, Answer(1, true)) == REQUESTED_AGAIN
    ensures Next(REQUESTED_AGAIN, Handle(0, false)) == GRANTED_AGAIN
    ensures Next(GRANTED_AGAIN, Deliver(0)) == DELIVERED_AGAIN
  {
    assert Next(GRANTED_AGAIN, Deliver(0)).tab.calls == DELIVERED_AGAIN.tab.calls;
  }

  const FIRST := Flight(0, Some(0), false)
  const FIRST_ENDED := Flight(0, Some(0), true)
  const SECOND := Flight(1, Some(0), false)

  lemma FirstFlight()
    ensures Advanced(ONE_CALL, [], Start(1)) == []
    ensures Advanced(TWO_CALLS, [], Answer(0, true)) == [FIRST]
    ensures Advanced(REQUESTED, [FIRST], Handle(0, false)) == [FIRST]
    ensures Advanced(GRANTED, [FIRST], Deliver(0)) == [FIRST]
    ensures Advanced(DELIVERED, [FIRST], Resume(0)) == [FIRST_ENDED]
  {
    RequestWorlds();
    ReplyWorlds();
    assert StartsRefresh(TWO_CALLS, 0);
    assert Ended([FIRST], 0) == [FIRST_ENDED];
  }

  lemma SecondFlight()
    ensures Advanced(GONE_ON, [FIRST_ENDED], Answer(1, true)) == [FIRST_ENDED, SECOND]
    ensures Advanced(REQUESTED_AGAIN, [FIRST_ENDED, SECOND], Handle(0, false)) == [FIRST_ENDED, SECOND]
    ensures Advanced(GRANTED_AGAIN, [FIRST_ENDED, SECOND], Deliver(0)) == [FIRST_ENDED, SECOND]
  {
    SecondRefreshWorlds();
    assert StartsRefresh(GONE_ON, 1);
  }

  const LATE_401 := [Start(1), Answer(0, true), Handle(0, false), Deliver(0), Resume(0),
                     Answer(1, true), Handle(0, false), Deliver(0)]
  const LATE_401_WORLDS := [ONE_CALL, TWO_CALLS, REQUESTED, GRANTED, DELIVERED, GONE_ON,
                            REQUESTED_AGAIN, GRANTED_AGAIN, DELIVERED_AGAIN]
  const LATE_401_FLIGHTS: seq<seq<Flight>> := [[], [], [FIRST], [FIRST], [FIRST], [FIRST_ENDED],
                                               [FIRST_ENDED, SECOND], [FIRST_ENDED, SECOND], [FIRST_ENDED, SECOND]]

  lemma Late401Leads()
    ensures LeadsThrough(LATE_401, LATE_401_WORLDS)
  {
    RequestWorlds();
    ReplyWorlds();
    SecondRefreshWorlds();
    forall i | 0 <= i < |LATE_401| ensures StepLeads(LATE_401, LATE_401_WORLDS, i) {
    }
  }

  lemma Late401Flights()
    ensures forall i | 0 <= i < |LATE_401| :: FlightLeads(LATE_401, LATE_401_WORLDS, LATE_401_FLIGHTS, i)
  {
    FirstFlight();
    SecondFlight();
    forall i | 0 <= i < |LATE_401| ensures FlightLeads(LATE_401, LATE_401_WORLDS, LATE_401_FLIGHTS, i) {
    }
  }

  /**
   "Refreshed exactly once" fails for two calls that were sent under one pair: the 401 of the
   second arrives after the refresh of the first, and the pair that this brought is exchanged too.
   */
  lemma {:induction false} TwoRefreshesForOnePair() returns (steps: seq<Step>)
    ensures forall step | step in steps :: Orderly(step)
    ensures FlightsFor(Flights(steps), 0) == 2
    ensures Run(steps).server.successor == map[0 := 1, 1 := 2] && Run(steps).tab.store == Some(2)
  {
    SignedInWorld();
    Late401Leads();
    Late401Flights();
    RunsThrough(SIGN_IN, LATE_401, LATE_401_WORLDS);
    FlightsThrough(SIGN_IN, LATE_401, LATE_401_WORLDS, LATE_401_FLIGHTS);
    steps := SIGN_IN + LATE_401;
    TwoFlights();
  }

  lemma TwoFlights()
    ensures FlightsFor([FIRST_ENDED, SECOND], 0) == 2
  {
    FlightsForSnoc([FIRST_ENDED], SECOND, 0);
    FlightsForSnoc([], FIRST_ENDED, 0);
    assert [] + [FIRST_ENDED] == [FIRST_ENDED];
  }

  /** Call 0 alone, whose 401 has started a refresh. */
  const ASKING := Tab(Some(0), Unsettled, map[0 := Awaiting(true, None)])
  const ASKED := World(SIGNED_IN, ASKING, [Request(Shared, 0)], {}, {})

  lemma {:induction false} AskedWorld()
    ensures Run(SIGN_IN + [Answer(0, true)]) == ASKED
  {
    SignedInWorld();
    var steps := Extend(SIGN_IN, Answer(0, true));
  }

  /** A refresh that is stopped by the rate limiter, and a token that is lost although it is still good. */
  lemma ThrottlingDropsTheSession() returns (steps: seq<Step>)
    ensures forall step | step in steps :: Orderly(step)
    ensures var w := Run(steps);
            var w' := Next(Next(w, Handle(0, true)), Deliver(0));
            && w.messages == [Request(Shared, 0)] && w.tab.store == Some(0)
            && w'.tab.store == None && Redeemable(w'.server, 0)
  {
    AskedWorld();
    steps := SIGN_IN + [Answer(0, true)];
  }

  /** Steps without refreshes of the chat client, unless `chat`, and without lost replies, unless `lost`. */
  predicate Allowed(step: Step, chat: bool, lost: bool) {
    (step.ChatRefresh? ==> chat) && (step.LoseReply? ==> lost)
  }

  ghost predicate AllAllowed(steps: seq<Step>, chat: bool, lost: bool) {
    forall step | step in steps :: Allowed(step, chat, lost)
  }

  /** A refresh on its way will be answered 401 although nothing but an earlier exchange speaks against its token. */
  ghost predicate Unexcused(w: World, i: nat) {
    && i < |w.messages| && w.messages[i].Request?
    && Refreshed(w.server, w.messages[i].token).1 == Denied(UNAUTHORIZED) && !Excused(w.server, w.messages[i].token)
  }

  ghost predicate NeverUnexcused(chat: bool, lost: bool) {
    forall steps, i: nat :: AllAllowed(steps, chat, lost) ==> !Unexcused(Run(steps), i)
  }

  // The chat client and a call are both answered 401 and present token 0.
  const CHAT_SENT := World(SIGNED_IN, Tab(Some(0), NoPromise, map[0 := Sent(false, Some(0))]),
                           [Request(Chat, 0)], {}, {})
  const BOTH_SENT := World(SIGNED_IN, ASKING, [Request(Chat, 0), Request(Shared, 0)], {}, {})
  const CHAT_GRANTED := World(ROTATED, ASKING, [Response(Chat, Granted(1)), Request(Shared, 0)], {}, {})
  const BOTH_ANSWERED := World(ROTATED, ASKING,
                               [Response(Chat, Granted(1)), Response(Shared, Denied(UNAUTHORIZED))], {}, {})
  const CHAT_STORED := World(ROTATED, Tab(Some(1), Unsettled, map[0 := Awaiting(true, None)]),
                             [Response(Shared, Denied(UNAUTHORIZED))], {}, {})

  lemma CollisionWorlds()
    ensures Next(ONE_CALL, ChatRefresh) == CHAT_SENT
    ensures Next(CHAT_SENT, Answer(0, true)) == BOTH_SENT
    ensures Next(BOTH_SENT, Handle(0, false)) == CHAT_GRANTED
    ensures Next(CHAT_GRANTED, Handle(1, false)) == BOTH_ANSWERED
    ensures Next(BOTH_ANSWERED, Deliver(0)) == CHAT_STORED
    ensures Next(CHAT_STORED, Deliver(0)).server == ROTATED && Next(CHAT_STORED, Deliver(0)).tab.store == None
  {
  }

  const COLLISION := [ChatRefresh, Answer(0, true), Handle(0, false)]
  const COLLISION_WORLDS := [ONE_CALL, CHAT_SENT, BOTH_SENT, CHAT_GRANTED]
  const AFTERMATH := [Handle(1, false), Deliver(0), Deliver(0)]
  const AFTERMATH_WORLDS := [CHAT_GRANTED, BOTH_ANSWERED, CHAT_STORED, Next(CHAT_STORED, Deliver(0))]

  lemma CollisionLeads()
    ensures LeadsThrough(COLLISION, COLLISION_WORLDS) && LeadsThrough(AFTERMATH, AFTERMATH_WORLDS)
    ensures Unexcused(CHAT_GRANTED, 1)
    ensures var end := AFTERMATH_WORLDS[3]; end.tab.store == None && Redeemable(end.server, 1)
  {
    CollisionWorlds();
    forall i | 0 <= i < |COLLISION| ensures StepLeads(COLLISION, COLLISION_WORLDS, i) {
    }
    forall i | 0 <= i < |AFTERMATH| ensures StepLeads(AFTERMATH, AFTERMATH_WORLDS, i) {
    }
  }

  /**
   The refresh of the chat client is outside the promise. Here it presents the same
   token as the shared refresh, which is then refused without excuse, and the tab ends
   without a token although the server has issued a good one.
   */
  lemma {:induction false} ChatRefreshCollides() returns (steps: seq<Step>, end: seq<Step>)
    ensures AllAllowed(steps, true, false) && AllAllowed(end, true, false)
    ensures var w, w' := Run(steps), Run(end);
            && |w.messages| == 2 && w.messages[1] == Request(Shared, 0) && Unexcused(w, 1)
            && w'.tab.store == None && Redeemable(w'.server, 1)
  {
    SignedInWorld();
    CollisionLeads();
    RunsThrough(SIGN_IN, COLLISION, COLLISION_WORLDS);
    steps := SIGN_IN + COLLISION;
    RunsThrough(steps, AFTERMATH, AFTERMATH_WORLDS);
    end := steps + AFTERMATH;
  }

  // The answer to the refresh of call 0 is lost, and a later call is answered 401 too.
  const ANSWERED := World(ROTATED, ASKING, [Response(Shared, Granted(1))], {}, {})
  const LOST := World(ROTATED, Tab(Some(0), Settled(false), map[0 := Awaiting(true, Some(false))]), [], {}, {})
  const GAVE_UP := World(ROTATED, Tab(Some(0), NoPromise, map[0 := Returned]), [], {}, {})
  const LATER_CALL := World(ROTATED, Tab(Some(0), NoPromise, map[0 := Returned, 1 := Sent(false, Some(0))]), [], {}, {})

  lemma LossWorlds()
    ensures Next(ASKED, Handle(0, false)) == ANSWERED
    ensures Next(ANSWERED, LoseReply(0)) == LOST
    ensures Next(LOST, Resume(0)) == GAVE_UP
    ensures Next(GAVE_UP, Start(1)) == LATER_CALL
    ensures Next(LATER_CALL, Answer(1, true)).server == ROTATED
    ensures Next(LATER_CALL, Answer(1, true)).messages == [Request(Shared, 0)]
  {
    assert Next(ANSWERED, LoseReply(0)).tab.calls == LOST.tab.calls;
  }

  const LOSS_PATH := [Handle(0, false), LoseReply(0), Resume(0), Start(1), Answer(1, true)]
  const LOSS_WORLDS := [ASKED, ANSWERED, LOST, GAVE_UP, LATER_CALL, Next(LATER_CALL, Answer(1, true))]

  lemma LossLeads()
    ensures LeadsThrough(LOSS_PATH, LOSS_WORLDS)
    ensures LOSS_WORLDS[5].messages == [Request(Shared, 0)] && Unexcused(LOSS_WORLDS[5], 0)
  {
    LossWorlds();
    forall i | 0 <= i < |LOSS_PATH| ensures StepLeads(LOSS_PATH, LOSS_WORLDS, i) {
    }
  }

  /** When the answer to a refresh is lost, the tab keeps the old token and the next refresh is refused. */
  lemma {:induction false} LostReplyStrands() returns (steps: seq<Step>)
    ensures AllAllowed(steps, false, true)
    ensures Run(steps).messages == [Request(Shared, 0)] && Unexcused(Run(steps), 0)
  {
    AskedWorld();
    LossLeads();
    var start := SIGN_IN + [Answer(0, true)];
    RunsThrough(start, LOSS_PATH, LOSS_WORLDS);
    steps := start + LOSS_PATH;
  }

  /**
   A refresh is never refused without excuse if and only if the chat client sends no refreshes of
   its own and no answer to a refresh is lost: both conditions of the orderly runs are needed.
   */
  lemma ExcusedExactly(chat: bool, lost: bool)
    ensures NeverUnexcused(chat, lost) <==> !chat && !lost
  {
    if chat {
      var steps, end := ChatRefreshCollides();
      assert AllAllowed(steps, chat, lost) && Unexcused(Run(steps), 1);
    } else if lost {
      var steps := LostReplyStrands();
      assert AllAllowed(steps, chat, lost) && Unexcused(Run(steps), 0);
    } else {
      forall steps, i: nat | AllAllowed(steps, chat, lost) ensures !Unexcused(Run(steps), i) {
        assert forall step | step in steps :: Allowed(step, chat, lost) && Orderly(step);
        if i < |Run(steps).messages| && Run(steps).messages[i].Request? {
          RefreshFailsOnlyIfExcused(steps, i);
        }
      }
    }
  }
}
