/**
 How a session ends, and how it comes back: the answer to a refresh decides what the tab
 stores, whatever the user has done while it was on its way.
 */
module SessionLoss {
  import opened Wrappers
  import opened Sequences
  import opened Auth
  import opened Session

  ghost predicate AllOrderly(steps: seq<Step>) {
    forall step | step in steps :: Orderly(step)
  }

  lemma OrderlyConcat(a: seq<Step>, b: seq<Step>)
    requires AllOrderly(a) && AllOrderly(b)
    ensures AllOrderly(a + b)
  {
  }

  /** What a server keeps of a token that it has issued: time, logouts and removals only go forward. */
  ghost predicate Later(s: Auth.Server, s': Auth.Server, t: Token) {
    && s.now <= s'.now && s.loggedOut <= s'.loggedOut && s.nextToken <= s'.nextToken
    && (t in s'.rows ==> t in s.rows)
    && (t in s'.rows ==> s'.rows[t].user == s.rows[t].user && s'.rows[t].expiresAt == s.rows[t].expiresAt)
    && (t in s.rows && s.rows[t].revokedAt.Some? && t in s'.rows ==> s'.rows[t].revokedAt.Some?)
  }

  lemma ServerStepLater(s: Auth.Server, step: ServerStep, t: Token)
    requires t < s.nextToken
    ensures Later(s, ServerNext(s, step), t)
  {
  }

  lemma StepLater(w: World, step: Step, t: Token)
    requires t < w.server.nextToken
    ensures Later(w.server, Next(w, step).server, t)
  {
    match step
    case Handle(i, throttled) =>
      if i < |w.messages| && w.messages[i].Request? { ServerStepLater(w.server, RefreshToken(w.messages[i].token), t); }
    case SignIn(user) => ServerStepLater(w.server, Login(user), t);
    case HandleSignOut(u) => ServerStepLater(w.server, Auth.Logout(u), t);
    case ServerSide(serverStep) => ServerStepLater(w.server, serverStep, t);
    case _ =>
  }

  /** While the answer to a refresh is on its way, no other step of an orderly run changes or adds a message. */
  lemma ReplyWaits(w: World, step: Step)
    requires Inv(w) && w.messages != [] && w.messages[0].Response?
    requires Orderly(step) && step != Deliver(0)
    ensures Next(w, step).messages == w.messages
  {
  }

  lemma {:induction false} ReplyWaitsThrough(before: seq<Step>, middle: seq<Step>, t: Token)
    requires AllOrderly(before) && Run(before).messages != [] && Run(before).messages[0].Response?
    requires AllOrderly(middle) && Deliver(0) !in middle
    requires t < Run(before).server.nextToken
    ensures AllOrderly(before + middle)
    ensures Run(before + middle).messages == Run(before).messages
    ensures Later(Run(before).server, Run(before + middle).server, t)
  {
    if middle == [] {
      assert before + middle == before;
    } else {
      var rest, step := middle[..|middle| - 1], middle[|middle| - 1];
      ReplyWaitsThrough(before, rest, t);
      OrderlyRuns(before + rest);
      var longer := Extend(before + rest, step);
      assert longer == before + middle;
      ReplyWaits(Run(before + rest), step);
      StepLater(Run(before + rest), step, t);
    }
  }

  /** The user of the token is deactivated: the one excuse that can go away again. */
  predicate Suspended(s: Auth.Server, t: Token) {
    t in s.rows && (s.rows[t].user !in s.active || !s.active[s.rows[t].user])
  }

  /** A token that was refused, with an excuse or by the rate limiter, and is good later. */
  lemma GoodLater(s: Auth.Server, s': Auth.Server, t: Token)
    requires ServerInv(s') && Later(s, s', t) && Excused(s, t) && Redeemable(s', t)
    ensures Suspended(s, t)
  {
  }

  function AnswerTo(s: Auth.Server, throttled: bool, excused: bool): Reply {
    if throttled then Denied(TOO_MANY_REQUESTS) else if excused then Denied(UNAUTHORIZED) else Granted(s.nextToken)
  }

  lemma ServerAnswers(before: seq<Step>, throttled: bool)
    requires AllOrderly(before) && Run(before).messages != [] && Run(before).messages[0].Request?
    ensures var w := Run(before);
            var t, w' := w.messages[0].token, Next(w, Handle(0, throttled));
            && w'.messages == [Response(Shared, AnswerTo(w.server, throttled, Excused(w.server, t)))]
            && t < w.server.nextToken && Later(w.server, w'.server, t)
            && (throttled || Excused(w.server, t) ==> w'.server == w.server)
            && (Redeemable(w.server, t) <==> !Excused(w.server, t))
  {
    OrderlyRuns(before);
    RefreshFailsOnlyIfExcused(before, 0);
    StepLater(Run(before), Handle(0, throttled), Run(before).messages[0].token);
  }

  /**
   What the answer to a refresh costs the tab, in every orderly run and whatever happens between
   the answer's leaving the server and its arrival. The tab ends without a token exactly when the
   rate limiter stopped the refresh or the server had an excuse, and with the pair that was
   granted otherwise. So whatever is stored when the answer arrives is given up, also a pair of
   a sign-in during the refresh, which is lost although it is good whenever the refresh fails. If it is
   still the token that was presented, it is lost although it is good only if the rate limiter stopped
   the refresh or its user was deactivated at the time.
   */
  lemma {:induction false} SessionLostExactly(before: seq<Step>, throttled: bool, middle: seq<Step>)
    requires AllOrderly(before) && Run(before).messages != [] && Run(before).messages[0].Request?
    requires AllOrderly(middle) && Deliver(0) !in middle
    ensures var asked, t := Run(before).server, Run(before).messages[0].token;
            var w := Run(before + [Handle(0, throttled)] + middle);
            var w' := Next(w, Deliver(0));
            && w'.tab.store == (if throttled || Excused(asked, t) then None else Some(asked.nextToken))
            && (w.tab.store.Some? ==> w'.tab.store != w.tab.store)
            && (w.tab.store.Some? ==>
                  (w'.tab.store == None && Redeemable(w'.server, w.tab.store.value)
                   <==> (throttled || Excused(asked, t)) && Redeemable(w.server, w.tab.store.value)))
            && (w'.tab.store == None && Redeemable(w'.server, t)
                <==> (throttled || Suspended(asked, t)) && Redeemable(w.server, t))
  {
    var asked, t := Run(before).server, Run(before).messages[0].token;
    ServerAnswers(before, throttled);
    var answered := Extend(before, Handle(0, throttled));
    ReplyWaitsThrough(answered, middle, t);
    OrderlyRuns(answered + middle);
    var w := Run(answered + middle);
    if Excused(asked, t) && Redeemable(w.server, t) {
      GoodLater(asked, w.server, t);
    }
  }

  /**
   An answer that arrives at once drops the presented token
   while it is good exactly when nothing but the limiter stopped it.
   */
  lemma SessionLostAtOnce(before: seq<Step>, throttled: bool)
    requires AllOrderly(before) && Run(before).messages != [] && Run(before).messages[0].Request?
    ensures var w, t := Run(before), Run(before).messages[0].token;
            var w' := Next(Next(w, Handle(0, throttled)), Deliver(0));
            w'.tab.store == None && Redeemable(w'.server, t) <==> throttled && !Excused(w.server, t)
  {
    ServerAnswers(before, throttled);
  }

  // ---- A sign-in during a refresh ----

  const EXPIRED := SIGNED_IN.(now := REFRESH_TTL)
  const SECOND_LOGIN := Auth.Server(map[0 := ROW, 1 := TokenRow(0, REFRESH_TTL + REFRESH_TTL, None)], map[0 := true],
                                    2, REFRESH_TTL, map[], {})
  const EXPIRED_PATH := [ServerSide(Wait(REFRESH_TTL)), SignIn(0), SignedIn(1)]
  const EXPIRED_WORLDS := [ASKED, ASKED.(server := EXPIRED), ASKED.(server := SECOND_LOGIN, logins := {1}),
                           ASKED.(server := SECOND_LOGIN, tab := ASKING.(store := Some(1)))]

  lemma ExpiredWorlds()
    ensures LeadsThrough(EXPIRED_PATH, EXPIRED_WORLDS)
  {
    assert Next(EXPIRED_WORLDS[0], EXPIRED_PATH[0]) == EXPIRED_WORLDS[1];
    assert Next(EXPIRED_WORLDS[1], EXPIRED_PATH[1]) == EXPIRED_WORLDS[2];
    assert Next(EXPIRED_WORLDS[2], EXPIRED_PATH[2]) == EXPIRED_WORLDS[3];
    forall i | 0 <= i < |EXPIRED_PATH| ensures StepLeads(EXPIRED_PATH, EXPIRED_WORLDS, i) {
    }
  }

  /**
   The token of a refresh under way expires and the user signs in. The refusal that arrives
   then drops the new session, although its token is good and nobody was throttled.
   */
  lemma {:induction false} RefusalDropsNewSession() returns (steps: seq<Step>)
    ensures AllOrderly(steps)
    ensures var w := Run(steps);
            var w' := Next(Next(w, Handle(0, false)), Deliver(0));
            && w.messages == [Request(Shared, 0)] && w.tab.store == Some(1) && Excused(w.server, 0)
            && w'.tab.store == None && Redeemable(w'.server, 1)
  {
    AskedWorld();
    ExpiredWorlds();
    var start := SIGN_IN + [Answer(0, true)];
    RunsThrough(start, EXPIRED_PATH, EXPIRED_WORLDS);
    steps := start + EXPIRED_PATH;
  }

  // ---- A sign-out during a refresh ----

  /** A token that no refresh will ever exchange, whatever happens to its user. */
  predicate Dead(s: Auth.Server, t: Token) {
    t < s.nextToken && (t in s.rows ==> s.rows[t].revokedAt.Some? || s.rows[t].expiresAt <= s.now)
  }

  /** Nothing on its way can bring a pair to a tab without one. */
  ghost predicate StaysOut(w: World) {
    && w.tab.store.None?
    && (w.messages != [] ==>
          if w.messages[0].Request? then Dead(w.server, w.messages[0].token) else !w.messages[0].reply.Granted?)
  }

  lemma StaysOutStep(w: World, step: Step)
    requires Inv(w) && StaysOut(w) && Orderly(step) && !step.SignedIn?
    ensures StaysOut(Next(w, step))
  {
    if w.messages != [] && w.messages[0].Request? {
      StepLater(w, step, w.messages[0].token);
    }
  }

  /** No sign-in is stored. */
  ghost predicate NoSignIn(steps: seq<Step>) {
    AllOrderly(steps) && forall step | step in steps :: !step.SignedIn?
  }

  lemma NoSignInBefore(steps: seq<Step>)
    requires NoSignIn(steps) && steps != []
    ensures NoSignIn(steps[..|steps| - 1])
    ensures Orderly(steps[|steps| - 1]) && !steps[|steps| - 1].SignedIn?
  {
    assert steps[|steps| - 1] in steps;
    assert forall step | step in steps[..|steps| - 1] :: step in steps;
  }

  lemma {:induction false} StaysOutThrough(before: seq<Step>, middle: seq<Step>)
    requires AllOrderly(before) && StaysOut(Run(before)) && NoSignIn(middle)
    ensures AllOrderly(before + middle) && StaysOut(Run(before + middle))
  {
    if middle == [] {
      assert before + middle == before;
    } else {
      var rest, step := middle[..|middle| - 1], middle[|middle| - 1];
      NoSignInBefore(middle);
      StaysOutThrough(before, rest);
      OrderlyRuns(before + rest);
      OrderlyConcat(before, middle);
      var longer := Extend(before + rest, step);
      LastApart(before, middle);
      StaysOutStep(Run(before + rest), step);
    }
  }

  ghost predicate Reopens(before: seq<Step>, middle: seq<Step>) {
    && NoSignIn(middle)
    && Run(before + middle).tab.store.Some?
  }

  /** A refresh with a token that is not dead succeeds if its user is, or becomes, active. */
  lemma RequestReopens(before: seq<Step>) returns (middle: seq<Step>)
    requires AllOrderly(before) && Run(before).messages != [] && Run(before).messages[0].Request?
    requires !Dead(Run(before).server, Run(before).messages[0].token)
    ensures Reopens(before, middle)
  {
    OrderlyRuns(before);
    var w := Run(before);
    middle := [ServerSide(SetActive(w.server.rows[w.messages[0].token].user, true)), Handle(0, false), Deliver(0)];
    var activated := Extend(before, middle[0]);
    var answered := Extend(activated, middle[1]);
    var delivered := Extend(answered, middle[2]);
    assert delivered == before + middle;
  }

  /**
   When a tab without a token, after a sign-out say, can get one back without anyone signing in:
   exactly when a granted pair is on its way to it, or a refresh on its way to the server whose
   token exists and is neither revoked nor expired.
   */
  lemma SignedOutExactly(before: seq<Step>)
    requires AllOrderly(before) && Run(before).tab.store.None?
    ensures var w := Run(before);
            (exists middle :: Reopens(before, middle))
            <==> && w.messages != []
                 && match w.messages[0]
                    case Request(_, t) =>
                      && t in w.server.rows
                      && w.server.rows[t].revokedAt.None? && w.server.now < w.server.rows[t].expiresAt
                    case Response(_, reply) => reply.Granted?
  {
    OrderlyRuns(before);
    var w := Run(before);
    if StaysOut(w) {
      forall middle | Reopens(before, middle) ensures false {
        StaysOutThrough(before, middle);
      }
    } else if w.messages[0].Request? {
      var middle := RequestReopens(before);
    } else {
      var middle := Extend(before, Deliver(0));
      assert Reopens(before, [Deliver(0)]);
    }
  }

  /**
   A sign-out while no refresh is under way: from then on the tab has no token before the next
   sign-in, and once the server has heard of it the token is refused for ever.
   */
  lemma SignOutSticks(before: seq<Step>, middle: seq<Step>)
    requires AllOrderly(before) && Run(before).messages == [] && Run(before).tab.store.Some?
    requires NoSignIn(middle)
    ensures var t, w := Run(before).tab.store.value, Run(before + [SignOut] + middle);
            && w.tab.store == None && t in Run(before + [SignOut]).logouts
            && (t !in w.logouts ==> !Redeemable(w.server, t))
  {
    var t := Run(before).tab.store.value;
    var out := Extend(before, SignOut);
    OrderlyRuns(before);
    OrderlyConcat(before, [SignOut]);
    StaysOutThrough(out, middle);
    LogoutThrough(out, middle, t);
  }

  /** The server has yet to hear of the logout of `t`, or it will never accept it again. */
  ghost predicate LoggedOutSoon(w: World, t: Token) {
    t < w.server.nextToken
    && (t in w.logouts || (t in w.server.rows ==> w.server.rows[t].revokedAt.Some?))
  }

  lemma LogoutStep(w: World, step: Step, t: Token)
    requires LoggedOutSoon(w, t)
    ensures LoggedOutSoon(Next(w, step), t)
  {
    StepLater(w, step, t);
  }

  lemma {:induction false} LogoutThrough(before: seq<Step>, middle: seq<Step>, t: Token)
    requires LoggedOutSoon(Run(before), t)
    ensures LoggedOutSoon(Run(before + middle), t)
  {
    if middle == [] {
      assert before + middle == before;
    } else {
      LogoutThrough(before, middle[..|middle| - 1], t);
      var longer := Extend(before + middle[..|middle| - 1], middle[|middle| - 1]);
      LastApart(before, middle);
      LogoutStep(Run(before + middle[..|middle| - 1]), middle[|middle| - 1], t);
    }
  }

  /** What the user and the page do to the stored pair, and that the calls do not notice. */
  lemma StoreSteps(w: World, t: Token)
    ensures Next(w, ClearStore).tab == w.tab.(store := None)
    ensures Next(w, SignOut).tab == w.tab.(store := None)
    ensures w.tab.store == Some(t) ==> Next(w, SignOut).logouts == w.logouts + {t}
    ensures t in w.logins ==> Next(w, SignedIn(t)) == w.(tab := w.tab.(store := Some(t)), logins := w.logins - {t})
    ensures Next(w, ClearStore).server == Next(w, SignOut).server == w.server
    ensures Next(w, ClearStore).messages == Next(w, SignOut).messages == w.messages
  {
  }

  const SIGNED_OUT := ANSWERED.(tab := ASKING.(store := None), logouts := {0})
  const SIGN_OUT_PATH := [Handle(0, false), SignOut, HandleSignOut(0)]
  const SIGN_OUT_WORLDS := [ASKED, ANSWERED, SIGNED_OUT, SIGNED_OUT.(logouts := {})]

  lemma SignOutWorlds()
    ensures LeadsThrough(SIGN_OUT_PATH, SIGN_OUT_WORLDS)
  {
    LossWorlds();
    assert Next(ANSWERED, SignOut) == SIGNED_OUT;
    assert Next(SIGNED_OUT, HandleSignOut(0)) == SIGNED_OUT.(logouts := {});
    forall i | 0 <= i < |SIGN_OUT_PATH| ensures StepLeads(SIGN_OUT_PATH, SIGN_OUT_WORLDS, i) {
    }
  }

  /** The user signs out while the answer to a refresh is on its way, and the answer signs the tab in again. */
  lemma {:induction false} RefreshUndoesSignOut() returns (before: seq<Step>, path: seq<Step>)
    ensures AllOrderly(before + path) && path == [Handle(0, false), SignOut, HandleSignOut(0)]
    ensures Run(before).tab.store == Some(0) && Run(before).messages == [Request(Shared, 0)]
    ensures var w := Run(before + path);
            var w' := Next(w, Deliver(0));
            w.tab.store == None && w.logouts == {} && w'.tab.store == Some(1) && Redeemable(w'.server, 1)
  {
    AskedWorld();
    SignOutWorlds();
    before, path := SIGN_IN + [Answer(0, true)], SIGN_OUT_PATH;
    RunsThrough(before, path, SIGN_OUT_WORLDS);
    OrderlyConcat(before, path);
  }
}
