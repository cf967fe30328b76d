/**
 What becomes of a call that is answered 401: it learns how the refresh ended, whether it
 started or joined it, and is sent once more after a success and never after that.
 */
module Retries {
  import opened Wrappers
  import opened Auth
  import opened Session

  // ---- Joining and waking ----

  /** Message `i` belongs to the shared refresh, and `step` ends it: by its answer, or by a failing connection. */
  ghost predicate Ends(w: World, step: Step, i: nat) {
    && IsShared(w, i)
    && match step
       case Deliver(j) => j == i && w.messages[i].Response?
       case LoseReply(j) => j == i && w.messages[i].Response?
       case NeverArrives(j) => j == i && w.messages[i].Request?
       case _ => false
  }

  ghost predicate Waits(w: World, call: CallId, creator: bool) {
    call in w.tab.calls && w.tab.calls[call] == Awaiting(creator, None)
  }

  ghost predicate Knows(w: World, call: CallId, creator: bool, ok: bool) {
    call in w.tab.calls && w.tab.calls[call] == Awaiting(creator, Some(ok))
  }

  lemma Wakes(w: World, step: Step, i: nat, call: CallId, creator: bool)
    requires Ends(w, step, i) && Waits(w, call, creator)
    ensures Knows(Next(w, step), call, creator, step.Deliver? && w.messages[i].reply.Granted?)
  {
  }

  lemma StaysAwake(w: World, step: Step, call: CallId, creator: bool, ok: bool)
    requires Knows(w, call, creator, ok) && step != Resume(call)
    ensures Knows(Next(w, step), call, creator, ok)
  {
  }

  lemma {:induction false} StaysAwakeThrough(before: seq<Step>, middle: seq<Step>,
                                             call: CallId, creator: bool, ok: bool)
    requires Knows(Run(before), call, creator, ok) && Resume(call) !in middle
    ensures Knows(Run(before + middle), call, creator, ok)
  {
    if middle == [] {
      assert before + middle == before;
    } else {
      var rest, step := middle[..|middle| - 1], middle[|middle| - 1];
      StaysAwakeThrough(before, rest, call, creator, ok);
      var longer := Extend(before + rest, step);
      assert longer == before + middle;
      StaysAwake(Run(before + rest), step, call, creator, ok);
    }
  }

  /**
   In every run, whatever happens between the end of a refresh and the turn of a call that waited for it,
   and whether that call started the refresh or joined it: it is sent once more, under the pair
   stored by then, if the refresh was granted, and returns its 401 to the page if not.
   */
  lemma RefreshServesEveryone(before: seq<Step>, end: Step, i: nat, middle: seq<Step>, call: CallId, creator: bool)
    requires Ends(Run(before), end, i) && Waits(Run(before), call, creator) && Resume(call) !in middle
    ensures var w := Run(before + [end] + middle);
            var w' := Next(w, Resume(call));
            && call in w'.tab.calls
            && w'.tab.calls[call] == (if end.Deliver? && Run(before).messages[i].reply.Granted?
                                      then Sent(true, w.tab.store) else Returned)
            && w'.tab.store == w.tab.store && w'.messages == w.messages
            && (forall c | c in w.tab.calls && c != call :: c in w'.tab.calls && w'.tab.calls[c] == w.tab.calls[c])
  {
    Wakes(Run(before), end, i, call, creator);
    var ended := Extend(before, end);
    StaysAwakeThrough(ended, middle, call, creator, end.Deliver? && Run(before).messages[i].reply.Granted?);
  }

  /** A call that is answered 401 while a refresh is under way joins it, and sends nothing. */
  lemma FirstUnauthorized(w: World, call: CallId)
    requires call in w.tab.calls && w.tab.calls[call].Sent? && !w.tab.calls[call].retried
    ensures var w' := Next(w, Answer(call, true));
            && w'.tab.store == w.tab.store && call in w'.tab.calls
            && match w.tab.promise
               case Unsettled => Waits(w', call, false) && w'.messages == w.messages
               case Settled(ok) => Knows(w', call, false, ok) && w'.messages == w.messages
               case NoPromise =>
                 if w.tab.store.Some? then
                   Waits(w', call, true) && w'.messages == w.messages + [Request(Shared, w.tab.store.value)]
                 else Knows(w', call, true, false) && w'.messages == w.messages
  {
  }

  /** The refresh of the chat client stores a granted pair and ignores every other end; no call hears of it. */
  lemma ChatRefreshEnds(w: World, step: Step, i: nat)
    requires i < |w.messages| && w.messages[i].origin == Chat
    requires || (step == Deliver(i) && w.messages[i].Response?)
             || (step == LoseReply(i) && w.messages[i].Response?)
             || (step == NeverArrives(i) && w.messages[i].Request?)
    ensures var w' := Next(w, step);
            && w'.tab.store == (if step.Deliver? && w.messages[i].reply.Granted?
                                then Some(w.messages[i].reply.token) else w.tab.store)
            && w'.tab.promise == w.tab.promise && w'.tab.calls == w.tab.calls && w'.server == w.server
            && w'.messages == w.messages[..i] + w.messages[i + 1..]
  {
  }

  // ---- One retry ----

  /** The answer to a retried call, and every answer but 401, goes to the page: nothing is refreshed. */
  lemma FinalAnswer(steps: seq<Step>, call: CallId, unauthorized: bool)
    requires call in Run(steps).tab.calls && Run(steps).tab.calls[call].Sent?
    requires Run(steps).tab.calls[call].retried || !unauthorized
    ensures var w, w' := Run(steps), Run(steps + [Answer(call, unauthorized)]);
            && w' == w.(tab := w.tab.(calls := w.tab.calls[call := Returned]))
            && Flights(steps + [Answer(call, unauthorized)]) == Flights(steps)
  {
    var longer := Extend(steps, Answer(call, unauthorized));
    ExtendFlights(steps, Answer(call, unauthorized));
  }

  predicate IsSent(w: World, call: CallId) {
    call in w.tab.calls && w.tab.calls[call].Sent?
  }

  /** How often a call goes out to the server. */
  function Sends(steps: seq<Step>, call: CallId): nat {
    if steps == [] then 0
    else
      var before := steps[..|steps| - 1];
      Sends(before, call) + if IsSent(Run(steps), call) && !IsSent(Run(before), call) then 1 else 0
  }

  /** How many refreshes a call starts. */
  function Starts(flights: seq<Flight>, call: CallId): nat {
    if flights == [] then 0
    else Starts(flights[..|flights| - 1], call) + if flights[|flights| - 1].creator == call then 1 else 0
  }

  /** How often the call can have been sent, and how many refreshes it can have started, to be where it is. */
  ghost predicate SoFar(w: World, call: CallId, sends: nat, starts: nat) {
    if call !in w.tab.calls then sends == 0 && starts == 0
    else
      match w.tab.calls[call]
      case Sent(false, _) => sends == 1 && starts == 0
      case Awaiting(creator, _) => sends == 1 && starts == (if creator then 1 else 0)
      case Sent(true, _) => sends == 2 && starts <= 1
      case Returned => 1 <= sends <= 2 && starts <= 1
  }

  lemma {:induction false} EndedStarts(flights: seq<Flight>, who: CallId, call: CallId)
    ensures Starts(Ended(flights, who), call) == Starts(flights, call)
  {
    if flights != [] {
      EndedStarts(flights[..|flights| - 1], who, call);
      assert Ended(flights, who)[..|flights| - 1] == Ended(flights[..|flights| - 1], who);
    }
  }

  lemma StartsSnoc(flights: seq<Flight>, f: Flight, call: CallId)
    ensures Starts(flights + [f], call) == Starts(flights, call) + if f.creator == call then 1 else 0
  {
    assert (flights + [f])[..|flights|] == flights;
  }

  lemma AdvancedStarts(w: World, flights: seq<Flight>, step: Step, call: CallId)
    ensures Starts(Advanced(w, flights, step), call)
         == Starts(flights, call) + if step == Answer(call, true) && StartsRefresh(w, call) then 1 else 0
  {
    if step.Answer? && step.unauthorized && StartsRefresh(w, step.call) {
      StartsSnoc(flights, Flight(step.call, w.tab.calls[step.call].under, false), call);
    } else if step.Resume? {
      EndedStarts(flights, step.call, call);
    }
  }

  lemma StepSoFar(w: World, step: Step, call: CallId, sends: nat, starts: nat)
    requires SoFar(w, call, sends, starts)
    ensures var w' := Next(w, step);
            SoFar(w', call, sends + if IsSent(w', call) && !IsSent(w, call) then 1 else 0,
                  starts + if step == Answer(call, true) && StartsRefresh(w, call) then 1 else 0)
  {
  }

  /**
   In every run a call is sent at most twice and starts at most one refresh; it is
   marked as retried exactly when it is out for the second time.
   */
  lemma {:induction false} CallsRetryOnce(steps: seq<Step>, call: CallId)
    ensures SoFar(Run(steps), call, Sends(steps, call), Starts(Flights(steps), call))
    ensures Sends(steps, call) <= 2 && Starts(Flights(steps), call) <= 1
  {
    if steps != [] {
      var before, step := steps[..|steps| - 1], steps[|steps| - 1];
      CallsRetryOnce(before, call);
      AdvancedStarts(Run(before), Flights(before), step, call);
      StepSoFar(Run(before), step, call, Sends(before, call), Starts(Flights(before), call));
    }
  }
}
