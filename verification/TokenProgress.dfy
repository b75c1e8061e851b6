/**
 Progress of the token-refresh protocol: nobody waits for ever, and every run of
 the client's own steps is finite, whatever the scheduler and the server do.
 */
module TokenProgress {
  import opened Wrappers
  import opened TokenProtocol
  import opened TokenSafety
  import opened TokenCalls

  // ----- nobody is stuck -----

  predicate Finished(c: Caller) {
    c.pc.Returned? || c.pc.Threw? || c.pc.Refreshed?
  }

  /** Some step of the flight in `f` that the server cannot refuse it. */
  function FlightStep(s: State, f: nat): Action
    requires f < |s.flights| && !s.flights[f].Settled?
  {
    match s.flights[f]
    case TokenRead(_) => Present(f)
    case Presented(_) => Reject(f)
    case BodyPending(_) => BrokenBody(f)
    case Returning(_) => Settle(f)
  }

  lemma {:induction false} NobodyIsStuck(s: State, i: nat) returns (a: Action)
    requires Reachable(s) && i < |s.callers| && !Finished(s.callers[i])
    ensures Enabled(s, a) && !a.External()
  {
    ReachableInv(s);
    var c := s.callers[i];
    assert CallerJoins(s, c);
    match c.pc
    case HeaderRead(_) => a := DecideHeader(i, false);
    case Sending(_) => a := Answer(i, Failure(""));
    case Resumed(_, _) => a := Continue(i);
    case SigningOut(_) => a := Notify(i);
    case Awaiting(_, f, _) =>
      if s.flights[f].Settled? { a := Resume(i); } else { a := FlightStep(s, f); }
  }

  /** When the client has no step left, every call has ended and the slot is empty. */
  lemma {:induction false} QuiescentMeansDone(s: State)
    requires Reachable(s)
    requires forall a: Action | !a.External() :: !Enabled(s, a)
    ensures forall c <- s.callers :: Finished(c)
    ensures s.slot.None? && forall f <- s.flights :: f.Settled?
  {
    ReachableInv(s);
    forall c <- s.callers ensures Finished(c) {
      var i :| 0 <= i < |s.callers| && s.callers[i] == c;
      if !Finished(c) {
        var a := NobodyIsStuck(s, i);
        assert false;
      }
    }
    if s.slot.Some? {
      var i :| 0 <= i < |s.callers| && Led(s.callers[i]) == s.slot;
      assert s.callers[i] in s.callers;
    }
  }

  // ----- every run of internal steps is finite -----

  function FlightWork(f: Flight): nat {
    match f
    case TokenRead(_) => 4
    case Presented(_) => 3
    case BodyPending(_) => 2
    case Returning(_) => 1
    case Settled(_) => 0
  }

  /** Steps a call can still take, counting the flights it may yet launch. */
  function CallWork(c: Caller): nat {
    var retry := if c.answers == [] then 14 else 0;
    match c.pc
    case HeaderRead(_) => 9 + retry
    case Awaiting(ForHeader, _, _) => 4 + retry
    case Resumed(ForHeader, _) => 3 + retry
    case Sending(_) => 2 + retry
    case Awaiting(ForRetry, _, _) => 11
    case Resumed(ForRetry, _) => 10
    case Awaiting(Direct, _, _) => 2
    case Resumed(Direct, _) => 1
    case SigningOut(_) => 1
    case _ => 0
  }

  function FlightsWork(flights: seq<Flight>): nat {
    if flights == [] then 0 else FlightsWork(flights[..|flights| - 1]) + FlightWork(flights[|flights| - 1])
  }

  function CallsWork(callers: seq<Caller>): nat {
    if callers == [] then 0 else CallsWork(callers[..|callers| - 1]) + CallWork(callers[|callers| - 1])
  }

  function Work(s: State): nat {
    FlightsWork(s.flights) + CallsWork(s.callers)
  }

  lemma {:induction false} FlightsWorkUpdate(flights: seq<Flight>, f: nat, flight: Flight)
    requires f < |flights|
    ensures FlightsWork(flights[f := flight]) == FlightsWork(flights) - FlightWork(flights[f]) + FlightWork(flight)
  {
    var n := |flights| - 1;
    if f < n {
      FlightsWorkUpdate(flights[..n], f, flight);
      assert flights[f := flight][..n] == flights[..n][f := flight];
    } else {
      assert flights[f := flight][..n] == flights[..n];
    }
  }

  lemma {:induction false} CallsWorkUpdate(callers: seq<Caller>, i: nat, c: Caller)
    requires i < |callers|
    ensures CallsWork(callers[i := c]) == CallsWork(callers) - CallWork(callers[i]) + CallWork(c)
  {
    var n := |callers| - 1;
    if i < n {
      CallsWorkUpdate(callers[..n], i, c);
      assert callers[i := c][..n] == callers[..n][i := c];
    } else {
      assert callers[i := c][..n] == callers[..n];
    }
  }

  lemma {:induction false} LaunchWork(s: State, c: Caller, purpose: Purpose)
    ensures FlightsWork(StartRefresh(s, c, purpose).0.flights) <= FlightsWork(s.flights) + 4
  {
    if s.slot.None? {
      var flights := s.flights + [TokenRead(s.store.refresh)];
      assert flights[..|flights| - 1] == s.flights;
    }
  }

  lemma {:induction false} StartWork(s: State, i: nat, c: Caller, purpose: Purpose)
    requires i < |s.callers|
    requires CallWork(StartRefresh(s, c, purpose).1) + 4 < CallWork(s.callers[i])
    ensures Work(StartAt(s, i, c, purpose)) < Work(s)
  {
    var (s1, c1) := StartRefresh(s, c, purpose);
    LaunchWork(s, c, purpose);
    CallsWorkUpdate(s.callers, i, c1);
  }

  lemma {:induction false} MoveWork(s: State, s': State, i: nat)
    requires i < |s.callers| && i < |s'.callers| && s'.callers == s.callers[i := s'.callers[i]]
    requires s'.flights == s.flights && CallWork(s'.callers[i]) < CallWork(s.callers[i])
    ensures Work(s') < Work(s)
  {
    CallsWorkUpdate(s.callers, i, s'.callers[i]);
  }

  lemma {:induction false} CallerStepWork(s: State, a: Action)
    requires CallsInv(s) && Enabled(s, a) && Mover(s, a) < |s.callers|
    ensures Work(Next(s, a)) < Work(s)
  {
    var i := Mover(s, a);
    var c := s.callers[i];
    assert CallShape(c);
    if a.DecideHeader? && Truthy(c.pc.token) && a.expired {
      StartWork(s, i, c, ForHeader);
    } else if a.Answer? && a.reply.Unauthorized? && c.options.Eligible() && |c.answers| == 0 {
      StartWork(s, i, WithAnswer(c, a.reply), ForRetry);
    } else {
      MoveWork(s, Next(s, a), i);
    }
  }

  /** Every step of the client itself uses up work. */
  lemma {:induction false} InternalStepsUseWork(s: State, a: Action)
    requires CallsInv(s) && Enabled(s, a) && !a.External()
    ensures Work(Next(s, a)) < Work(s)
  {
    if Mover(s, a) < |s.callers| {
      CallerStepWork(s, a);
    } else {
      FlightsWorkUpdate(s.flights, a.f, Next(s, a).flights[a.f]);
    }
  }

  lemma {:induction false} RunUsesWork(s: State, actions: seq<Action>)
    requires CallsInv(s) && CanRun(s, actions) && forall a <- actions :: !a.External()
    ensures |actions| + Work(Run(s, actions)) <= Work(s)
    decreases |actions|
  {
    if actions != [] {
      InternalStepsUseWork(s, actions[0]);
      CallsKept(s, actions[0]);
      RunUsesWork(Next(s, actions[0]), actions[1..]);
    }
  }

  /** Left to itself the client stops: a run without outside events is no longer
      than the work at its start, whatever the answers and the schedule. */
  lemma {:induction false} RunsAreFinite(s: State, actions: seq<Action>)
    requires Reachable(s) && CanRun(s, actions) && forall a <- actions :: !a.External()
    ensures |actions| <= Work(s)
  {
    ReachableCalls(s);
    RunUsesWork(s, actions);
  }

  /** One call adds at most 23 steps to what the client has left to do. */
  lemma {:induction false} CallAddsBoundedWork(s: State, options: Options)
    ensures Work(Next(s, Call(options))) <= Work(s) + 23
  {
    var callers := Next(s, Call(options)).callers;
    assert callers[..|callers| - 1] == s.callers;
  }
}
