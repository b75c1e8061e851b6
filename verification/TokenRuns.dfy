/** Building runs of the protocol machine step by step. */
module TokenRuns {
  import opened Wrappers
  import opened TokenProtocol
  import opened TokenSafety

  ghost predicate Internal(actions: seq<Action>) {
    forall a <- actions :: !a.External()
  }

  /** `s'` is reached from `s` by steps of the client itself. */
  ghost predicate LeadsTo(s: State, s': State) {
    exists actions :: Internal(actions) && CanRun(s, actions) && Run(s, actions) == s'
  }

  lemma {:induction false} RunConcat(s: State, first: seq<Action>, second: seq<Action>)
    requires CanRun(s, first) && CanRun(Run(s, first), second)
    ensures CanRun(s, first + second) && Run(s, first + second) == Run(Run(s, first), second)
    decreases |first|
  {
    if first == [] {
      assert first + second == second;
    } else {
      var mid, rest := Next(s, first[0]), first[1..];
      assert Run(s, first) == Run(mid, rest);
      RunConcat(mid, rest, second);
      assert (first + second)[0] == first[0] && (first + second)[1..] == rest + second;
    }
  }

  lemma {:induction false} RunOne(s: State, a: Action)
    requires Enabled(s, a)
    ensures CanRun(s, [a]) && Run(s, [a]) == Next(s, a)
  {
    assert [a][1..] == [];
  }

  lemma {:induction false} Stays(s: State)
    ensures LeadsTo(s, s)
  {
    assert Internal([]) && CanRun(s, []) && Run(s, []) == s;
  }

  lemma {:induction false} Then(s: State, mid: State, a: Action)
    requires LeadsTo(s, mid) && Enabled(mid, a) && !a.External()
    ensures LeadsTo(s, Next(mid, a))
  {
    var actions :| Internal(actions) && CanRun(s, actions) && Run(s, actions) == mid;
    RunOne(mid, a);
    RunConcat(s, actions, [a]);
    assert Internal(actions + [a]);
  }

  lemma {:induction false} Chain(s: State, mid: State, s': State)
    requires LeadsTo(s, mid) && LeadsTo(mid, s')
    ensures LeadsTo(s, s')
  {
    var first :| Internal(first) && CanRun(s, first) && Run(s, first) == mid;
    var second :| Internal(second) && CanRun(mid, second) && Run(mid, second) == s';
    RunConcat(s, first, second);
    assert Internal(first + second);
  }

  lemma {:induction false} ReachableInitially()
    ensures Reachable(INITIAL)
  {
    assert CanRun(INITIAL, []) && Run(INITIAL, []) == INITIAL;
  }

  lemma {:induction false} ReachableNext(s: State, a: Action)
    requires Reachable(s) && Enabled(s, a)
    ensures Reachable(Next(s, a))
  {
    var actions :| CanRun(INITIAL, actions) && s == Run(INITIAL, actions);
    RunOne(s, a);
    RunConcat(INITIAL, actions, [a]);
  }

  lemma {:induction false} ReachableOn(s: State, s': State)
    requires Reachable(s) && LeadsTo(s, s')
    ensures Reachable(s')
  {
    var actions :| CanRun(INITIAL, actions) && s == Run(INITIAL, actions);
    var more :| Internal(more) && CanRun(s, more) && Run(s, more) == s';
    RunConcat(INITIAL, actions, more);
  }

  // ----- one flight from launch to the leader's `finally` -----

  /** The leader `i` of the flight in the slot is about to see it start. */
  predicate Launched(s: State, i: nat, f: nat) {
    && i < |s.callers| && f < |s.flights|
    && s.slot == Some(f) && s.flights[f].TokenRead?
    && s.callers[i].pc.Awaiting? && s.callers[i].pc.leads && s.callers[i].pc.flight == f
  }

  /** The state after the flight has ended with `result` and its leader has resumed. */
  function Landed(s: State, i: nat, f: nat, result: Option<AuthTokens>): State
    requires Launched(s, i, f)
  {
    var c := s.callers[i];
    s.(slot := None,
       flights := s.flights[f := Settled(result)],
       callers := s.callers[i := c.(pc := Resumed(c.pc.purpose, result), results := c.results + [result])])
  }

  lemma {:induction false} Lands(s: State, mid: State, i: nat, f: nat, result: Option<AuthTokens>)
    requires Launched(s, i, f) && LeadsTo(s, mid)
    requires mid == s.(flights := s.flights[f := Settled(result)],
                       store := mid.store, issued := mid.issued, presented := mid.presented)
    ensures LeadsTo(s, Landed(s, i, f, result).(store := mid.store, issued := mid.issued, presented := mid.presented))
  {
    Then(s, mid, Resume(i));
  }

  lemma {:induction false} FlightWithoutToken(s: State, i: nat, f: nat)
    requires Launched(s, i, f) && !Truthy(s.flights[f].stored)
    ensures LeadsTo(s, Landed(s, i, f, None))
  {
    Stays(s);
    Then(s, s, Present(f));
    Lands(s, Next(s, Present(f)), i, f, None);
  }

  function Posted(s: State, f: nat): State
    requires f < |s.flights| && s.flights[f].TokenRead? && Truthy(s.flights[f].stored)
  {
    Next(s, Present(f))
  }

  lemma {:induction false} FlightPosts(s: State, i: nat, f: nat)
    requires Launched(s, i, f) && Truthy(s.flights[f].stored)
    ensures LeadsTo(s, Posted(s, f))
  {
    Stays(s);
    Then(s, s, Present(f));
  }

  /** Shared tail: the store has been set or cleared and the flight returns. */
  lemma {:induction false} FlightReturns(s: State, mid: State, i: nat, f: nat, result: Option<AuthTokens>)
    requires Launched(s, i, f) && LeadsTo(s, mid)
    requires mid == s.(flights := s.flights[f := Returning(result)],
                       store := mid.store, issued := mid.issued, presented := mid.presented)
    ensures LeadsTo(s, Landed(s, i, f, result).(store := mid.store, issued := mid.issued, presented := mid.presented))
  {
    Then(s, mid, Settle(f));
    var settled := Next(mid, Settle(f));
    assert settled.flights == s.flights[f := Settled(result)];
    Lands(s, settled, i, f, result);
  }

  lemma {:induction false} FlightRejected(s: State, i: nat, f: nat)
    requires Launched(s, i, f) && Truthy(s.flights[f].stored)
    ensures LeadsTo(s, Landed(s, i, f, None).(
                         store := EMPTY_STORE, presented := s.presented + [s.flights[f].stored.value]))
  {
    var posted := Posted(s, f);
    FlightPosts(s, i, f);
    Then(s, posted, Reject(f));
    var mid := Next(posted, Reject(f));
    assert mid.flights == s.flights[f := Returning(None)];
    FlightReturns(s, mid, i, f, None);
  }

  lemma {:induction false} FlightBroken(s: State, i: nat, f: nat)
    requires Launched(s, i, f) && Truthy(s.flights[f].stored)
    ensures LeadsTo(s, Landed(s, i, f, None).(
                         store := EMPTY_STORE, presented := s.presented + [s.flights[f].stored.value]))
  {
    var posted := Posted(s, f);
    FlightPosts(s, i, f);
    Then(s, posted, Accept(f));
    var accepted := Next(posted, Accept(f));
    Then(s, accepted, BrokenBody(f));
    var mid := Next(accepted, BrokenBody(f));
    assert mid.flights == s.flights[f := Returning(None)];
    FlightReturns(s, mid, i, f, None);
  }

  lemma {:induction false} FlightGranted(s: State, i: nat, f: nat, tokens: AuthTokens)
    requires Launched(s, i, f) && Truthy(s.flights[f].stored) && Fresh(s, tokens)
    ensures LeadsTo(s, Landed(s, i, f, Some(tokens)).(
                         store := Holding(tokens), issued := s.issued + {tokens},
                         presented := s.presented + [s.flights[f].stored.value]))
  {
    var posted := Posted(s, f);
    FlightPosts(s, i, f);
    Then(s, posted, Accept(f));
    var accepted := Next(posted, Accept(f));
    Then(s, accepted, Body(f, tokens));
    var mid := Next(accepted, Body(f, tokens));
    assert mid.flights == s.flights[f := Returning(Some(tokens))];
    FlightReturns(s, mid, i, f, Some(tokens));
  }
}
