/**
 How far "a fan-out of stale-token requests only burns one refresh token" goes: calls
 that ask for a refresh while another call leads one share it, and a token is burned by
 every ask that finds the slot empty and a token stored.  So a run burns one token
 exactly when no two asks do.
 */
module TokenFanOut {
  import opened Wrappers
  import opened TokenProtocol
  import opened TokenSafety
  import opened TokenRuns

  /** While any flight is unsettled the slot holds it, and everyone who asks joins it. */
  lemma {:induction false} OneFlightAtATime(s: State, c: Caller, purpose: Purpose, f: nat)
    requires Reachable(s) && f < |s.flights| && !s.flights[f].Settled?
    ensures StartRefresh(s, c, purpose) ==
            (s, c.(pc := Awaiting(purpose, f, false), joined := c.joined + [f]))
  {
    ReachableInv(s);
  }

  /** Whoever asks leads a new flight exactly when nobody is still leading one, and
      joins that one's flight otherwise. */
  lemma {:induction false} LeadsIffNobodyDoes(s: State, c: Caller, purpose: Purpose)
    requires Reachable(s)
    ensures var c' := StartRefresh(s, c, purpose).1;
            && (c'.pc.leads <==> forall d <- s.callers :: Led(d).None?)
            && (c'.pc.leads <==> c'.pc.flight == |s.flights|)
            && forall d <- s.callers :: Led(d).Some? ==> Led(d) == Some(c'.pc.flight)
  {
    ReachableInv(s);
    if s.slot.Some? {
      var i :| 0 <= i < |s.callers| && Led(s.callers[i]) == s.slot;
      assert s.callers[i] in s.callers;
    }
  }

  // ----- how many refresh tokens a run burns -----

  /** The action ends in `refreshAccessToken`. */
  predicate Asks(s: State, a: Action)
    requires Enabled(s, a)
  {
    match a
    case CallRefresh => true
    case DecideHeader(i, expired) => Truthy(s.callers[i].pc.token) && expired
    case Answer(i, reply) => reply.Unauthorized? && s.callers[i].options.Eligible() && |s.callers[i].answers| == 0
    case _ => false
  }

  /** It asks while the slot is empty and a refresh token is stored. */
  predicate Burns(s: State, a: Action)
    requires Enabled(s, a)
  {
    Asks(s, a) && s.slot.None? && Truthy(s.store.refresh)
  }

  predicate Due(flight: Flight) {
    flight.TokenRead? && Truthy(flight.stored)
  }

  /** Flights that have read a token and are about to present it. */
  function Pending(flights: seq<Flight>): nat {
    if flights == [] then 0
    else Pending(flights[..|flights| - 1]) + (if Due(flights[|flights| - 1]) then 1 else 0)
  }

  lemma {:induction false} PendingUpdate(flights: seq<Flight>, f: nat, flight: Flight)
    requires f < |flights|
    ensures Pending(flights[f := flight]) ==
            Pending(flights) - (if Due(flights[f]) then 1 else 0) + (if Due(flight) then 1 else 0)
  {
    var n := |flights| - 1;
    if f < n {
      PendingUpdate(flights[..n], f, flight);
      assert flights[f := flight][..n] == flights[..n][f := flight];
    } else {
      assert flights[f := flight][..n] == flights[..n];
    }
  }

  lemma {:induction false} PendingLaunch(flights: seq<Flight>, flight: Flight)
    ensures Pending(flights + [flight]) == Pending(flights) + (if Due(flight) then 1 else 0)
  {
    assert (flights + [flight])[..|flights|] == flights;
  }

  lemma {:induction false} NonePending(flights: seq<Flight>)
    requires forall flight <- flights :: flight.Settled?
    ensures Pending(flights) == 0
    decreases |flights|
  {
    if flights != [] {
      assert flights[|flights| - 1] in flights;
      NonePending(flights[..|flights| - 1]);
    }
  }

  /** Tokens presented so far or about to be. */
  function Burned(s: State): nat { |s.presented| + Pending(s.flights) }

  lemma {:induction false} StartBurns(s: State, c: Caller, purpose: Purpose)
    ensures var s' := StartRefresh(s, c, purpose).0;
            Burned(s') == Burned(s) + (if s.slot.None? && Truthy(s.store.refresh) then 1 else 0)
  {
    PendingLaunch(s.flights, TokenRead(s.store.refresh));
  }

  lemma {:induction false} CallerBurns(s: State, a: Action)
    requires Enabled(s, a) && (a.External() || Mover(s, a) < |s.callers|)
    ensures Burned(Next(s, a)) == Burned(s) + (if Burns(s, a) then 1 else 0)
  {
    match a
    case CallRefresh => StartBurns(s, NewCaller(Options(false, false), HeaderRead(None)), Direct);
    case DecideHeader(i, _) => StartBurns(s, s.callers[i], ForHeader);
    case Answer(i, reply) =>
      var c := s.callers[i];
      StartBurns(s, WithAnswer(c, reply), ForRetry);
    case _ =>
  }

  /** A token is burned by such an ask and by nothing else. */
  lemma {:induction false} StepBurns(s: State, a: Action)
    requires Enabled(s, a)
    ensures Burned(Next(s, a)) == Burned(s) + (if Burns(s, a) then 1 else 0)
  {
    if a.External() || Mover(s, a) < |s.callers| {
      CallerBurns(s, a);
    } else {
      PendingUpdate(s.flights, a.f, Next(s, a).flights[a.f]);
    }
  }

  function BurnsIn(s: State, actions: seq<Action>): nat
    requires CanRun(s, actions)
    decreases |actions|
  {
    if actions == [] then 0
    else (if Burns(s, actions[0]) then 1 else 0) + BurnsIn(Next(s, actions[0]), actions[1..])
  }

  lemma {:induction false} RunBurns(s: State, actions: seq<Action>)
    requires CanRun(s, actions)
    ensures Burned(Run(s, actions)) == Burned(s) + BurnsIn(s, actions)
    decreases |actions|
  {
    if actions != [] {
      StepBurns(s, actions[0]);
      RunBurns(Next(s, actions[0]), actions[1..]);
    }
  }

  /** The `k`-th action of the run burns a token. */
  predicate BurnsAt(s: State, actions: seq<Action>, k: nat)
    requires CanRun(s, actions) && k < |actions|
    decreases k
  {
    if k == 0 then Burns(s, actions[0]) else BurnsAt(Next(s, actions[0]), actions[1..], k - 1)
  }

  ghost predicate NoneBurn(s: State, actions: seq<Action>)
    requires CanRun(s, actions)
  {
    forall k | 0 <= k < |actions| :: !BurnsAt(s, actions, k)
  }

  ghost predicate NoTwoBurn(s: State, actions: seq<Action>)
    requires CanRun(s, actions)
  {
    forall j, k | 0 <= j < k < |actions| :: !(BurnsAt(s, actions, j) && BurnsAt(s, actions, k))
  }

  lemma {:induction false} NoneBurnFrom(s: State, actions: seq<Action>)
    requires CanRun(s, actions) && actions != []
    ensures NoneBurn(s, actions) <==> !Burns(s, actions[0]) && NoneBurn(Next(s, actions[0]), actions[1..])
  {
    var s', rest := Next(s, actions[0]), actions[1..];
    assert BurnsAt(s, actions, 0) == Burns(s, actions[0]);
    if NoneBurn(s, actions) {
      forall k | 0 <= k < |rest| ensures !BurnsAt(s', rest, k) {
        assert !BurnsAt(s, actions, k + 1);
      }
    } else {
      var k :| 0 <= k < |actions| && BurnsAt(s, actions, k);
      assert k > 0 ==> BurnsAt(s', rest, k - 1);
    }
  }

  lemma {:induction false} NoTwoBurnFrom(s: State, actions: seq<Action>)
    requires CanRun(s, actions) && actions != []
    ensures NoTwoBurn(s, actions) <==>
            var s', rest := Next(s, actions[0]), actions[1..];
            NoTwoBurn(s', rest) && (Burns(s, actions[0]) ==> NoneBurn(s', rest))
  {
    var s', rest := Next(s, actions[0]), actions[1..];
    assert BurnsAt(s, actions, 0) == Burns(s, actions[0]);
    if NoTwoBurn(s, actions) {
      forall j, k | 0 <= j < k < |rest| ensures !(BurnsAt(s', rest, j) && BurnsAt(s', rest, k)) {
        assert !(BurnsAt(s, actions, j + 1) && BurnsAt(s, actions, k + 1));
      }
      forall k | 0 <= k < |rest| ensures Burns(s, actions[0]) ==> !BurnsAt(s', rest, k) {
        assert !(BurnsAt(s, actions, 0) && BurnsAt(s, actions, k + 1));
      }
    } else {
      var j, k :| 0 <= j < k < |actions| && BurnsAt(s, actions, j) && BurnsAt(s, actions, k);
      assert BurnsAt(s', rest, k - 1);
      assert j > 0 ==> BurnsAt(s', rest, j - 1);
    }
  }

  lemma {:induction false} NoBurnsIff(s: State, actions: seq<Action>)
    requires CanRun(s, actions)
    ensures BurnsIn(s, actions) == 0 <==> NoneBurn(s, actions)
    decreases |actions|
  {
    if actions != [] {
      NoneBurnFrom(s, actions);
      NoBurnsIff(Next(s, actions[0]), actions[1..]);
    }
  }

  lemma {:induction false} OneBurnIff(s: State, actions: seq<Action>)
    requires CanRun(s, actions)
    ensures BurnsIn(s, actions) <= 1 <==> NoTwoBurn(s, actions)
    decreases |actions|
  {
    if actions != [] {
      NoTwoBurnFrom(s, actions);
      NoBurnsIff(Next(s, actions[0]), actions[1..]);
      OneBurnIff(Next(s, actions[0]), actions[1..]);
    }
  }

  /** Between two moments with no refresh in flight, whatever calls, logins and logouts
      there are, a run presents one token for every ask that found the slot empty and a
      token stored; hence at most one exactly when no two asks did. */
  lemma {:induction false} FanOutBurnsOneIff(s: State, actions: seq<Action>)
    requires CanRun(s, actions)
    requires forall flight <- s.flights :: flight.Settled?
    requires forall flight <- Run(s, actions).flights :: flight.Settled?
    ensures |Run(s, actions).presented| == |s.presented| + BurnsIn(s, actions)
    ensures |Run(s, actions).presented| <= |s.presented| + 1 <==> NoTwoBurn(s, actions)
  {
    RunBurns(s, actions);
    NonePending(s.flights);
    NonePending(Run(s, actions).flights);
    OneBurnIff(s, actions);
  }

  // ----- a fan-out that burns two -----

  const FIRST := AuthTokens("access-1", "refresh-1")
  const SECOND := AuthTokens("access-2", "refresh-2")

  /** Two calls sent with the same access token. */
  lemma {:induction false} TwoCallsSent() returns (s: State)
    ensures Reachable(s)
    ensures var c := NewCaller(Options(false, false), Sending(Some("access-1")));
            s == State(Holding(FIRST), None, [], [c, c], {FIRST}, [])
  {
    ReachableInitially();
    s := INITIAL;
    ReachableNext(s, Login(FIRST)); s := Next(s, Login(FIRST));
    ReachableNext(s, Call(Options(false, false))); s := Next(s, Call(Options(false, false)));
    ReachableNext(s, Call(Options(false, false))); s := Next(s, Call(Options(false, false)));
    ReachableNext(s, DecideHeader(0, false)); s := Next(s, DecideHeader(0, false));
    ReachableNext(s, DecideHeader(1, false)); s := Next(s, DecideHeader(1, false));
  }

  /** The first of them is rejected and starts a refresh. */
  lemma {:induction false} FirstRefreshOfFanOut() returns (s: State)
    ensures Reachable(s) && |s.callers| == 2
    ensures forall c <- s.callers :: c.options == Options(false, false)
    ensures s.callers[0].pc == Awaiting(ForRetry, 0, true) && s.callers[1].pc == Sending(Some("access-1"))
    ensures s.callers[1].answers == []
    ensures s.slot == Some(0) && s.flights == [TokenRead(Some("refresh-1"))] && s.presented == []
    ensures s.issued == {FIRST}
  {
    s := TwoCallsSent();
    ReachableNext(s, Answer(0, Unauthorized("stale"))); s := Next(s, Answer(0, Unauthorized("stale")));
  }

  /** A run in which two calls sent with one stale token present two refresh tokens. */
  lemma {:induction false} FanOutMayRefreshTwice() returns (s: State)
    ensures Reachable(s) && |s.callers| == 2
    ensures s.presented == ["refresh-1", "refresh-2"]
  {
    s := FirstRefreshOfFanOut();
    FlightGranted(s, 0, 0, SECOND);
    var landed := Landed(s, 0, 0, Some(SECOND)).(
                    store := Holding(SECOND), issued := s.issued + {SECOND}, presented := ["refresh-1"]);
    assert s.presented + ["refresh-1"] == ["refresh-1"];
    ReachableOn(s, landed);
    var late := Answer(1, Unauthorized("stale"));
    ReachableNext(landed, late);
    s := Next(landed, late);
    assert s.flights[1] == TokenRead(Some("refresh-2"));
    ReachableNext(s, Present(1));
    s := Next(s, Present(1));
  }
}
