/**
 Safety of the token-refresh protocol: what every interleaving of calls, logins
 and logouts keeps, and the theorems over whole runs that follow.
 */
module TokenSafety {
  import opened Wrappers
  import opened TokenProtocol

  /** Only the flight in the slot can be unsettled. */
  ghost predicate SlotInv(s: State) {
    && (s.slot.Some? ==> s.slot.value < |s.flights|)
    && (forall f | 0 <= f < |s.flights| :: s.slot == Some(f) || s.flights[f].Settled?)
  }

  /** The flight whose promise this caller will drop from the slot, if it leads one. */
  function Led(c: Caller): Option<nat> {
    if c.pc.Awaiting? && c.pc.leads then Some(c.pc.flight) else None
  }

  /** The slot is filled exactly while one caller is going to reset it. */
  ghost predicate LeaderInv(s: State) {
    && (forall c <- s.callers :: Led(c).Some? ==> Led(c) == s.slot)
    && (forall i, j | 0 <= i < j < |s.callers| :: Led(s.callers[i]) == None || Led(s.callers[j]) == None)
    && (s.slot.Some? ==> exists i :: 0 <= i < |s.callers| && Led(s.callers[i]) == s.slot)
  }

  /** The token a flight has put on the wire and not yet had replaced or revoked. */
  predicate Uses(flight: Flight, token: string) {
    (flight.Presented? || flight.BodyPending?) && flight.token == token
  }

  ghost predicate Issued(s: State, token: string) {
    exists g :: g in s.issued && g.refreshToken == token
  }

  /** The two slots of the store belong to one grant, or are both empty. */
  ghost predicate Paired(s: State) {
    s.store == EMPTY_STORE || exists g :: g in s.issued && s.store == Holding(g)
  }

  ghost predicate NoRepeats(tokens: seq<string>) {
    forall j, k | 0 <= j < k < |tokens| :: tokens[j] != tokens[k]
  }

  /** Rotation: the stored refresh token is unpresented, unless the flight in the
      slot is using it; a flight that has read a token finds it unpresented. */
  ghost predicate RotationInv(s: State) {
    && Paired(s)
    && NoRepeats(s.presented)
    && (forall t <- s.presented :: t != "" && Issued(s, t))
    && (s.store.refresh.Some? && s.store.refresh.value in s.presented ==>
          s.slot.Some? && s.slot.value < |s.flights|
          && Uses(s.flights[s.slot.value], s.store.refresh.value))
    && (forall f | 0 <= f < |s.flights| :: s.flights[f].TokenRead? && Truthy(s.flights[f].stored) ==>
          Issued(s, s.flights[f].stored.value) && s.flights[f].stored.value !in s.presented)
  }

  /** A caller has the results of the flights it joined, in order, and nothing else. */
  ghost predicate CallerJoins(s: State, c: Caller) {
    && |c.joined| == |c.results| + (if c.pc.Awaiting? then 1 else 0)
    && (forall k | 0 <= k < |c.joined| :: c.joined[k] < |s.flights|)
    && (forall k | 0 <= k < |c.results| :: s.flights[c.joined[k]] == Settled(c.results[k]))
    && (c.pc.Awaiting? ==> c.joined[|c.results|] == c.pc.flight)
    && (c.pc.Resumed? || c.pc.Refreshed? ==> |c.results| > 0 && c.results[|c.results| - 1] == c.pc.tokens)
  }

  ghost predicate JoinInv(s: State) {
    forall c <- s.callers :: CallerJoins(s, c)
  }

  ghost predicate Inv(s: State) {
    SlotInv(s) && LeaderInv(s) && RotationInv(s) && JoinInv(s)
  }

  // ----- every action keeps the invariant -----

  lemma {:induction false} SlotKept(s: State, a: Action)
    requires SlotInv(s) && LeaderInv(s) && Enabled(s, a)
    ensures SlotInv(Next(s, a))
  {
  }

  lemma {:induction false} LeaderFrame(s: State, s': State)
    requires LeaderInv(s) && s'.slot == s.slot && |s.callers| <= |s'.callers|
    requires forall i | 0 <= i < |s.callers| :: Led(s'.callers[i]) == Led(s.callers[i])
    requires forall i | |s.callers| <= i < |s'.callers| :: Led(s'.callers[i]) == None
    ensures LeaderInv(s')
  {
    if s.slot.Some? {
      var i :| 0 <= i < |s.callers| && Led(s.callers[i]) == s.slot;
      assert Led(s'.callers[i]) == s'.slot;
    }
    forall c <- s'.callers | Led(c).Some? ensures Led(c) == s'.slot {
      var i :| 0 <= i < |s'.callers| && s'.callers[i] == c;
      assert s.callers[i] in s.callers;
    }
  }

  lemma {:induction false} LeaderStarts(s: State, i: nat, c: Caller, purpose: Purpose)
    requires LeaderInv(s) && i < |s.callers| && Led(s.callers[i]) == None
    ensures LeaderInv(StartAt(s, i, c, purpose))
  {
    var s' := StartAt(s, i, c, purpose);
    if s.slot.Some? {
      LeaderFrame(s, s');
    } else {
      assert forall j | 0 <= j < |s.callers| :: s.callers[j] in s.callers;
      assert Led(s'.callers[i]) == s'.slot;
    }
  }

  lemma {:induction false} LeaderResumes(s: State, i: nat)
    requires LeaderInv(s) && Enabled(s, Resume(i))
    ensures LeaderInv(Next(s, Resume(i)))
    ensures s.callers[i].pc.leads ==> s.slot == Some(s.callers[i].pc.flight)
  {
    var s' := Next(s, Resume(i));
    assert s.callers[i] in s.callers;
    if s.callers[i].pc.leads {
      forall c <- s'.callers ensures Led(c) == None {
        var j :| 0 <= j < |s'.callers| && s'.callers[j] == c;
        assert Led(s.callers[i]).Some?;
      }
    } else {
      LeaderFrame(s, s');
    }
  }

  lemma {:induction false} LeaderAnswers(s: State, i: nat, reply: Reply)
    requires LeaderInv(s) && Enabled(s, Answer(i, reply))
    ensures LeaderInv(Next(s, Answer(i, reply)))
  {
    var c := s.callers[i];
    if reply.Unauthorized? && c.options.Eligible() && |c.answers| == 0 {
      LeaderStarts(s, i, WithAnswer(c, reply), ForRetry);
    } else {
      LeaderFrame(s, Next(s, Answer(i, reply)));
    }
  }

  lemma {:induction false} LeaderAsks(s: State)
    requires LeaderInv(s)
    ensures LeaderInv(Next(s, CallRefresh))
  {
    var s' := Next(s, CallRefresh);
    if s.slot.Some? {
      LeaderFrame(s, s');
    } else {
      assert forall j | 0 <= j < |s.callers| :: s.callers[j] in s.callers;
      assert Led(s'.callers[|s.callers|]) == s'.slot;
    }
  }

  lemma {:induction false} LeaderDecides(s: State, i: nat, expired: bool)
    requires LeaderInv(s) && Enabled(s, DecideHeader(i, expired))
    ensures LeaderInv(Next(s, DecideHeader(i, expired)))
  {
    if Truthy(s.callers[i].pc.token) && expired {
      LeaderStarts(s, i, s.callers[i], ForHeader);
    } else {
      LeaderFrame(s, Next(s, DecideHeader(i, expired)));
    }
  }

  /** Calls, logins, logouts and the steps of flights leave the leaders alone. */
  lemma {:induction false} LeaderElsewhere(s: State, a: Action)
    requires LeaderInv(s) && Enabled(s, a) && Mover(s, a) == |s.callers| && !a.CallRefresh?
    ensures LeaderInv(Next(s, a))
  {
    LeaderFrame(s, Next(s, a));
  }

  lemma {:induction false} LeaderKept(s: State, a: Action)
    requires LeaderInv(s) && Enabled(s, a)
    ensures LeaderInv(Next(s, a))
  {
    match a
    case CallRefresh => LeaderAsks(s);
    case Resume(i) => LeaderResumes(s, i);
    case DecideHeader(i, expired) => LeaderDecides(s, i, expired);
    case Answer(i, reply) => LeaderAnswers(s, i, reply);
    case Continue(_) => LeaderFrame(s, Next(s, a));
    case Notify(_) => LeaderFrame(s, Next(s, a));
    case _ => LeaderElsewhere(s, a);
  }

  /** What a step must leave alone for rotation to be kept without further thought. */
  lemma {:induction false} RotationFrame(s: State, s': State)
    requires RotationInv(s)
    requires s'.presented == s.presented && s'.issued == s.issued
    requires s'.slot == s.slot && s'.flights == s.flights
    requires s'.store == s.store || s'.store == EMPTY_STORE
    ensures RotationInv(s')
  {
    assert forall t | Issued(s, t) :: Issued(s', t);
  }

  lemma {:induction false} StoredIsIssued(s: State)
    requires Paired(s) && s.store.refresh.Some?
    ensures Issued(s, s.store.refresh.value)
  {
  }

  /** Filling the empty slot with a flight that has read the stored token. */
  lemma {:induction false} RotationLaunch(s: State, s': State)
    requires RotationInv(s) && s.slot.None?
    requires s' == s.(slot := s'.slot, flights := s.flights + [TokenRead(s.store.refresh)], callers := s'.callers)
    requires s'.slot == Some(|s.flights|)
    ensures RotationInv(s')
  {
    if s.store.refresh.Some? {
      StoredIsIssued(s);
    }
    assert forall t | Issued(s, t) :: Issued(s', t);
  }

  lemma {:induction false} RotationStarts(s: State, i: nat, c: Caller, purpose: Purpose)
    requires RotationInv(s) && i < |s.callers|
    ensures RotationInv(StartAt(s, i, c, purpose))
  {
    if s.slot.Some? {
      RotationFrame(s, StartAt(s, i, c, purpose));
    } else {
      RotationLaunch(s, StartAt(s, i, c, purpose));
    }
  }

  lemma {:induction false} RotationResumes(s: State, i: nat)
    requires LeaderInv(s) && RotationInv(s) && Enabled(s, Resume(i))
    ensures RotationInv(Next(s, Resume(i)))
  {
    var s' := Next(s, Resume(i));
    LeaderResumes(s, i);
    assert forall t | Issued(s, t) :: Issued(s', t);
  }

  /** A fresh grant enters the store, and with it at most the slot's flight moves on. */
  lemma {:induction false} RotationGrants(s: State, s': State, tokens: AuthTokens)
    requires RotationInv(s) && Fresh(s, tokens)
    requires s'.store == Holding(tokens) && s'.issued == s.issued + {tokens} && s'.presented == s.presented
    requires s'.slot == s.slot && |s'.flights| == |s.flights|
    requires forall f | 0 <= f < |s.flights| && s'.flights[f].TokenRead? :: s'.flights[f] == s.flights[f]
    ensures RotationInv(s')
  {
    assert tokens in s'.issued;
    assert forall t | Issued(s, t) :: Issued(s', t);
    assert tokens.refreshToken !in s.presented;
  }

  lemma {:induction false} RotationPresents(s: State, f: nat)
    requires SlotInv(s) && RotationInv(s) && Enabled(s, Present(f))
    ensures RotationInv(Next(s, Present(f)))
  {
    var s' := Next(s, Present(f));
    assert s.slot == Some(f);
    assert forall t | Issued(s, t) :: Issued(s', t);
    assert forall g | 0 <= g < |s.flights| && g != f :: s.flights[g].Settled?;
  }

  /** The flight gives its token up after the store was cleared, or keeps using it. */
  lemma {:induction false} RotationMoves(s: State, f: nat, flight: Flight, store: TokenStore)
    requires SlotInv(s) && RotationInv(s) && f < |s.flights|
    requires !flight.TokenRead?
    requires store == EMPTY_STORE
             || (store == s.store && forall t | Uses(s.flights[f], t) :: Uses(flight, t))
    ensures RotationInv(NextFlight(s, f, flight).(store := store))
  {
    var s' := NextFlight(s, f, flight).(store := store);
    assert forall t | Issued(s, t) :: Issued(s', t);
  }

  lemma {:induction false} RotationAnswers(s: State, i: nat, reply: Reply)
    requires RotationInv(s) && Enabled(s, Answer(i, reply))
    ensures RotationInv(Next(s, Answer(i, reply)))
  {
    var c := s.callers[i];
    if reply.Unauthorized? && c.options.Eligible() && |c.answers| == 0 {
      RotationStarts(s, i, WithAnswer(c, reply), ForRetry);
    } else {
      RotationFrame(s, Next(s, Answer(i, reply)));
    }
  }

  lemma {:induction false} RotationByCallers(s: State, a: Action)
    requires LeaderInv(s) && RotationInv(s) && Enabled(s, a) && (a.External() || Mover(s, a) < |s.callers|)
    ensures RotationInv(Next(s, a))
  {
    var s' := Next(s, a);
    match a
    case CallRefresh =>
      if s.slot.Some? { RotationFrame(s, s'); } else { RotationLaunch(s, s'); }
    case Login(tokens) => RotationGrants(s, s', tokens);
    case Resume(i) => RotationResumes(s, i);
    case DecideHeader(i, expired) =>
      if Truthy(s.callers[i].pc.token) && expired {
        RotationStarts(s, i, s.callers[i], ForHeader);
      } else {
        RotationFrame(s, s');
      }
    case Answer(i, reply) => RotationAnswers(s, i, reply);
    case _ => RotationFrame(s, s');
  }

  lemma {:induction false} RotationByFlights(s: State, a: Action)
    requires SlotInv(s) && RotationInv(s) && Enabled(s, a) && !a.External() && Mover(s, a) == |s.callers|
    ensures RotationInv(Next(s, a))
  {
    match a
    case Present(f) => RotationPresents(s, f);
    case Reject(f) => RotationMoves(s, f, Returning(None), EMPTY_STORE);
    case Accept(f) => RotationMoves(s, f, BodyPending(s.flights[f].token), s.store);
    case Body(f, tokens) => RotationGrants(s, Next(s, a), tokens);
    case BrokenBody(f) => RotationMoves(s, f, Returning(None), EMPTY_STORE);
    case Settle(f) => RotationMoves(s, f, Settled(s.flights[f].result), s.store);
  }

  lemma {:induction false} RotationKept(s: State, a: Action)
    requires SlotInv(s) && LeaderInv(s) && RotationInv(s) && Enabled(s, a)
    ensures RotationInv(Next(s, a))
  {
    if a.External() || Mover(s, a) < |s.callers| {
      RotationByCallers(s, a);
    } else {
      RotationByFlights(s, a);
    }
  }

  /** A promise settles once: no step takes a settled value back. */
  lemma {:induction false} SettledStays(s: State, a: Action, f: nat)
    requires Enabled(s, a) && f < |s.flights| && s.flights[f].Settled?
    ensures f < |Next(s, a).flights| && Next(s, a).flights[f] == s.flights[f]
  {
  }

  lemma {:induction false} JoinsStay(s: State, a: Action, c: Caller)
    requires Enabled(s, a) && CallerJoins(s, c)
    ensures CallerJoins(Next(s, a), c)
  {
    forall k | 0 <= k < |c.results| ensures Next(s, a).flights[c.joined[k]] == Settled(c.results[k]) {
      SettledStays(s, a, c.joined[k]);
    }
    assert |s.flights| <= |Next(s, a).flights|;
  }

  /** The index of the one caller an action is about. */
  function Mover(s: State, a: Action): nat {
    match a
    case DecideHeader(i, _) => i
    case Answer(i, _) => i
    case Resume(i) => i
    case Continue(i) => i
    case Notify(i) => i
    case _ => |s.callers|
  }

  lemma {:induction false} OthersUnmoved(s: State, a: Action, j: nat)
    requires Enabled(s, a) && j < |s.callers| && j != Mover(s, a)
    ensures j < |Next(s, a).callers| && Next(s, a).callers[j] == s.callers[j]
  {
  }

  lemma {:induction false} StartJoins(s: State, c: Caller, purpose: Purpose)
    requires SlotInv(s) && CallerJoins(s, c) && !c.pc.Awaiting?
    ensures CallerJoins(StartRefresh(s, c, purpose).0, StartRefresh(s, c, purpose).1)
  {
  }

  lemma {:induction false} JoinsFrame(s: State, s': State, c: Caller, c': Caller)
    requires CallerJoins(s, c) && s'.flights == s.flights
    requires c'.joined == c.joined && c'.results == c.results
    requires c'.pc.Awaiting? == c.pc.Awaiting? == false && !c'.pc.Resumed?
    requires c'.pc.Refreshed? ==> c.pc.Resumed? && c'.pc.tokens == c.pc.tokens
    ensures CallerJoins(s', c')
  {
  }

  lemma {:induction false} StartedJoins(s: State, i: nat, c: Caller, purpose: Purpose)
    requires SlotInv(s) && i < |s.callers| && CallerJoins(s, c) && !c.pc.Awaiting?
    ensures CallerJoins(StartAt(s, i, c, purpose), StartAt(s, i, c, purpose).callers[i])
  {
    var (s1, c1) := StartRefresh(s, c, purpose);
    StartJoins(s, c, purpose);
    assert StartAt(s, i, c, purpose).flights == s1.flights;
  }

  lemma {:induction false} ResumerJoins(s: State, i: nat)
    requires JoinInv(s) && Enabled(s, Resume(i))
    ensures CallerJoins(Next(s, Resume(i)), Next(s, Resume(i)).callers[i])
  {
    var c := s.callers[i];
    var c' := Next(s, Resume(i)).callers[i];
    assert CallerJoins(s, c);
    assert c'.results == c.results + [s.flights[c.pc.flight].result];
  }

  lemma {:induction false} NewcomerJoins(s: State, a: Action)
    requires SlotInv(s) && (a.Call? || a.CallRefresh?)
    ensures CallerJoins(Next(s, a), Next(s, a).callers[|s.callers|])
  {
    if a.CallRefresh? {
      StartJoins(s, NewCaller(Options(false, false), HeaderRead(None)), Direct);
    }
  }

  lemma {:induction false} AnsweredJoins(s: State, i: nat, reply: Reply)
    requires SlotInv(s) && JoinInv(s) && Enabled(s, Answer(i, reply))
    ensures CallerJoins(Next(s, Answer(i, reply)), Next(s, Answer(i, reply)).callers[i])
  {
    var c := s.callers[i];
    assert CallerJoins(s, c);
    if reply.Unauthorized? && c.options.Eligible() && |c.answers| == 0 {
      StartedJoins(s, i, WithAnswer(c, reply), ForRetry);
    } else {
      JoinsFrame(s, Next(s, Answer(i, reply)), c, Next(s, Answer(i, reply)).callers[i]);
    }
  }

  lemma {:induction false} MoverJoins(s: State, a: Action)
    requires SlotInv(s) && JoinInv(s) && Enabled(s, a)
    requires Mover(s, a) < |Next(s, a).callers|
    ensures CallerJoins(Next(s, a), Next(s, a).callers[Mover(s, a)])
  {
    var i := Mover(s, a);
    var s' := Next(s, a);
    if i < |s.callers| {
      assert CallerJoins(s, s.callers[i]);
    }
    match a
    case Call(_) => NewcomerJoins(s, a);
    case CallRefresh => NewcomerJoins(s, a);
    case DecideHeader(_, expired) =>
      if Truthy(s.callers[i].pc.token) && expired {
        StartedJoins(s, i, s.callers[i], ForHeader);
      } else {
        JoinsFrame(s, s', s.callers[i], s'.callers[i]);
      }
    case Answer(_, reply) => AnsweredJoins(s, i, reply);
    case Resume(_) => ResumerJoins(s, i);
    case Continue(_) => JoinsFrame(s, s', s.callers[i], s'.callers[i]);
    case Notify(_) => JoinsFrame(s, s', s.callers[i], s'.callers[i]);
    case _ =>
  }

  lemma {:induction false} JoinKept(s: State, a: Action)
    requires SlotInv(s) && JoinInv(s) && Enabled(s, a)
    ensures JoinInv(Next(s, a))
  {
    var s' := Next(s, a);
    forall c <- s'.callers ensures CallerJoins(s', c) {
      var j :| 0 <= j < |s'.callers| && s'.callers[j] == c;
      if j == Mover(s, a) {
        MoverJoins(s, a);
      } else {
        OthersUnmoved(s, a, j);
        JoinsStay(s, a, c);
      }
    }
  }

  lemma {:induction false} InvKept(s: State, a: Action)
    requires Inv(s) && Enabled(s, a)
    ensures Inv(Next(s, a))
  {
    SlotKept(s, a);
    LeaderKept(s, a);
    RotationKept(s, a);
    JoinKept(s, a);
  }

  lemma {:induction false} InvRun(s: State, actions: seq<Action>)
    requires Inv(s) && CanRun(s, actions)
    ensures Inv(Run(s, actions))
    decreases |actions|
  {
    if actions != [] {
      InvKept(s, actions[0]);
      InvRun(Next(s, actions[0]), actions[1..]);
    }
  }

  // ----- theorems over every run from an empty store -----

  ghost predicate Reachable(s: State) {
    exists actions :: CanRun(INITIAL, actions) && s == Run(INITIAL, actions)
  }

  lemma {:induction false} ReachableInv(s: State)
    requires Reachable(s)
    ensures Inv(s)
  {
    var actions :| CanRun(INITIAL, actions) && s == Run(INITIAL, actions);
    InvRun(INITIAL, actions);
  }

  /** However calls, logins and logouts interleave, no refresh token is presented
      twice, and no two refresh requests are in flight together. */
  lemma {:induction false} RefreshTokensPresentedOnce(s: State)
    requires Reachable(s)
    ensures forall j, k | 0 <= j < k < |s.presented| :: s.presented[j] != s.presented[k]
    ensures forall f, g | 0 <= f < g < |s.flights| :: s.flights[f].Settled? || s.flights[g].Settled?
  {
    ReachableInv(s);
  }

  /** The access and refresh tokens are both absent or come from one grant. */
  lemma {:induction false} StoreHoldsOneGrant(s: State)
    requires Reachable(s)
    ensures s.store == TokenStore(None, None)
            || exists g :: g in s.issued && s.store == TokenStore(Some(g.accessToken), Some(g.refreshToken))
  {
    ReachableInv(s);
    if s.store != EMPTY_STORE {
      var g :| g in s.issued && s.store == Holding(g);
    }
  }

  /** A stored refresh token has been presented only if a refresh using it is
      still running, so the next flight finds a token it may present. */
  lemma {:induction false} StoredTokenIsUsable(s: State)
    requires Reachable(s) && s.slot.None?
    ensures s.store.refresh.Some? ==> s.store.refresh.value !in s.presented
  {
    ReachableInv(s);
  }

  /** Everyone who joined a flight got the value its promise settled to. */
  lemma {:induction false} JoinersShareTheResult(s: State, c: Caller, d: Caller, k: nat, l: nat)
    requires Reachable(s) && c in s.callers && d in s.callers
    requires k < |c.results| && l < |d.results| && k < |c.joined| && l < |d.joined|
    requires c.joined[k] == d.joined[l]
    ensures c.results[k] == d.results[l]
    ensures c.joined[k] < |s.flights| && s.flights[c.joined[k]] == Settled(c.results[k])
  {
    ReachableInv(s);
    assert CallerJoins(s, c) && CallerJoins(s, d);
  }

  /** A direct refresh ends with the value of the promise it waited for. */
  lemma {:induction false} DirectRefreshReturnsItsResult(s: State, c: Caller)
    requires Reachable(s) && c in s.callers && c.pc.Refreshed?
    ensures c.joined != [] && c.joined[|c.joined| - 1] < |s.flights|
    ensures s.flights[c.joined[|c.joined| - 1]] == Settled(c.pc.tokens)
  {
    ReachableInv(s);
    assert CallerJoins(s, c);
  }

  /** The slot is emptied or overwritten only by the `finally` of the caller that
      filled it, after its own promise has settled. */
  lemma {:induction false} FinallyDropsOnlyItsOwnPromise(s: State, a: Action)
    requires Reachable(s) && Enabled(s, a)
    ensures s.slot.Some? && Next(s, a).slot != s.slot ==>
              a.Resume? && s.callers[a.i].pc.leads && s.slot == Some(s.callers[a.i].pc.flight)
              && s.slot.value < |s.flights| && s.flights[s.slot.value].Settled?
    ensures a.Resume? && s.callers[a.i].pc.leads ==> s.slot == Some(s.callers[a.i].pc.flight)
  {
    ReachableInv(s);
    if a.Resume? {
      LeaderResumes(s, a.i);
    }
  }

  // ----- signed out is absorbing -----

  /** Nothing in the store or in a flight can lead to another token. */
  ghost predicate Drained(s: State) {
    && !Truthy(s.store.refresh)
    && (forall f | 0 <= f < |s.flights| ::
          && !s.flights[f].Presented? && !s.flights[f].BodyPending?
          && (s.flights[f].TokenRead? ==> !Truthy(s.flights[f].stored)))
  }

  lemma {:induction false} DrainedKept(s: State, a: Action)
    requires Drained(s) && Enabled(s, a) && !a.Login?
    ensures Drained(Next(s, a))
    ensures Next(s, a).store == s.store || Next(s, a).store == EMPTY_STORE
    ensures Next(s, a).presented == s.presented && Next(s, a).issued == s.issued
  {
  }

  lemma {:induction false} DrainedRun(s: State, actions: seq<Action>)
    requires Drained(s) && CanRun(s, actions)
    requires forall a <- actions :: !a.Login?
    ensures Run(s, actions).store == s.store || Run(s, actions).store == EMPTY_STORE
    ensures Run(s, actions).presented == s.presented && Run(s, actions).issued == s.issued
    decreases |actions|
  {
    if actions != [] {
      DrainedKept(s, actions[0]);
      DrainedRun(Next(s, actions[0]), actions[1..]);
    }
  }

  /** Once no refresh token is stored and no refresh is in flight, no call can bring
      a token back or present one: only a login from outside can. */
  lemma {:induction false} SignedOutIsAbsorbing(s: State, actions: seq<Action>)
    requires !Truthy(s.store.refresh)
    requires forall f | 0 <= f < |s.flights| :: s.flights[f].Settled?
    requires CanRun(s, actions) && forall a <- actions :: !a.Login?
    ensures Run(s, actions).store == s.store || Run(s, actions).store == EMPTY_STORE
    ensures Run(s, actions).presented == s.presented && Run(s, actions).issued == s.issued
  {
    DrainedRun(s, actions);
  }

  /** A logout while no refresh is in flight empties the store for good: until the next
      login it stays empty, and no token is presented. */
  lemma {:induction false} LogoutSignsOut(s: State, actions: seq<Action>)
    requires forall f | 0 <= f < |s.flights| :: s.flights[f].Settled?
    requires CanRun(Next(s, Logout), actions) && forall a <- actions :: !a.Login?
    ensures Run(Next(s, Logout), actions).store == TokenStore(None, None)
    ensures Run(Next(s, Logout), actions).presented == s.presented
  {
    SignedOutIsAbsorbing(Next(s, Logout), actions);
  }

  /** A login is what the next call sends, and what the next refresh presents. */
  lemma {:induction false} LoginIsUsed(s: State, tokens: AuthTokens, options: Options)
    requires Enabled(s, Login(tokens)) && !options.isPublic && tokens.accessToken != "" && tokens.refreshToken != ""
    ensures var s1, i := Next(s, Login(tokens)), |s.callers|;
            var s2 := Next(s1, Call(options));
            && Enabled(s2, DecideHeader(i, false))
            && Next(s2, DecideHeader(i, false)).callers[i].pc == Sending(Some(tokens.accessToken))
    ensures s.slot.None? ==>
              var s2, f := Next(Next(s, Login(tokens)), CallRefresh), |s.flights|;
              Enabled(s2, Present(f)) && Next(s2, Present(f)).presented == s.presented + [tokens.refreshToken]
  {
  }

  /** A retry reads the store again: a call that was granted tokens but finds them cleared
      by a logout meanwhile sends none. */
  lemma {:induction false} LogoutBeforeRetry(s: State, i: nat, expired: bool)
    requires i < |s.callers| && s.callers[i].options.Eligible()
    requires s.callers[i].pc.Resumed? && s.callers[i].pc.purpose == ForRetry && s.callers[i].pc.tokens.Some?
    ensures var s1 := Next(s, Logout);
            && Enabled(s1, Continue(i))
            && Enabled(Next(s1, Continue(i)), DecideHeader(i, expired))
            && Next(Next(s1, Continue(i)), DecideHeader(i, expired)).callers[i].pc == Sending(None)
  {
  }

  /** Nothing is assumed of the outside but fresh grants: calls, refreshes and logouts may
      come at any time, an endpoint may give any answer, and the server may refuse, accept
      or break off any refresh. */
  lemma {:induction false} OutsideIsFree(s: State)
    ensures Enabled(s, CallRefresh) && Enabled(s, Logout) && forall options :: Enabled(s, Call(options))
    ensures forall tokens | Fresh(s, tokens) :: Enabled(s, Login(tokens))
    ensures forall i: nat, reply | i < |s.callers| && s.callers[i].pc.Sending? :: Enabled(s, Answer(i, reply))
    ensures forall f: nat | f < |s.flights| && s.flights[f].Presented? :: Enabled(s, Reject(f)) && Enabled(s, Accept(f))
    ensures forall f: nat | f < |s.flights| && s.flights[f].BodyPending? :: Enabled(s, BrokenBody(f))
    ensures forall f: nat, tokens | f < |s.flights| && s.flights[f].BodyPending? && Fresh(s, tokens) :: Enabled(s, Body(f, tokens))
  {
  }
}
