/**
 The sequential client is one of the protocol's runs: a request executed alone by
 `ApiClients.Requested` is a run of the `TokenProtocol` machine with the same store,
 the same refresh tokens presented, the same answers and the same end.  Hence what
 `TokenSafety` proves of every run holds of the imperative client.
 */
module SoloCalls {
  import opened Wrappers
  import opened TokenProtocol
  import opened TokenRuns
  import opened ApiClients

  function Abs(entries: map<string, string>): TokenStore {
    TokenStore(Lookup(entries, ACCESS_TOKEN), Lookup(entries, REFRESH_TOKEN))
  }

  /** The machine is idle and has the client's store; it has presented `base` and then
      what the client's log shows. */
  ghost predicate Mirrors(s: State, c: Client, base: seq<string>) {
    && s.slot.None?
    && s.store == Abs(c.entries)
    && s.presented == base + Posts(c.log)
  }

  /** The server keeps its promise from the `k`-th event on. */
  ghost predicate FreshFrom(w: World, s: State, k: nat) {
    && (forall j: nat | k <= j && w.refresh(j).Granted? :: Fresh(s, w.refresh(j).tokens))
    && (forall j: nat, l: nat | k <= j < l && w.refresh(j).Granted? && w.refresh(l).Granted? ::
          w.refresh(l).tokens.refreshToken == ""
          || w.refresh(j).tokens.refreshToken != w.refresh(l).tokens.refreshToken)
  }

  lemma {:induction false} FreshLater(w: World, s: State, s': State, k: nat, l: nat)
    requires FreshFrom(w, s, k) && k <= l
    requires s'.issued == s.issued
             || (k < l && w.refresh(k).Granted? && s'.issued == s.issued + {w.refresh(k).tokens})
    ensures FreshFrom(w, s', l)
  {
  }

  lemma {:induction false} StoreEffects(entries: map<string, string>, tokens: AuthTokens)
    ensures Abs(WithTokens(entries, tokens)) == Holding(tokens)
    ensures Abs(WithoutTokens(entries)) == EMPTY_STORE
  {
  }

  /** Where caller `i` stands when its refresh is over. */
  predicate AfterRefresh(s: State, s': State, i: nat, caller: Caller, purpose: Purpose, result: Option<AuthTokens>) {
    && i < |s.callers| && i < |s'.callers| == |s.callers|
    && s'.callers[i].pc == Resumed(purpose, result)
    && s'.callers[i].options == caller.options && s'.callers[i].answers == caller.answers
    && s'.callers[i].headers == caller.headers
    && s'.callers[i].notified == caller.notified
  }

  /** A launched flight, answered as the world answers the client. */
  lemma {:induction false} SoloFlight(w: World, c: Client, s: State, i: nat, f: nat) returns (s': State)
    requires Launched(s, i, f) && s.store == Abs(c.entries) && s.flights[f].stored == s.store.refresh
    requires w.refresh(|c.log|).Granted? ==> Fresh(s, w.refresh(|c.log|).tokens)
    ensures LeadsTo(s, s')
    ensures var (c', result) := PerformedRefresh(w, c);
            s' == Landed(s, i, f, result).(store := Abs(c'.entries), issued := s'.issued, presented := s'.presented)
    ensures s'.presented == if Truthy(s.store.refresh) then s.presented + [s.store.refresh.value] else s.presented
    ensures s'.issued == s.issued
            || (Truthy(s.store.refresh) && w.refresh(|c.log|).Granted? && s'.issued == s.issued + {w.refresh(|c.log|).tokens})
  {
    var token := s.store.refresh;
    if !Truthy(token) {
      FlightWithoutToken(s, i, f);
      s' := Landed(s, i, f, None);
    } else {
      match w.refresh(|c.log|) {
        case Rejected =>
          FlightRejected(s, i, f);
          StoreEffects(c.entries, AuthTokens("", ""));
          s' := Landed(s, i, f, None).(store := EMPTY_STORE, presented := s.presented + [token.value]);
        case Broken =>
          FlightBroken(s, i, f);
          StoreEffects(c.entries, AuthTokens("", ""));
          s' := Landed(s, i, f, None).(store := EMPTY_STORE, presented := s.presented + [token.value]);
        case Granted(tokens) =>
          FlightGranted(s, i, f, tokens);
          StoreEffects(c.entries, tokens);
          s' := Landed(s, i, f, Some(tokens)).(store := Holding(tokens), issued := s.issued + {tokens},
                                               presented := s.presented + [token.value]);
      }
    }
  }

  lemma {:induction false} RefreshIsLogged(w: World, c: Client)
    ensures var c', token := PerformedRefresh(w, c).0, Lookup(c.entries, REFRESH_TOKEN);
            && |c'.log| == |c.log| + (if Truthy(token) then 1 else 0)
            && Posts(c'.log) == if Truthy(token) then Posts(c.log) + [token.value] else Posts(c.log)
  {
    var token := Lookup(c.entries, REFRESH_TOKEN);
    if Truthy(token) {
      LogGrows(c.log, ApiClients.Posted(token.value, w.refresh(|c.log|)));
    }
  }

  lemma {:induction false} SoloRefresh(w: World, c: Client, s: State, i: nat, caller: Caller, purpose: Purpose, base: seq<string>)
      returns (s': State)
    requires Mirrors(s, c, base) && FreshFrom(w, s, |c.log|) && i < |s.callers|
    ensures LeadsTo(StartAt(s, i, caller, purpose), s')
    ensures AfterRefresh(s, s', i, caller, purpose, PerformedRefresh(w, c).1)
    ensures Mirrors(s', PerformedRefresh(w, c).0, base)
    ensures FreshFrom(w, s', |PerformedRefresh(w, c).0.log|)
  {
    var s1 := StartAt(s, i, caller, purpose);
    var f := |s.flights|;
    var c' := PerformedRefresh(w, c).0;
    assert Launched(s1, i, f) && s1.flights[f].stored == s1.store.refresh;
    s' := SoloFlight(w, c, s1, i, f);
    RefreshIsLogged(w, c);
    assert s'.presented == base + Posts(c'.log);
    FreshLater(w, s, s', |c.log|, |c'.log|);
  }

  /** Caller `i` has sent its request with the header the client would build. */
  predicate AfterSend(s: State, s': State, i: nat, header: Option<string>) {
    && i < |s.callers| && i < |s'.callers| == |s.callers|
    && s'.callers[i].pc == Sending(header)
    && s'.callers[i].options == s.callers[i].options && s'.callers[i].answers == s.callers[i].answers
    && s'.callers[i].headers == s.callers[i].headers
    && s'.callers[i].notified == s.callers[i].notified
  }

  lemma {:induction false} SoloHeader(w: World, c: Client, s: State, i: nat, base: seq<string>) returns (s': State)
    requires Mirrors(s, c, base) && FreshFrom(w, s, |c.log|) && i < |s.callers|
    requires s.callers[i].pc == HeaderRead(Lookup(c.entries, ACCESS_TOKEN))
    ensures LeadsTo(s, s') && AfterSend(s, s', i, BuiltHeader(w, c).1)
    ensures Mirrors(s', BuiltHeader(w, c).0, base) && FreshFrom(w, s', |BuiltHeader(w, c).0.log|)
  {
    var token := Lookup(c.entries, ACCESS_TOKEN);
    var decide := DecideHeader(i, w.expired(|c.log|));
    Stays(s);
    Then(s, s, decide);
    var s1 := Next(s, decide);
    if Truthy(token) && w.expired(|c.log|) {
      var s2 := SoloRefresh(w, c, s, i, s.callers[i], ForHeader, base);
      Chain(s, s1, s2);
      Then(s, s2, Continue(i));
      s' := Next(s2, Continue(i));
    } else {
      s' := s1;
    }
    FreshLater(w, s', s', |BuiltHeader(w, c).0.log|, |BuiltHeader(w, c).0.log|);
  }

  /** One attempt up to the moment its answer arrives. */
  lemma {:induction false} SoloAttempt(w: World, options: Options, c: Client, s: State, i: nat, base: seq<string>) returns (s': State)
    requires Mirrors(s, c, base) && FreshFrom(w, s, |c.log|) && i < |s.callers|
    requires s.callers[i].pc == BeginAttempt(s, options)
    ensures LeadsTo(s, s') && i < |s'.callers| && s'.callers[i].pc.Sending? && AfterSend(s, s', i, HeaderFor(w, options, c))
    ensures Mirrors(s', Executed(w, options, c).0, base)
    ensures FreshFrom(w, s', |Executed(w, options, c).0.log|)
  {
    var (c1, header) := if options.isPublic then (c, None) else BuiltHeader(w, c);
    if options.isPublic {
      Stays(s);
      s' := s;
    } else {
      s' := SoloHeader(w, c, s, i, base);
    }
    LogGrows(c1.log, Sent(header, w.reply(|c1.log|)));
    FreshLater(w, s', s', |c1.log|, |c1.log| + 1);
  }

  /** The end of a call, as the specification of the request tells it. */
  predicate Ended(s: State, i: nat, outcome: Reply, hook: bool) {
    && i < |s.callers|
    && s.callers[i].pc == (if outcome.Success? then Returned(outcome.value) else Threw(outcome.error))
    && s.callers[i].notified == hook
  }

  lemma {:induction false} SoloSignOut(c: Client, s: State, s1: State, i: nat, base: seq<string>, error: string) returns (s': State)
    requires LeadsTo(s, s1) && i < |s1.callers| && s1.callers[i].pc == SigningOut(error)
    requires s1.slot.None? && s1.store == EMPTY_STORE && s1.presented == base + Posts(c.log)
    ensures LeadsTo(s, s') && Ended(s', i, Unauthorized(error), true)
    ensures Mirrors(s', SignedOut(c), base)
    ensures s'.callers[i].answers == s1.callers[i].answers && s'.callers[i].headers == s1.callers[i].headers
  {
    Then(s, s1, Notify(i));
    s' := Next(s1, Notify(i));
    StoreEffects(c.entries, AuthTokens("", ""));
    LogGrows(c.log, HookFired);
  }

  /** The retry after a first 401 and a successful refresh. */
  lemma {:induction false} SoloRetry(w: World, options: Options, c: Client, s: State, i: nat, base: seq<string>) returns (s': State)
    requires options.Eligible() && Mirrors(s, c, base) && FreshFrom(w, s, |c.log|)
    requires i < |s.callers| && s.callers[i].options == options && |s.callers[i].answers| == 1
    requires !s.callers[i].notified && s.callers[i].pc == BeginAttempt(s, options)
    ensures var (c3, retry) := Executed(w, options, c);
            && LeadsTo(s, s') && Ended(s', i, retry, retry.Unauthorized?)
            && Mirrors(s', if retry.Unauthorized? then SignedOut(c3) else c3, base)
            && s'.callers[i].answers == s.callers[i].answers + [retry]
            && s'.callers[i].headers == s.callers[i].headers + [HeaderFor(w, options, c)]
  {
    var (c3, retry) := Executed(w, options, c);
    var s1 := SoloAttempt(w, options, c, s, i, base);
    Then(s, s1, Answer(i, retry));
    s' := Next(s1, Answer(i, retry));
    if retry.Unauthorized? {
      s' := SoloSignOut(c3, s, s', i, base, retry.error);
    }
  }

  /** A first 401 of a call that may refresh, up to the end of the refresh. */
  lemma {:induction false} SoloShared(w: World, c: Client, s: State, i: nat, first: Reply, base: seq<string>)
      returns (s': State)
    requires first.Unauthorized? && Mirrors(s, c, base) && FreshFrom(w, s, |c.log|)
    requires i < |s.callers| && s.callers[i].pc.Sending? && s.callers[i].options.Eligible()
    requires s.callers[i].answers == []
    ensures LeadsTo(s, s')
    ensures AfterRefresh(s, s', i, WithAnswer(s.callers[i], first), ForRetry, PerformedRefresh(w, c).1)
    ensures Mirrors(s', PerformedRefresh(w, c).0, base)
    ensures FreshFrom(w, s', |PerformedRefresh(w, c).0.log|)
  {
    var c1 := WithAnswer(s.callers[i], first);
    Stays(s);
    Then(s, s, Answer(i, first));
    assert Next(s, Answer(i, first)) == StartAt(s, i, c1, ForRetry);
    s' := SoloRefresh(w, c, s, i, c1, ForRetry, base);
    Chain(s, StartAt(s, i, c1, ForRetry), s');
  }

  /** A first 401 of a call that may refresh, up to the end of the call. */
  lemma {:induction false} SoloRejected(w: World, options: Options, c: Client, s: State, i: nat, first: Reply, base: seq<string>)
      returns (s': State)
    requires options.Eligible() && first.Unauthorized? && Mirrors(s, c, base) && FreshFrom(w, s, |c.log|)
    requires i < |s.callers| && s.callers[i].pc.Sending? && s.callers[i].options == options
    requires s.callers[i].answers == [] && s.callers[i].headers == [] && !s.callers[i].notified
    ensures var (c2, tokens) := PerformedRefresh(w, c);
            var (c3, retry) := Executed(w, options, c2);
            && LeadsTo(s, s')
            && (tokens.None? ==> Ended(s', i, first, true) && Mirrors(s', SignedOut(c2), base)
                                 && s'.callers[i].answers == [first] && s'.callers[i].headers == [s.callers[i].pc.header])
            && (tokens.Some? ==> Ended(s', i, retry, retry.Unauthorized?)
                                 && Mirrors(s', if retry.Unauthorized? then SignedOut(c3) else c3, base)
                                 && s'.callers[i].answers == [first, retry]
                                 && s'.callers[i].headers == [s.callers[i].pc.header, HeaderFor(w, options, c2)])
  {
    var s2 := SoloShared(w, c, s, i, first, base);
    Then(s, s2, Continue(i));
    var s3 := Next(s2, Continue(i));
    var (c2, tokens) := PerformedRefresh(w, c);
    if tokens.None? {
      s' := SoloSignOut(c2, s, s3, i, base, first.error);
    } else {
      FreshLater(w, s2, s3, |c2.log|, |c2.log|);
      s' := SoloRetry(w, options, c2, s3, i, base);
      Chain(s, s3, s');
    }
  }

  lemma {:induction false} SendsOfRejected(w: World, options: Options, c: Client, first: Reply)
    requires options.Eligible() && first.Unauthorized?
    requires Sends(c.log) == [first] && |Posts(c.log)| <= 1 && HookFired !in c.log
    ensures var c2 := PerformedRefresh(w, c).0;
            var (c3, retry) := Executed(w, options, c2);
            && Sends(SignedOut(c2).log) == [first]
            && Sends(c3.log) == Sends(SignedOut(c3).log) == [first, retry]
  {
    RetryEffect(w, options, c, first);
    var c2 := PerformedRefresh(w, c).0;
    SignOutEffect(c2);
    SignOutEffect(Executed(w, options, c2).0);
  }

  lemma {:induction false} CarriedOfRejected(w: World, options: Options, c: Client)
    ensures var c2 := PerformedRefresh(w, c).0;
            var c3 := Executed(w, options, c2).0;
            && Carried(SignedOut(c2).log) == Carried(c.log)
            && Carried(c3.log) == Carried(SignedOut(c3).log) == Carried(c.log) + [HeaderFor(w, options, c2)]
  {
    var c2 := PerformedRefresh(w, c).0;
    CarriedEffect(w, options, c);
    CarriedEffect(w, options, c2);
    CarriedEffect(w, options, Executed(w, options, c2).0);
  }

  lemma {:induction false} SoloFirst(w: World, options: Options, entries: map<string, string>, s: State) returns (s': State)
    requires s.slot.None? && s.store == Abs(entries) && FreshFrom(w, s, 0)
    ensures LeadsTo(Next(s, Call(options)), s') && |s'.callers| == |s.callers| + 1
    ensures var c := s'.callers[|s.callers|];
            c.pc == Sending(HeaderFor(w, options, Client(entries, []))) && c.options == options
            && c.answers == [] && c.headers == [] && !c.notified
    ensures var c1 := Executed(w, options, Client(entries, [])).0;
            Mirrors(s', c1, s.presented) && FreshFrom(w, s', |c1.log|)
  {
    var s0 := Next(s, Call(options));
    assert Mirrors(s0, Client(entries, []), s.presented);
    FreshLater(w, s, s0, 0, 0);
    s' := SoloAttempt(w, options, Client(entries, []), s0, |s.callers|, s.presented);
  }

  /** The machine ends where the specification does: store, presented tokens, outcome,
      answers and the headers they were given for. */
  ghost predicate EndsAs(s: State, i: nat, options: Options, c: Client, outcome: Reply, base: seq<string>) {
    && Mirrors(s, c, base)
    && Ended(s, i, outcome, outcome.Unauthorized? && options.Eligible())
    && s.callers[i].answers == Sends(c.log)
    && s.callers[i].headers == Carried(c.log)
  }

  lemma {:induction false} SoloEndsAfterRefresh(w: World, options: Options, c: Client, s: State, i: nat, first: Reply, base: seq<string>)
      returns (s': State)
    requires options.Eligible() && first.Unauthorized? && Mirrors(s, c, base) && FreshFrom(w, s, |c.log|)
    requires i < |s.callers| && s.callers[i].pc.Sending? && s.callers[i].options == options
    requires s.callers[i].answers == [] && s.callers[i].headers == [] && !s.callers[i].notified
    requires Sends(c.log) == [first] && |Posts(c.log)| <= 1 && HookFired !in c.log
    requires Carried(c.log) == [s.callers[i].pc.header]
    ensures var (c2, tokens) := PerformedRefresh(w, c);
            var (c3, retry) := Executed(w, options, c2);
            && LeadsTo(s, s')
            && if tokens.None? then EndsAs(s', i, options, SignedOut(c2), first, base)
               else EndsAs(s', i, options, if retry.Unauthorized? then SignedOut(c3) else c3, retry, base)
  {
    s' := SoloRejected(w, options, c, s, i, first, base);
    SendsOfRejected(w, options, c, first);
    CarriedOfRejected(w, options, c);
  }

  lemma {:induction false} SoloEndsAtOnce(options: Options, c: Client, s: State, i: nat, first: Reply, base: seq<string>)
      returns (s': State)
    requires !(first.Unauthorized? && options.Eligible()) && Mirrors(s, c, base)
    requires i < |s.callers| && s.callers[i].pc.Sending? && s.callers[i].options == options
    requires s.callers[i].answers == [] && s.callers[i].headers == [] && !s.callers[i].notified
    requires Sends(c.log) == [first] && Carried(c.log) == [s.callers[i].pc.header]
    ensures LeadsTo(s, s') && EndsAs(s', i, options, c, first, base)
  {
    Stays(s);
    Then(s, s, Answer(i, first));
    s' := Next(s, Answer(i, first));
  }

  /** From an idle machine holding the client's tokens, one call left to itself can
      take exactly the course the sequential specification describes. */
  lemma {:induction false} SoloRequestIsARun(w: World, options: Options, entries: map<string, string>, s: State) returns (s': State)
    requires s.slot.None? && s.store == Abs(entries) && FreshFrom(w, s, 0)
    ensures var (c, outcome) := Requested(w, options, Client(entries, []));
            LeadsTo(Next(s, Call(options)), s') && EndsAs(s', |s.callers|, options, c, outcome, s.presented)
  {
    var i := |s.callers|;
    var s1 := SoloFirst(w, options, entries, s);
    var (c1, first) := Executed(w, options, Client(entries, []));
    FirstSend(w, options, entries);
    CarriedEffect(w, options, Client(entries, []));
    if first.Unauthorized? && options.Eligible() {
      s' := SoloEndsAfterRefresh(w, options, c1, s1, i, first, s.presented);
    } else {
      s' := SoloEndsAtOnce(options, c1, s1, i, first, s.presented);
    }
    Chain(Next(s, Call(options)), s1, s');
  }
}
