/** Where the tokens that calls send come from. */
module TokenHeaders {
  import opened Wrappers
  import opened TokenProtocol
  import opened TokenSafety
  import opened TokenCalls

  /** An access token of a grant the server has issued, or the mark of a missing one. */
  ghost predicate FromGrant(issued: set<AuthTokens>, token: Option<string>) {
    token.Some? ==> exists g :: g in issued && g.accessToken == token.value
  }

  predicate ResultIssued(issued: set<AuthTokens>, result: Option<AuthTokens>) {
    result.Some? ==> result.value in issued
  }

  predicate FlightGranted(issued: set<AuthTokens>, flight: Flight) {
    match flight
    case Returning(result) => ResultIssued(issued, result)
    case Settled(result) => ResultIssued(issued, result)
    case _ => true
  }

  ghost predicate CallerGranted(issued: set<AuthTokens>, pc: Pc) {
    match pc
    case HeaderRead(token) => FromGrant(issued, token)
    case Resumed(_, tokens) => ResultIssued(issued, tokens)
    case Refreshed(tokens) => ResultIssued(issued, tokens)
    case Sending(header) => FromGrant(issued, header) && header != Some("")
    case _ => true
  }

  ghost predicate HeadersGranted(issued: set<AuthTokens>, headers: seq<Option<string>>) {
    forall header <- headers :: FromGrant(issued, header) && header != Some("")
  }

  ghost predicate Granted(s: State) {
    && (forall flight <- s.flights :: FlightGranted(s.issued, flight))
    && (forall c <- s.callers :: CallerGranted(s.issued, c.pc) && HeadersGranted(s.issued, c.headers))
  }

  lemma {:induction false} IssuedGrows(issued: set<AuthTokens>, more: set<AuthTokens>, flight: Flight, pc: Pc)
    requires issued <= more
    ensures FlightGranted(issued, flight) ==> FlightGranted(more, flight)
    ensures CallerGranted(issued, pc) ==> CallerGranted(more, pc)
  {
  }

  lemma {:induction false} StoredIsGranted(s: State)
    requires Paired(s)
    ensures FromGrant(s.issued, s.store.access)
  {
  }

  lemma {:induction false} FlightsGranted(s: State, a: Action)
    requires Granted(s) && Enabled(s, a)
    ensures forall flight <- Next(s, a).flights :: FlightGranted(Next(s, a).issued, flight)
  {
    var s' := Next(s, a);
    forall flight <- s'.flights ensures FlightGranted(s'.issued, flight) {
      var f :| 0 <= f < |s'.flights| && s'.flights[f] == flight;
      if f < |s.flights| {
        assert s.flights[f] in s.flights;
        IssuedGrows(s.issued, s'.issued, s.flights[f], Returned(""));
      }
    }
  }

  lemma {:induction false} ContinueGranted(s: State, i: nat)
    requires Paired(s) && Enabled(s, Continue(i)) && CallerGranted(s.issued, s.callers[i].pc)
    ensures CallerGranted(s.issued, NextContinue(s, i).callers[i].pc)
  {
    StoredIsGranted(s);
  }

  lemma {:induction false} AnswerGranted(s: State, i: nat, reply: Reply)
    requires Enabled(s, Answer(i, reply))
    ensures CallerGranted(s.issued, NextAnswer(s, i, reply).callers[i].pc)
  {
  }

  lemma {:induction false} ResumeGranted(s: State, i: nat)
    requires Granted(s) && Enabled(s, Resume(i))
    ensures CallerGranted(s.issued, Next(s, Resume(i)).callers[i].pc)
  {
    assert s.flights[s.callers[i].pc.flight] in s.flights;
  }

  lemma {:induction false} MoverGranted(s: State, a: Action)
    requires Paired(s) && Granted(s) && Enabled(s, a) && Mover(s, a) < |Next(s, a).callers|
    ensures CallerGranted(Next(s, a).issued, Next(s, a).callers[Mover(s, a)].pc)
  {
    var i := Mover(s, a);
    StoredIsGranted(s);
    if i < |s.callers| {
      assert s.callers[i] in s.callers;
    }
    match a
    case Answer(_, reply) => AnswerGranted(s, i, reply);
    case Resume(_) => ResumeGranted(s, i);
    case Continue(_) => ContinueGranted(s, i);
    case _ =>
  }

  lemma {:induction false} HeadersStayGranted(issued: set<AuthTokens>, more: set<AuthTokens>, headers: seq<Option<string>>)
    requires issued <= more && HeadersGranted(issued, headers)
    ensures HeadersGranted(more, headers)
  {
    forall header <- headers ensures FromGrant(more, header) {
      assert FromGrant(issued, header);
    }
  }

  lemma {:induction false} RecordedGranted(s: State, a: Action)
    requires Granted(s) && Enabled(s, a) && Mover(s, a) < |Next(s, a).callers|
    ensures HeadersGranted(Next(s, a).issued, Next(s, a).callers[Mover(s, a)].headers)
  {
    var i := Mover(s, a);
    if i < |s.callers| {
      var c := s.callers[i];
      assert c in s.callers;
      assert Next(s, a).callers[i].headers == if a.Answer? then c.headers + [c.pc.header] else c.headers;
      HeadersStayGranted(s.issued, Next(s, a).issued, c.headers);
    }
  }

  lemma {:induction false} GrantedKept(s: State, a: Action)
    requires Paired(s) && Granted(s) && Enabled(s, a)
    ensures Granted(Next(s, a))
  {
    var s' := Next(s, a);
    FlightsGranted(s, a);
    forall c <- s'.callers ensures CallerGranted(s'.issued, c.pc) && HeadersGranted(s'.issued, c.headers) {
      var j :| 0 <= j < |s'.callers| && s'.callers[j] == c;
      if j == Mover(s, a) {
        MoverGranted(s, a);
        RecordedGranted(s, a);
      } else {
        OthersUnmoved(s, a, j);
        assert s.callers[j] in s.callers;
        IssuedGrows(s.issued, s'.issued, Settled(None), c.pc);
        HeadersStayGranted(s.issued, s'.issued, c.headers);
      }
    }
  }

  lemma {:induction false} GrantedRun(s: State, actions: seq<Action>)
    requires Inv(s) && Granted(s) && CanRun(s, actions)
    ensures Granted(Run(s, actions))
    decreases |actions|
  {
    if actions != [] {
      GrantedKept(s, actions[0]);
      InvKept(s, actions[0]);
      GrantedRun(Next(s, actions[0]), actions[1..]);
    }
  }

  /** In every reachable state a call sends nothing but the access token of a grant the
      server has issued, and a refresh asked for ends with such a grant or none. */
  lemma {:induction false} SentTokensAreGranted(s: State, c: Caller)
    requires Reachable(s) && c in s.callers
    ensures c.pc.Sending? && c.pc.header.Some? ==>
              c.pc.header.value != "" && exists g :: g in s.issued && g.accessToken == c.pc.header.value
    ensures forall header <- c.headers ::
              header.Some? ==> header.value != "" && exists g :: g in s.issued && g.accessToken == header.value
    ensures (c.pc.Resumed? || c.pc.Refreshed?) && c.pc.tokens.Some? ==> c.pc.tokens.value in s.issued
  {
    var actions :| CanRun(INITIAL, actions) && s == Run(INITIAL, actions);
    GrantedRun(INITIAL, actions);
    forall header <- c.headers ensures FromGrant(s.issued, header) && header != Some("") {
      assert HeadersGranted(s.issued, c.headers);
    }
  }

  // ----- a refreshed call sends the refreshed token -----

  function HeaderOf(result: Option<AuthTokens>): Option<string> {
    if result.Some? && result.value.accessToken != "" then Some(result.value.accessToken) else None
  }

  /** What a call that asked for a refresh before sending sends. */
  predicate SendsItsRefresh(c: Caller) {
    && |c.headers| == |c.answers|
    && (c.pc.Sending? && c.options.isPublic ==> c.pc.header.None?)
    && (c.pc.Sending? && (|c.joined| == 3 || (c.answers == [] && |c.joined| == 1)) ==>
          c.results != [] && c.pc.header == HeaderOf(c.results[|c.results| - 1]))
  }

  ghost predicate AllSend(s: State) {
    forall c <- s.callers :: SendsItsRefresh(c)
  }

  lemma {:induction false} MoverSends(s: State, a: Action)
    requires JoinInv(s) && CallsInv(s) && AllSend(s) && Enabled(s, a) && Mover(s, a) < |Next(s, a).callers|
    ensures SendsItsRefresh(Next(s, a).callers[Mover(s, a)])
  {
    var i := Mover(s, a);
    if i < |s.callers| {
      assert s.callers[i] in s.callers;
      assert CallerJoins(s, s.callers[i]) && CallShape(s.callers[i]) && SendsItsRefresh(s.callers[i]);
    }
  }

  lemma {:induction false} AllSendKept(s: State, a: Action)
    requires JoinInv(s) && CallsInv(s) && AllSend(s) && Enabled(s, a)
    ensures AllSend(Next(s, a))
  {
    var s' := Next(s, a);
    forall c <- s'.callers ensures SendsItsRefresh(c) {
      var j :| 0 <= j < |s'.callers| && s'.callers[j] == c;
      if j == Mover(s, a) {
        MoverSends(s, a);
      } else {
        OthersUnmoved(s, a, j);
        assert s.callers[j] in s.callers;
      }
    }
  }

  lemma {:induction false} AllSendRun(s: State, actions: seq<Action>)
    requires Inv(s) && CallsInv(s) && AllSend(s) && CanRun(s, actions)
    ensures AllSend(Run(s, actions))
    decreases |actions|
  {
    if actions != [] {
      AllSendKept(s, actions[0]);
      InvKept(s, actions[0]);
      CallsKept(s, actions[0]);
      AllSendRun(Next(s, actions[0]), actions[1..]);
    }
  }

  /** Among any other calls, a call that joined a refresh for its header, led by itself or
      by another, sends the access token that refresh was granted, and none if it
      failed. */
  lemma {:induction false} RefreshedCallSendsTheGrant(s: State, c: Caller)
    requires Reachable(s) && c in s.callers && c.pc.Sending?
    requires |c.joined| == 3 || (c.answers == [] && |c.joined| == 1)
    ensures c.results != [] && c.pc.header == HeaderOf(c.results[|c.results| - 1])
    ensures |c.results| == |c.joined|
  {
    var actions :| CanRun(INITIAL, actions) && s == Run(INITIAL, actions);
    AllSendRun(INITIAL, actions);
    ReachableInv(s);
    assert CallerJoins(s, c);
  }
}
