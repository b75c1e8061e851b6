/**
 What one call does among any number of others: how often it sends, how often it
 refreshes, how it ends, and when it fires `onUnauthenticated`.
 */
module TokenCalls {
  import opened Wrappers
  import opened TokenProtocol
  import opened TokenSafety
  import opened TokenRuns

  predicate FirstRejected(c: Caller) {
    |c.answers| == 1 && c.answers[0].Unauthorized? && c.options.Eligible()
  }

  /** Before the first answer, or after a first 401 that may be retried. */
  predicate InAttempt(c: Caller, before: nat, after: nat) {
    || (c.answers == [] && |c.joined| <= before)
    || (FirstRejected(c) && |c.joined| <= after)
  }

  predicate Answered(c: Caller) {
    || |c.answers| == 1
    || (|c.answers| == 2 && c.answers[0].Unauthorized? && c.options.Eligible())
  }

  function LastAnswer(c: Caller): Reply
    requires c.answers != []
  {
    c.answers[|c.answers| - 1]
  }

  predicate CallShape(c: Caller) {
    && |c.joined| <= 3
    && (c.options.isPublic ==> c.joined == [] && (c.pc.Sending? || c.pc.Returned? || c.pc.Threw?))
    && (c.notified ==> c.pc.Threw?)
    && match c.pc
       case HeaderRead(_) => InAttempt(c, 0, 2)
       case Awaiting(Direct, _, _) => c.answers == []
       case Awaiting(ForHeader, _, _) => InAttempt(c, 1, 3)
       case Awaiting(ForRetry, _, _) => FirstRejected(c) && |c.joined| <= 2
       case Resumed(Direct, _) => c.answers == []
       case Resumed(ForHeader, _) => InAttempt(c, 1, 3)
       case Resumed(ForRetry, _) => FirstRejected(c) && |c.joined| <= 2
       case Sending(header) => InAttempt(c, 1, 3) && (c.options.isPublic ==> header.None? && c.answers == [])
       case SigningOut(error) => Answered(c) && c.options.Eligible() && LastAnswer(c) == Unauthorized(error)
       case Returned(value) => Answered(c) && LastAnswer(c) == Success(value)
       case Threw(error) =>
         && Answered(c) && !LastAnswer(c).Success? && LastAnswer(c).error == error
         && (c.notified <==> c.options.Eligible() && LastAnswer(c).Unauthorized?)
       case Refreshed(_) => c.answers == []
  }

  ghost predicate CallsInv(s: State) {
    forall c <- s.callers :: CallShape(c)
  }

  lemma {:induction false} StartShape(s: State, c: Caller, purpose: Purpose)
    requires !c.options.isPublic && !c.notified
    requires match purpose
      case Direct => c.answers == [] && c.joined == []
      case ForHeader => InAttempt(c, 0, 2)
      case ForRetry => FirstRejected(c) && |c.joined| <= 1
    ensures CallShape(StartRefresh(s, c, purpose).1)
  {
  }

  lemma {:induction false} AnswerShape(s: State, i: nat, reply: Reply)
    requires Enabled(s, Answer(i, reply)) && CallShape(s.callers[i])
    ensures CallShape(Next(s, Answer(i, reply)).callers[i])
  {
    var c := s.callers[i];
    var c' := WithAnswer(c, reply);
    if reply.Unauthorized? && c.options.Eligible() && |c.answers| == 0 {
      assert c'.answers == [reply];
      StartShape(s, c', ForRetry);
    }
  }

  lemma {:induction false} MoverShape(s: State, a: Action)
    requires CallsInv(s) && Enabled(s, a) && Mover(s, a) < |Next(s, a).callers|
    ensures CallShape(Next(s, a).callers[Mover(s, a)])
  {
    var i := Mover(s, a);
    if i < |s.callers| {
      assert s.callers[i] in s.callers;
    }
    match a
    case CallRefresh => StartShape(s, NewCaller(Options(false, false), HeaderRead(None)), Direct);
    case DecideHeader(_, expired) =>
      if Truthy(s.callers[i].pc.token) && expired {
        StartShape(s, s.callers[i], ForHeader);
      }
    case Answer(_, reply) => AnswerShape(s, i, reply);
    case _ =>
  }

  lemma {:induction false} CallsKept(s: State, a: Action)
    requires CallsInv(s) && Enabled(s, a)
    ensures CallsInv(Next(s, a))
  {
    var s' := Next(s, a);
    forall c <- s'.callers ensures CallShape(c) {
      var j :| 0 <= j < |s'.callers| && s'.callers[j] == c;
      if j == Mover(s, a) {
        MoverShape(s, a);
      } else {
        OthersUnmoved(s, a, j);
      }
    }
  }

  lemma {:induction false} CallsRun(s: State, actions: seq<Action>)
    requires CallsInv(s) && CanRun(s, actions)
    ensures CallsInv(Run(s, actions))
    decreases |actions|
  {
    if actions != [] {
      CallsKept(s, actions[0]);
      CallsRun(Next(s, actions[0]), actions[1..]);
    }
  }

  lemma {:induction false} ReachableCalls(s: State)
    requires Reachable(s)
    ensures CallsInv(s)
  {
    var actions :| CanRun(INITIAL, actions) && s == Run(INITIAL, actions);
    CallsRun(INITIAL, actions);
  }

  /** Among any number of other calls, a call sends at most twice and refreshes at
      most three times; a public call sends once and never refreshes. */
  lemma {:induction false} CallIsBounded(s: State, c: Caller)
    requires Reachable(s) && c in s.callers
    ensures |c.answers| <= 2 && |c.joined| <= 3
    ensures c.options.isPublic ==> |c.answers| <= 1 && c.joined == []
    ensures |c.answers| == 2 ==> c.answers[0].Unauthorized? && c.options.Eligible()
  {
    ReachableCalls(s);
  }

  /** A call returns a value exactly when its last answer was a 2xx that could be read,
      it returns or throws what that answer carried, and it fires the hook exactly when
      that answer was a 401 and the call was allowed to refresh. */
  lemma {:induction false} CallEndsAsAnswered(s: State, c: Caller)
    requires Reachable(s) && c in s.callers && (c.pc.Returned? || c.pc.Threw?)
    ensures c.answers != []
    ensures c.pc.Returned? <==> LastAnswer(c).Ok() && !LastAnswer(c).Unreadable?
    ensures c.pc.Returned? ==> c.pc.value == LastAnswer(c).value
    ensures c.pc.Threw? ==> c.pc.error == LastAnswer(c).error
    ensures c.notified <==> !c.options.isPublic && !c.options.skipRefresh && LastAnswer(c).Unauthorized?
  {
    ReachableCalls(s);
  }

  /** A run in which a call throws although the server answered it with a 2xx. */
  lemma {:induction false} SuccessMayThrow(error: string) returns (s: State)
    ensures Reachable(s) && |s.callers| == 1
    ensures s.callers[0].pc == Threw(error) && s.callers[0].answers == [Unreadable(error)] && Unreadable(error).Ok()
  {
    ReachableInitially();
    var call, answer := Call(Options(true, false)), Answer(0, Unreadable(error));
    ReachableNext(INITIAL, call);
    s := Next(INITIAL, call);
    ReachableNext(s, answer);
    s := Next(s, answer);
  }

  /** No step of a public call reads or writes a token, or sends one. */
  lemma {:induction false} PublicCallsTouchNoTokens(s: State, a: Action)
    requires Reachable(s) && Enabled(s, a)
    requires Mover(s, a) < |s.callers| && s.callers[Mover(s, a)].options.isPublic
    ensures Next(s, a) == s.(callers := Next(s, a).callers)
    ensures s.callers[Mover(s, a)].pc.Sending? && s.callers[Mover(s, a)].pc.header == None
  {
    ReachableCalls(s);
    assert s.callers[Mover(s, a)] in s.callers;
  }
}
