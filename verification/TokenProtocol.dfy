/**
 The token-refresh protocol of the API client as a state machine.

 One `Caller` per call in progress, one `Flight` per promise created by
 `performRefresh`, and the shared state they race on: the token store and the
 `refreshPromise` slot.  An action is the code that runs between two `await`s of
 one caller or one flight; any number of callers and flights interleave.
 */
module TokenProtocol {
  import opened Wrappers

  /** A token pair as issued by the server.  A field missing from a response body
      is the empty string: the client tests both for truthiness only. */
  datatype AuthTokens = AuthTokens(accessToken: string, refreshToken: string)

  datatype TokenStore = TokenStore(access: Option<string>, refresh: Option<string>)

  const EMPTY_STORE := TokenStore(None, None)

  function Holding(tokens: AuthTokens): TokenStore {
    TokenStore(Some(tokens.accessToken), Some(tokens.refreshToken))
  }

  predicate Truthy(token: Option<string>) {
    token.Some? && token.value != ""
  }

  /** Progress of one `performRefresh` promise. */
  datatype Flight =
    | TokenRead(stored: Option<string>)         // the stored token has been read
    | Presented(token: string)                  // POST /auth/refresh is on the wire
    | BodyPending(token: string)                // a 2xx arrived, its body has not
    | Returning(result: Option<AuthTokens>)     // the store has been set or cleared
    | Settled(result: Option<AuthTokens>)       // the promise has its value

  /** Answer of the endpoint to one attempt: a 2xx with its value (undefined for 204), a
      2xx whose body is not JSON, a 401, or any other failure. */
  datatype Reply =
    | Success(value: string)
    | Unreadable(error: string)
    | Unauthorized(error: string)
    | Failure(error: string)
  {
    predicate Ok() { Success? || Unreadable? }
  }

  datatype Options = Options(isPublic: bool, skipRefresh: bool) {
    predicate Eligible() { !isPublic && !skipRefresh }
  }

  /** Why a caller waits for a refresh. */
  datatype Purpose = ForHeader | ForRetry | Direct

  datatype Pc =
    | HeaderRead(token: Option<string>)         // the access token has been read
    | Awaiting(purpose: Purpose, flight: nat, leads: bool)
    | Resumed(purpose: Purpose, tokens: Option<AuthTokens>)
    | Sending(header: Option<string>)           // the endpoint request is on the wire
    | SigningOut(error: string)                 // tokens cleared, hook not yet called
    | Returned(value: string)
    | Threw(error: string)
    | Refreshed(tokens: Option<AuthTokens>)     // a direct refreshAccessToken() call ended

  /** `answers`, `headers`, `joined`, `results` and `notified` record the history of the call. */
  datatype Caller = Caller(
    options: Options,
    pc: Pc,
    answers: seq<Reply>,
    headers: seq<Option<string>>,
    joined: seq<nat>,
    results: seq<Option<AuthTokens>>,
    notified: bool)

  /** `issued` and `presented` are the server's view of the run so far. */
  datatype State = State(
    store: TokenStore,
    slot: Option<nat>,
    flights: seq<Flight>,
    callers: seq<Caller>,
    issued: set<AuthTokens>,
    presented: seq<string>)

  const INITIAL := State(EMPTY_STORE, None, [], [], {}, [])

  datatype Action =
    // from outside the client
    | Call(options: Options)
    | CallRefresh
    | Login(tokens: AuthTokens)
    | Logout
    // a caller resumes
    | DecideHeader(i: nat, expired: bool)
    | Answer(i: nat, reply: Reply)
    | Resume(i: nat)
    | Continue(i: nat)
    | Notify(i: nat)
    // a flight resumes
    | Present(f: nat)
    | Reject(f: nat)
    | Accept(f: nat)
    | Body(f: nat, tokens: AuthTokens)
    | BrokenBody(f: nat)
    | Settle(f: nat)
  {
    predicate External() { Call? || CallRefresh? || Login? || Logout? }
  }

  /** The server never issues the same refresh token twice. */
  predicate Fresh(s: State, tokens: AuthTokens) {
    tokens.refreshToken == "" || forall g <- s.issued :: g.refreshToken != tokens.refreshToken
  }

  predicate Enabled(s: State, a: Action) {
    match a
    case Call(_) => true
    case CallRefresh => true
    case Login(tokens) => Fresh(s, tokens)
    case Logout => true
    case DecideHeader(i, _) => i < |s.callers| && s.callers[i].pc.HeaderRead?
    case Answer(i, _) => i < |s.callers| && s.callers[i].pc.Sending?
    case Resume(i) =>
      && i < |s.callers| && s.callers[i].pc.Awaiting?
      && s.callers[i].pc.flight < |s.flights| && s.flights[s.callers[i].pc.flight].Settled?
    case Continue(i) => i < |s.callers| && s.callers[i].pc.Resumed?
    case Notify(i) => i < |s.callers| && s.callers[i].pc.SigningOut?
    case Present(f) => f < |s.flights| && s.flights[f].TokenRead?
    case Reject(f) => f < |s.flights| && s.flights[f].Presented?
    case Accept(f) => f < |s.flights| && s.flights[f].Presented?
    case Body(f, tokens) => f < |s.flights| && s.flights[f].BodyPending? && Fresh(s, tokens)
    case BrokenBody(f) => f < |s.flights| && s.flights[f].BodyPending?
    case Settle(f) => f < |s.flights| && s.flights[f].Returning?
  }

  /** `refreshAccessToken`: join the promise in the slot or lead a new flight.  The
      stored refresh token is read in the same breath as the slot is filled. */
  function StartRefresh(s: State, c: Caller, purpose: Purpose): (State, Caller) {
    if s.slot.Some? then
      (s, c.(pc := Awaiting(purpose, s.slot.value, false), joined := c.joined + [s.slot.value]))
    else
      var f := |s.flights|;
      (s.(slot := Some(f), flights := s.flights + [TokenRead(s.store.refresh)]),
       c.(pc := Awaiting(purpose, f, true), joined := c.joined + [f]))
  }

  /** `executeRequest` up to its first `await`. */
  function BeginAttempt(s: State, options: Options): Pc {
    if options.isPublic then Sending(None) else HeaderRead(s.store.access)
  }

  function AsHeader(token: Option<string>): Option<string> {
    if Truthy(token) then token else None
  }

  function NewCaller(options: Options, pc: Pc): Caller {
    Caller(options, pc, [], [], [], [], false)
  }

  /** The caller with an answer, and the header it was given for. */
  function WithAnswer(c: Caller, reply: Reply): Caller
    requires c.pc.Sending?
  {
    c.(answers := c.answers + [reply], headers := c.headers + [c.pc.header])
  }

  function WithCaller(s: State, i: nat, c: Caller): State
    requires i < |s.callers|
  {
    s.(callers := s.callers[i := c])
  }

  function StartAt(s: State, i: nat, c: Caller, purpose: Purpose): State
    requires i < |s.callers|
  {
    var (s', c') := StartRefresh(s, c, purpose);
    WithCaller(s', i, c')
  }

  function NextAnswer(s: State, i: nat, reply: Reply): State
    requires Enabled(s, Answer(i, reply))
  {
    var c := s.callers[i];
    var c' := WithAnswer(c, reply);
    match reply
    case Success(value) => WithCaller(s, i, c'.(pc := Returned(value)))
    case Unreadable(error) => WithCaller(s, i, c'.(pc := Threw(error)))
    case Failure(error) => WithCaller(s, i, c'.(pc := Threw(error)))
    case Unauthorized(error) =>
      if !c.options.Eligible() then WithCaller(s, i, c'.(pc := Threw(error)))
      else if |c.answers| == 0 then StartAt(s, i, c', ForRetry)
      else WithCaller(s, i, c'.(pc := SigningOut(error))).(store := EMPTY_STORE)
  }

  /** The error of the answer that sent the caller to refresh. */
  function LastError(c: Caller): string {
    if c.answers != [] && !c.answers[|c.answers| - 1].Success? then c.answers[|c.answers| - 1].error else ""
  }

  function NextContinue(s: State, i: nat): State
    requires Enabled(s, Continue(i))
  {
    var c := s.callers[i];
    var tokens := c.pc.tokens;
    match c.pc.purpose
    case ForHeader =>
      var token := if tokens.Some? then Some(tokens.value.accessToken) else None;
      WithCaller(s, i, c.(pc := Sending(AsHeader(token))))
    case ForRetry =>
      if tokens.Some? then WithCaller(s, i, c.(pc := BeginAttempt(s, c.options)))
      else WithCaller(s, i, c.(pc := SigningOut(LastError(c)))).(store := EMPTY_STORE)
    case Direct => WithCaller(s, i, c.(pc := Refreshed(tokens)))
  }

  function NextFlight(s: State, f: nat, flight: Flight): State
    requires f < |s.flights|
  {
    s.(flights := s.flights[f := flight])
  }

  function Next(s: State, a: Action): State
    requires Enabled(s, a)
  {
    match a
    case Call(options) =>
      s.(callers := s.callers + [NewCaller(options, BeginAttempt(s, options))])
    case CallRefresh =>
      var (s', c') := StartRefresh(s, NewCaller(Options(false, false), HeaderRead(None)), Direct);
      s'.(callers := s'.callers + [c'])
    case Login(tokens) => s.(store := Holding(tokens), issued := s.issued + {tokens})
    case Logout => s.(store := EMPTY_STORE)
    case DecideHeader(i, expired) =>
      var c := s.callers[i];
      if Truthy(c.pc.token) && expired then StartAt(s, i, c, ForHeader)
      else WithCaller(s, i, c.(pc := Sending(AsHeader(c.pc.token))))
    case Answer(i, reply) => NextAnswer(s, i, reply)
    case Resume(i) =>
      var c := s.callers[i];
      var result := s.flights[c.pc.flight].result;
      // the leader's `finally` resets the slot without looking at it
      var s' := if c.pc.leads then s.(slot := None) else s;
      WithCaller(s', i, c.(pc := Resumed(c.pc.purpose, result), results := c.results + [result]))
    case Continue(i) => NextContinue(s, i)
    case Notify(i) => WithCaller(s, i, s.callers[i].(pc := Threw(s.callers[i].pc.error), notified := true))
    case Present(f) =>
      var token := s.flights[f].stored;
      if Truthy(token) then
        NextFlight(s, f, Presented(token.value)).(presented := s.presented + [token.value])
      else NextFlight(s, f, Settled(None))
    case Reject(f) => NextFlight(s, f, Returning(None)).(store := EMPTY_STORE)
    case Accept(f) => NextFlight(s, f, BodyPending(s.flights[f].token))
    case Body(f, tokens) =>
      NextFlight(s, f, Returning(Some(tokens))).(store := Holding(tokens), issued := s.issued + {tokens})
    case BrokenBody(f) => NextFlight(s, f, Returning(None)).(store := EMPTY_STORE)
    case Settle(f) => NextFlight(s, f, Settled(s.flights[f].result))
  }

  /** Whether the actions can be taken one after the other from `s`. */
  predicate CanRun(s: State, actions: seq<Action>)
    decreases |actions|
  {
    actions == [] || (Enabled(s, actions[0]) && CanRun(Next(s, actions[0]), actions[1..]))
  }

  /** The state the actions lead to. */
  function Run(s: State, actions: seq<Action>): State
    requires CanRun(s, actions)
    decreases |actions|
  {
    if actions == [] then s else Run(Next(s, actions[0]), actions[1..])
  }
}
