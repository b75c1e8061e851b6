/**
 The API client in its own form: `MemoryStorage` and `ApiClient` update their fields
 in place, and every method is tied to a function of the old state.  One request
 runs at a time here; `TokenProtocol` is the interleaved form, and `SoloCalls`
 connects the two.
 */
module ApiClients {
  import opened Wrappers
  import opened TokenProtocol

  const ACCESS_TOKEN := "bilgim_access_token"
  const REFRESH_TOKEN := "bilgim_refresh_token"
  const USER := "bilgim_user"

  /** Outcome of POST /auth/refresh: a network error or a status other than 2xx, a 2xx
      whose body cannot be read, or a 2xx with a token pair. */
  datatype RefreshReply = Rejected | Broken | Granted(tokens: AuthTokens)

  /** What the client does to the outside, with the outside's answers. */
  datatype Event =
    | Sent(header: Option<string>, reply: Reply)
    | Posted(token: string, answer: RefreshReply)
    | HookFired

  /** The server and the clock: each is asked again after every event. */
  datatype World = World(
    reply: nat -> Reply,
    refresh: nat -> RefreshReply,
    expired: nat -> bool)

  datatype Client = Client(entries: map<string, string>, log: seq<Event>)

  function Lookup(entries: map<string, string>, key: string): Option<string> {
    if key in entries then Some(entries[key]) else None
  }

  function WithTokens(entries: map<string, string>, tokens: AuthTokens): map<string, string> {
    entries[ACCESS_TOKEN := tokens.accessToken][REFRESH_TOKEN := tokens.refreshToken]
  }

  function WithoutTokens(entries: map<string, string>): map<string, string> {
    entries - {ACCESS_TOKEN, REFRESH_TOKEN, USER}
  }

  // ----- the sequential specification -----

  function PerformedRefresh(w: World, c: Client): (Client, Option<AuthTokens>) {
    var token := Lookup(c.entries, REFRESH_TOKEN);
    if !Truthy(token) then (c, None)
    else
      var answer := w.refresh(|c.log|);
      var log := c.log + [Posted(token.value, answer)];
      if answer.Granted? then (Client(WithTokens(c.entries, answer.tokens), log), Some(answer.tokens))
      else (Client(WithoutTokens(c.entries), log), None)
  }

  function BuiltHeader(w: World, c: Client): (Client, Option<string>) {
    var token := Lookup(c.entries, ACCESS_TOKEN);
    if Truthy(token) && w.expired(|c.log|) then
      var (c', tokens) := PerformedRefresh(w, c);
      (c', AsHeader(if tokens.Some? then Some(tokens.value.accessToken) else None))
    else (c, AsHeader(token))
  }

  function Executed(w: World, options: Options, c: Client): (Client, Reply) {
    var (c', header) := if options.isPublic then (c, None) else BuiltHeader(w, c);
    var reply := w.reply(|c'.log|);
    (c'.(log := c'.log + [Sent(header, reply)]), reply)
  }

  function SignedOut(c: Client): Client {
    Client(WithoutTokens(c.entries), c.log + [HookFired])
  }

  /** The client after one `request`, and the answer the caller is given: a `Success`
      is returned, anything else is thrown. */
  function Requested(w: World, options: Options, c: Client): (Client, Reply) {
    var (c1, first) := Executed(w, options, c);
    if !first.Unauthorized? || !options.Eligible() then (c1, first)
    else
      var (c2, tokens) := PerformedRefresh(w, c1);
      if tokens.None? then (SignedOut(c2), first)
      else
        var (c3, retry) := Executed(w, options, c2);
        (if retry.Unauthorized? then SignedOut(c3) else c3, retry)
  }

  // ----- the client itself -----

  class MemoryStorage {
    var entries: map<string, string>

    constructor ()
      ensures entries == map[]
    {
      entries := map[];
    }

    method Get(key: string) returns (value: Option<string>)
      ensures value.Some? <==> key in entries
      ensures value.Some? ==> value.value == entries[key]
    {
      value := if key in entries then Some(entries[key]) else None;
    }

    method Set(key: string, value: string)
      modifies this
      ensures entries == old(entries)[key := value]
    {
      entries := entries[key := value];
    }

    method Remove(key: string)
      modifies this
      ensures entries == old(entries) - {key}
    {
      entries := entries - {key};
    }
  }

  class ApiClient {
    const storage: MemoryStorage
    const world: World
    var refreshPromise: Option<Option<AuthTokens>>
    var log: seq<Event>

    constructor (storage: MemoryStorage, world: World)
      ensures this.storage == storage && this.world == world
      ensures refreshPromise == None && log == []
    {
      this.storage := storage;
      this.world := world;
      refreshPromise := None;
      log := [];
    }

    function View(): Client
      reads this, storage
    {
      Client(storage.entries, log)
    }

    method SetTokens(tokens: AuthTokens)
      modifies storage
      ensures View() == old(View()).(entries := WithTokens(old(storage.entries), tokens))
    {
      storage.Set(ACCESS_TOKEN, tokens.accessToken);
      storage.Set(REFRESH_TOKEN, tokens.refreshToken);
    }

    method ClearTokens()
      modifies storage
      ensures View() == old(View()).(entries := WithoutTokens(old(storage.entries)))
    {
      storage.Remove(ACCESS_TOKEN);
      storage.Remove(REFRESH_TOKEN);
      storage.Remove(USER);
    }

    method PerformRefresh() returns (result: Option<AuthTokens>)
      modifies this`log, storage
      ensures (View(), result) == PerformedRefresh(world, old(View()))
    {
      var refreshToken := storage.Get(REFRESH_TOKEN);
      if !Truthy(refreshToken) {
        return None;
      }
      var answer := world.refresh(|log|);
      log := log + [Posted(refreshToken.value, answer)];
      match answer {
        case Granted(tokens) =>
          SetTokens(tokens);
          return Some(tokens);
        case _ =>
          ClearTokens();
          return None;
      }
    }

    /** A promise in the slot is returned as it is; otherwise the slot is filled for
        the time of one refresh and emptied again.  Run one at a time, the methods of this
        class always find it empty: joining is what `TokenProtocol` is for. */
    method RefreshAccessToken() returns (result: Option<AuthTokens>)
      modifies this, storage
      ensures old(refreshPromise).Some? ==>
                result == old(refreshPromise).value && View() == old(View()) && refreshPromise == old(refreshPromise)
      ensures old(refreshPromise).None? ==>
                (View(), result) == PerformedRefresh(world, old(View())) && refreshPromise == None
    {
      if refreshPromise.Some? {
        return refreshPromise.value;
      }
      var performed := PerformRefresh();
      refreshPromise := Some(performed);
      result := refreshPromise.value;
      refreshPromise := None;
    }

    method BuildAuthHeader() returns (header: Option<string>)
      requires refreshPromise.None?
      modifies this, storage
      ensures refreshPromise.None? && (View(), header) == BuiltHeader(world, old(View()))
    {
      var token := storage.Get(ACCESS_TOKEN);
      if Truthy(token) && world.expired(|log|) {
        var refreshed := RefreshAccessToken();
        token := if refreshed.Some? then Some(refreshed.value.accessToken) else None;
      }
      header := if Truthy(token) then token else None;
    }

    method ExecuteRequest(options: Options) returns (reply: Reply)
      requires refreshPromise.None?
      modifies this, storage
      ensures refreshPromise.None? && (View(), reply) == Executed(world, options, old(View()))
    {
      var header: Option<string> := None;
      if !options.isPublic {
        header := BuildAuthHeader();
      }
      reply := world.reply(|log|);
      log := log + [Sent(header, reply)];
    }

    method SignOut()
      modifies this`log, storage
      ensures View() == SignedOut(old(View()))
    {
      ClearTokens();
      log := log + [HookFired];
    }

    method Request(options: Options) returns (outcome: Reply)
      requires refreshPromise.None?
      modifies this, storage
      ensures refreshPromise.None? && (View(), outcome) == Requested(world, options, old(View()))
    {
      var result := ExecuteRequest(options);
      if result.Unauthorized? && !options.isPublic && !options.skipRefresh {
        var refreshed := RefreshAccessToken();
        if refreshed.Some? {
          var retry := ExecuteRequest(options);
          if retry.Unauthorized? {
            SignOut();
          }
          return retry;
        }
        SignOut();
        return result;
      }
      return result;
    }
  }

  // ----- what one request does when it runs alone -----

  function Sends(log: seq<Event>): (replies: seq<Reply>)
    ensures |replies| <= |log|
  {
    if log == [] then []
    else Sends(log[..|log| - 1]) + (if log[|log| - 1].Sent? then [log[|log| - 1].reply] else [])
  }

  function Posts(log: seq<Event>): (tokens: seq<string>)
    ensures |tokens| <= |log|
  {
    if log == [] then []
    else Posts(log[..|log| - 1]) + (if log[|log| - 1].Posted? then [log[|log| - 1].token] else [])
  }

  /** The headers of the endpoint requests. */
  function Carried(log: seq<Event>): (headers: seq<Option<string>>)
    ensures |headers| <= |log|
  {
    if log == [] then []
    else Carried(log[..|log| - 1]) + (if log[|log| - 1].Sent? then [log[|log| - 1].header] else [])
  }

  lemma {:induction false} LogGrows(log: seq<Event>, e: Event)
    ensures Sends(log + [e]) == Sends(log) + (if e.Sent? then [e.reply] else [])
    ensures Posts(log + [e]) == Posts(log) + (if e.Posted? then [e.token] else [])
    ensures Carried(log + [e]) == Carried(log) + (if e.Sent? then [e.header] else [])
  {
    assert (log + [e])[..|log|] == log;
  }

  /** Neither token and no user blob is stored. */
  predicate NoTokens(entries: map<string, string>) {
    ACCESS_TOKEN !in entries && REFRESH_TOKEN !in entries && USER !in entries
  }

  lemma {:induction false} RefreshEffect(w: World, c: Client)
    ensures var (c', tokens) := PerformedRefresh(w, c);
            && Sends(c'.log) == Sends(c.log)
            && Posts(c.log) <= Posts(c'.log) && |Posts(c'.log)| <= |Posts(c.log)| + 1
            && (HookFired !in c.log ==> HookFired !in c'.log)
            && (tokens.Some? ==> Lookup(c'.entries, REFRESH_TOKEN) == Some(tokens.value.refreshToken)
                                 && Lookup(c'.entries, ACCESS_TOKEN) == Some(tokens.value.accessToken))
            && (tokens.None? ==> !Truthy(Lookup(c'.entries, REFRESH_TOKEN)))
  {
    var token := Lookup(c.entries, REFRESH_TOKEN);
    if Truthy(token) {
      LogGrows(c.log, Posted(token.value, w.refresh(|c.log|)));
    }
  }

  lemma {:induction false} ExecuteEffect(w: World, options: Options, c: Client)
    ensures var (c', reply) := Executed(w, options, c);
            && Sends(c'.log) == Sends(c.log) + [reply]
            && Posts(c.log) <= Posts(c'.log) && |Posts(c'.log)| <= |Posts(c.log)| + 1
            && (HookFired !in c.log ==> HookFired !in c'.log)
            && (options.isPublic ==> c'.entries == c.entries && c'.log == c.log + [Sent(None, reply)])
  {
    var (c1, header) := if options.isPublic then (c, None) else BuiltHeader(w, c);
    RefreshEffect(w, c);
    LogGrows(c1.log, Sent(header, w.reply(|c1.log|)));
  }

  function HeaderFor(w: World, options: Options, c: Client): Option<string> {
    if options.isPublic then None else BuiltHeader(w, c).1
  }

  /** An attempt carries the header built for it; nothing else carries one. */
  lemma {:induction false} CarriedEffect(w: World, options: Options, c: Client)
    ensures Carried(PerformedRefresh(w, c).0.log) == Carried(c.log)
    ensures Carried(Executed(w, options, c).0.log) == Carried(c.log) + [HeaderFor(w, options, c)]
    ensures Carried(SignedOut(c).log) == Carried(c.log)
  {
    var token := Lookup(c.entries, REFRESH_TOKEN);
    if Truthy(token) {
      LogGrows(c.log, Posted(token.value, w.refresh(|c.log|)));
    }
    var c1 := if options.isPublic then c else BuiltHeader(w, c).0;
    LogGrows(c1.log, Sent(HeaderFor(w, options, c), w.reply(|c1.log|)));
    LogGrows(c.log, HookFired);
  }

  lemma {:induction false} SignOutEffect(c: Client)
    ensures Sends(SignedOut(c).log) == Sends(c.log) && Posts(SignedOut(c).log) == Posts(c.log)
    ensures NoTokens(SignedOut(c).entries)
    ensures SignedOut(c).log[|c.log|] == HookFired && |SignedOut(c).log| == |c.log| + 1
  {
    LogGrows(c.log, HookFired);
  }

  /** The second half of a request, after a first 401. */
  lemma {:induction false} RetryEffect(w: World, options: Options, c: Client, first: Reply)
    requires options.Eligible() && first.Unauthorized?
    requires Sends(c.log) == [first] && |Posts(c.log)| <= 1 && HookFired !in c.log
    ensures var (c2, tokens) := PerformedRefresh(w, c);
            var (c3, retry) := Executed(w, options, c2);
            && Sends(c2.log) == [first] && |Posts(c2.log)| <= 2 && HookFired !in c2.log
            && Sends(c3.log) == [first, retry] && |Posts(c3.log)| <= 3 && HookFired !in c3.log
  {
    RefreshEffect(w, c);
    var (c2, tokens) := PerformedRefresh(w, c);
    ExecuteEffect(w, options, c2);
  }

  /** The books of a request that has run alone on an empty log. */
  predicate Balanced(options: Options, c: Client, outcome: Reply) {
    var sends := Sends(c.log);
    && 1 <= |sends| <= 2 && |Posts(c.log)| <= 3
    && outcome == sends[|sends| - 1]
    && (|sends| == 2 ==> sends[0].Unauthorized? && options.Eligible())
    && (HookFired in c.log <==> outcome.Unauthorized? && options.Eligible())
    && (HookFired in c.log ==> NoTokens(c.entries) && c.log[|c.log| - 1] == HookFired)
  }

  lemma {:induction false} SignedOutIsBalanced(options: Options, c: Client, outcome: Reply)
    requires options.Eligible() && outcome.Unauthorized? && |Posts(c.log)| <= 3
    requires var sends := Sends(c.log);
             sends == [outcome] || (|sends| == 2 && sends[0].Unauthorized? && sends[1] == outcome)
    ensures Balanced(options, SignedOut(c), outcome)
  {
    SignOutEffect(c);
    assert HookFired in SignedOut(c).log;
  }

  /** However the second half of a request goes, the books balance. */
  lemma {:induction false} RetryIsBalanced(w: World, options: Options, c: Client, first: Reply)
    requires options.Eligible() && first.Unauthorized?
    requires Sends(c.log) == [first] && |Posts(c.log)| <= 1 && HookFired !in c.log
    ensures var (c2, tokens) := PerformedRefresh(w, c);
            var (c3, retry) := Executed(w, options, c2);
            && Balanced(options, SignedOut(c2), first)
            && Balanced(options, if retry.Unauthorized? then SignedOut(c3) else c3, retry)
  {
    RetryEffect(w, options, c, first);
    var c2 := PerformedRefresh(w, c).0;
    SignedOutIsBalanced(options, c2, first);
    var (c3, retry) := Executed(w, options, c2);
    if retry.Unauthorized? {
      SignedOutIsBalanced(options, c3, retry);
    }
  }

  lemma {:induction false} FirstSend(w: World, options: Options, entries: map<string, string>)
    ensures var (c, first) := Executed(w, options, Client(entries, []));
            && Sends(c.log) == [first] && |Posts(c.log)| <= 1 && HookFired !in c.log
            && (options.isPublic ==> c == Client(entries, [Sent(None, first)]))
  {
    ExecuteEffect(w, options, Client(entries, []));
  }

  /** One request alone: at most two sends and three refreshes; the outcome is the last
      answer; the hook fires exactly when that is a 401 of a call that may refresh, and
      then no token is left; a public request sends once and touches no token. */
  lemma {:induction false} RequestAlone(w: World, options: Options, entries: map<string, string>)
    ensures Balanced(options, Requested(w, options, Client(entries, [])).0, Requested(w, options, Client(entries, [])).1)
    ensures options.isPublic ==>
              var (c, outcome) := Requested(w, options, Client(entries, []));
              c == Client(entries, [Sent(None, outcome)])
  {
    var (c, first) := Executed(w, options, Client(entries, []));
    FirstSend(w, options, entries);
    if first.Unauthorized? && options.Eligible() {
      RetryIsBalanced(w, options, c, first);
    }
  }
}
