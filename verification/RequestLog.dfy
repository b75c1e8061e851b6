/**
 What stands in the log of a request that runs alone: which token each endpoint request
 carries and which each refresh presents, told from the stored entries at the start and
 the events before it.
 */
module RequestLog {
  import opened Wrappers
  import opened TokenProtocol
  import opened ApiClients

  /** The two tokens held after the events: those of the last refresh, if any. */
  function TokensAfter(entries: map<string, string>, log: seq<Event>): TokenStore {
    if log == [] then TokenStore(Lookup(entries, ACCESS_TOKEN), Lookup(entries, REFRESH_TOKEN))
    else
      match log[|log| - 1]
      case Posted(_, Granted(tokens)) => Holding(tokens)
      case Posted(_, _) => EMPTY_STORE
      case HookFired => EMPTY_STORE
      case Sent(_, _) => TokensAfter(entries, log[..|log| - 1])
  }

  /** A refresh was refused or the call was signed out. */
  predicate Cleared(log: seq<Event>) {
    exists e <- log :: e.HookFired? || (e.Posted? && !e.answer.Granted?)
  }

  /** The last event is a refresh for the header about to be sent: not the one that
      answers a 401. */
  predicate RefreshedForHeader(log: seq<Event>) {
    log != [] && log[|log| - 1].Posted? && (|log| == 1 || log[|log| - 2].Posted?)
  }

  /** The header due after the events: the token held, unless it has expired and there
      was no refresh for it. */
  function HeaderDue(w: World, entries: map<string, string>, past: seq<Event>): Option<string> {
    var access := TokensAfter(entries, past).access;
    if access == Some("") || (!RefreshedForHeader(past) && w.expired(|past|)) then None else access
  }

  /** What a sign-out must have behind it: a refused refresh, or a 401 with no refresh
      token held or after an earlier attempt. */
  predicate MaySignOut(entries: map<string, string>, past: seq<Event>) {
    past != []
    && match past[|past| - 1]
       case Posted(_, answer) => !answer.Granted?
       case Sent(_, reply) =>
         reply.Unauthorized?
         && (!Truthy(TokensAfter(entries, past).refresh) || exists e <- past[..|past| - 1] :: e.Sent?)
       case HookFired => false
  }

  /** The `k`-th event is as the events before it demand. */
  predicate Lawful(w: World, options: Options, entries: map<string, string>, log: seq<Event>, k: nat)
    requires k < |log|
  {
    var past := log[..k];
    var held := TokensAfter(entries, past);
    match log[k]
    case Sent(header, reply) =>
      && reply == w.reply(k)
      && header == (if options.isPublic then None else HeaderDue(w, entries, past))
      && (!options.isPublic && Truthy(held.access) && header.None? ==> !Truthy(held.refresh))
    case Posted(token, answer) => !options.isPublic && answer == w.refresh(k) && Some(token) == held.refresh && token != ""
    case HookFired => options.Eligible() && MaySignOut(entries, past)
  }

  /** The log is lawful and the entries are what it leaves of the first ones. */
  ghost predicate Tracks(w: World, options: Options, entries: map<string, string>, c: Client) {
    && (forall k | 0 <= k < |c.log| :: Lawful(w, options, entries, c.log, k))
    && TokensAfter(entries, c.log) == TokenStore(Lookup(c.entries, ACCESS_TOKEN), Lookup(c.entries, REFRESH_TOKEN))
    && (forall key | key != ACCESS_TOKEN && key != REFRESH_TOKEN ::
          Lookup(c.entries, key) == if key == USER && Cleared(c.log) then None else Lookup(entries, key))
  }

  lemma {:induction false} LawAppends(w: World, options: Options, entries: map<string, string>, log: seq<Event>, e: Event)
    requires forall k | 0 <= k < |log| :: Lawful(w, options, entries, log, k)
    requires Lawful(w, options, entries, log + [e], |log|)
    ensures forall k | 0 <= k < |log + [e]| :: Lawful(w, options, entries, log + [e], k)
  {
    forall k | 0 <= k < |log| ensures Lawful(w, options, entries, log + [e], k) {
      assert (log + [e])[..k] == log[..k] && (log + [e])[k] == log[k];
      assert Lawful(w, options, entries, log, k);
    }
  }

  lemma {:induction false} KeysDiffer()
    ensures ACCESS_TOKEN != REFRESH_TOKEN && USER != ACCESS_TOKEN && USER != REFRESH_TOKEN
  {
    assert ACCESS_TOKEN[7] == 'a' && REFRESH_TOKEN[7] == 'r' && USER[7] == 'u';
  }

  lemma {:induction false} AfterOneMore(entries: map<string, string>, log: seq<Event>, e: Event)
    ensures (log + [e])[..|log|] == log
    ensures Cleared(log + [e]) <==> Cleared(log) || e.HookFired? || (e.Posted? && !e.answer.Granted?)
    ensures TokensAfter(entries, log + [e]) ==
            match e
            case Posted(_, answer) => if answer.Granted? then Holding(answer.tokens) else EMPTY_STORE
            case HookFired => EMPTY_STORE
            case Sent(_, _) => TokensAfter(entries, log)
  {
    assert (log + [e])[..|log|] == log;
    assert forall x <- log :: x in log + [e];
    assert e in log + [e];
  }

  /** Setting the tokens keeps every other entry; clearing them takes the user with them
      and keeps the rest. */
  lemma {:induction false} OtherEntriesStay(entries: map<string, string>, tokens: AuthTokens, key: string)
    requires key != ACCESS_TOKEN && key != REFRESH_TOKEN
    ensures Lookup(WithTokens(entries, tokens), key) == Lookup(entries, key)
    ensures Lookup(WithoutTokens(entries), key) == if key == USER then None else Lookup(entries, key)
  {
  }

  lemma {:induction false} RefreshTracks(w: World, options: Options, entries: map<string, string>, c: Client)
    requires Tracks(w, options, entries, c) && !options.isPublic
    ensures Tracks(w, options, entries, PerformedRefresh(w, c).0)
  {
    var token := Lookup(c.entries, REFRESH_TOKEN);
    KeysDiffer();
    if Truthy(token) {
      var e := Posted(token.value, w.refresh(|c.log|));
      AfterOneMore(entries, c.log, e);
      LawAppends(w, options, entries, c.log, e);
      var tokens := if e.answer.Granted? then e.answer.tokens else AuthTokens("", "");
      forall key | key != ACCESS_TOKEN && key != REFRESH_TOKEN
        ensures Lookup(PerformedRefresh(w, c).0.entries, key)
                == if key == USER && Cleared(c.log + [e]) then None else Lookup(entries, key)
      {
        OtherEntriesStay(c.entries, tokens, key);
      }
    }
  }

  lemma {:induction false} SendTracks(w: World, options: Options, entries: map<string, string>, c: Client, header: Option<string>)
    requires Tracks(w, options, entries, c)
    requires header == if options.isPublic then None else HeaderDue(w, entries, c.log)
    requires !options.isPublic && Truthy(TokensAfter(entries, c.log).access) && header.None?
             ==> !Truthy(TokensAfter(entries, c.log).refresh)
    ensures Tracks(w, options, entries, c.(log := c.log + [Sent(header, w.reply(|c.log|))]))
  {
    var e := Sent(header, w.reply(|c.log|));
    AfterOneMore(entries, c.log, e);
    LawAppends(w, options, entries, c.log, e);
  }

  /** An attempt begins with an empty log or right after the refresh for a 401. */
  predicate AttemptBegins(log: seq<Event>) {
    log == [] || (|log| > 1 && log[|log| - 1].Posted? && log[|log| - 2].Sent?)
  }

  /** The header built is the header due. */
  lemma {:induction false} HeaderTracks(w: World, options: Options, entries: map<string, string>, c: Client)
    requires Tracks(w, options, entries, c) && !options.isPublic && AttemptBegins(c.log)
    ensures var (c', header) := BuiltHeader(w, c);
            && Tracks(w, options, entries, c') && header == HeaderDue(w, entries, c'.log)
            && (Truthy(TokensAfter(entries, c'.log).access) && header.None? ==> !Truthy(TokensAfter(entries, c'.log).refresh))
  {
    RefreshTracks(w, options, entries, c);
    var token := Lookup(c.entries, ACCESS_TOKEN);
    if Truthy(token) && w.expired(|c.log|) && Truthy(Lookup(c.entries, REFRESH_TOKEN)) {
      AfterOneMore(entries, c.log, Posted(Lookup(c.entries, REFRESH_TOKEN).value, w.refresh(|c.log|)));
    }
  }

  lemma {:induction false} ExecuteTracks(w: World, options: Options, entries: map<string, string>, c: Client)
    requires Tracks(w, options, entries, c) && AttemptBegins(c.log)
    ensures Tracks(w, options, entries, Executed(w, options, c).0)
    ensures var (c', reply) := Executed(w, options, c);
            && |c'.log| > |c.log| && c'.log[..|c.log|] == c.log
            && c'.log[|c'.log| - 1].Sent? && c'.log[|c'.log| - 1].reply == reply
  {
    if options.isPublic {
      SendTracks(w, options, entries, c, None);
    } else {
      var (c1, header) := BuiltHeader(w, c);
      HeaderTracks(w, options, entries, c);
      SendTracks(w, options, entries, c1, header);
    }
  }

  lemma {:induction false} SignOutTracks(w: World, options: Options, entries: map<string, string>, c: Client)
    requires Tracks(w, options, entries, c) && options.Eligible() && MaySignOut(entries, c.log)
    ensures Tracks(w, options, entries, SignedOut(c))
  {
    KeysDiffer();
    AfterOneMore(entries, c.log, HookFired);
    LawAppends(w, options, entries, c.log, HookFired);
    forall key | key != ACCESS_TOKEN && key != REFRESH_TOKEN
      ensures Lookup(SignedOut(c).entries, key) == if key == USER then None else Lookup(entries, key)
    {
      OtherEntriesStay(c.entries, AuthTokens("", ""), key);
    }
  }

  /** A 401 with its answer last in the log, up to the end of the request. */
  lemma {:induction false} RetryTracks(w: World, options: Options, entries: map<string, string>, c: Client)
    requires Tracks(w, options, entries, c) && options.Eligible()
    requires c.log != [] && c.log[|c.log| - 1].Sent? && c.log[|c.log| - 1].reply.Unauthorized?
    ensures var (c2, tokens) := PerformedRefresh(w, c);
            var (c3, retry) := Executed(w, options, c2);
            && (tokens.None? ==> Tracks(w, options, entries, SignedOut(c2)))
            && (tokens.Some? ==> Tracks(w, options, entries, if retry.Unauthorized? then SignedOut(c3) else c3))
  {
    var (c2, tokens) := PerformedRefresh(w, c);
    RefreshTracks(w, options, entries, c);
    if tokens.None? {
      SignOutTracks(w, options, entries, c2);
    } else {
      assert AttemptBegins(c2.log);
      ExecuteTracks(w, options, entries, c2);
      var (c3, retry) := Executed(w, options, c2);
      if retry.Unauthorized? {
        var sent, n := c.log[|c.log| - 1], |c.log| - 1;
        assert c3.log[..|c3.log| - 1][n] == c3.log[..|c2.log|][n] == c2.log[n] == sent;
        SignOutTracks(w, options, entries, c3);
      }
    }
  }

  /** Every event of a request that runs alone is the one due: each endpoint request
      carries the token held at that moment, each refresh presents the one held, and the
      store ends as the events leave it, other entries untouched. */
  lemma {:induction false} RequestIsLawful(w: World, options: Options, entries: map<string, string>)
    ensures Tracks(w, options, entries, Requested(w, options, Client(entries, [])).0)
  {
    var c := Client(entries, []);
    assert Tracks(w, options, entries, c);
    ExecuteTracks(w, options, entries, c);
    var (c1, first) := Executed(w, options, c);
    if first.Unauthorized? && options.Eligible() {
      RetryTracks(w, options, entries, c1);
    }
  }

  lemma {:induction false} NothingPostedNothingChanged(entries: map<string, string>, log: seq<Event>)
    requires forall e <- log :: e.Sent?
    ensures TokensAfter(entries, log) == TokensAfter(entries, [])
    decreases |log|
  {
    if log != [] {
      assert log[|log| - 1] in log;
      NothingPostedNothingChanged(entries, log[..|log| - 1]);
    }
  }

  /** In words about the log alone: a stored token that has not expired is sent as it is
      until a refresh; right after a granted refresh the new access token is sent; and
      after a refused one no token. */
  lemma {:induction false} HeadersOfARequest(w: World, options: Options, entries: map<string, string>, k: nat)
    requires !options.isPublic
    requires k < |Requested(w, options, Client(entries, [])).0.log|
    requires Requested(w, options, Client(entries, [])).0.log[k].Sent?
    ensures var log := Requested(w, options, Client(entries, [])).0.log;
            && ((forall e <- log[..k] :: e.Sent?) && Lookup(entries, ACCESS_TOKEN).Some? && entries[ACCESS_TOKEN] != "" && !w.expired(k)
                ==> log[k].header == Some(entries[ACCESS_TOKEN]))
            && (k > 0 && log[k - 1].Posted? && log[k - 1].answer.Granted? && log[k - 1].answer.tokens.accessToken != ""
                && (k == 1 || log[k - 2].Posted? || !w.expired(k))
                ==> log[k].header == Some(log[k - 1].answer.tokens.accessToken))
            && (k > 0 && log[k - 1].Posted? && !log[k - 1].answer.Granted? ==> log[k].header == None)
  {
    var log := Requested(w, options, Client(entries, [])).0.log;
    RequestIsLawful(w, options, entries);
    assert Lawful(w, options, entries, log, k);
    if forall e <- log[..k] :: e.Sent? {
      NothingPostedNothingChanged(entries, log[..k]);
    }
  }
}
