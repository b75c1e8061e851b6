/**
 The memo in front of the slug lookup: in place, one lookup at a time, and as a
 machine in which any number of lookups overlap while the clock moves on.
 */
module SlugMemos {
  import opened Wrappers

  const SLUG_CACHE_TTL_MS := 60_000

  datatype Entry = Entry(claimed: bool, expiresAt: int)

  /** What came back: a 2xx with its optional `exists` field, or any failure. */
  datatype ApiAnswer = Found(present: Option<bool>) | Failed {
    /** Claimed unless the API says otherwise: failures count as claimed. */
    predicate Claimed() { Failed? || present != Some(false) }
  }

  type Memo = map<string, Entry>

  function Remembered(memo: Memo, slug: string, now: int): Option<bool> {
    if slug in memo && memo[slug].expiresAt > now then Some(memo[slug].claimed) else None
  }

  /** Failures are not remembered. */
  function Remembering(memo: Memo, slug: string, answer: ApiAnswer, now: int): Memo {
    if answer.Found? then memo[slug := Entry(answer.Claimed(), now + SLUG_CACHE_TTL_MS)] else memo
  }

  class SlugMemo {
    var slugCache: Memo

    constructor ()
      ensures slugCache == map[]
    {
      slugCache := map[];
    }

    /** `answer` is what the API would say and `later` the time at which it does. */
    method SlugIsClaimed(slug: string, now: int, answer: ApiAnswer, later: int) returns (claimed: bool)
      modifies this
      ensures match Remembered(old(slugCache), slug, now)
              case Some(known) => claimed == known && slugCache == old(slugCache)
              case None => claimed == answer.Claimed() && slugCache == Remembering(old(slugCache), slug, answer, later)
    {
      if slug in slugCache {
        var cached := slugCache[slug];
        if cached.expiresAt > now {
          return cached.claimed;
        }
      }
      claimed := true;
      match answer {
        case Found(present) =>
          claimed := present != Some(false);
        case Failed =>
          return true;
      }
      slugCache := slugCache[slug := Entry(claimed, later + SLUG_CACHE_TTL_MS)];
    }
  }

  // ----- overlapping lookups -----

  datatype Lookup =
    | Fetching(slug: string)
    | Done(slug: string, claimed: bool, at: int, failedOpen: bool)

  /** An answer of the API and the time at which its body was read. */
  datatype Heard = Heard(slug: string, present: Option<bool>, at: int)

  datatype State = State(memo: Memo, now: int, lookups: seq<Lookup>, heard: set<Heard>)

  datatype Action =
    | Wait(ms: nat)
    | Ask(slug: string)
    | Hear(i: nat, answer: ApiAnswer)

  predicate Enabled(s: State, a: Action) {
    a.Hear? ==> a.i < |s.lookups| && s.lookups[a.i].Fetching?
  }

  function Next(s: State, a: Action): State
    requires Enabled(s, a)
  {
    match a
    case Wait(ms) => s.(now := s.now + ms)
    case Ask(slug) =>
      var known := Remembered(s.memo, slug, s.now);
      s.(lookups := s.lookups + [if known.Some? then Done(slug, known.value, s.now, false) else Fetching(slug)])
    case Hear(i, answer) =>
      var slug := s.lookups[i].slug;
      s.(memo := Remembering(s.memo, slug, answer, s.now),
         lookups := s.lookups[i := Done(slug, answer.Claimed(), s.now, answer.Failed?)],
         heard := if answer.Found? then s.heard + {Heard(slug, answer.present, s.now)} else s.heard)
  }

  predicate CanRun(s: State, actions: seq<Action>)
    decreases |actions|
  {
    actions == [] || (Enabled(s, actions[0]) && CanRun(Next(s, actions[0]), actions[1..]))
  }

  function Run(s: State, actions: seq<Action>): State
    requires CanRun(s, actions)
    decreases |actions|
  {
    if actions == [] then s else Run(Next(s, actions[0]), actions[1..])
  }

  /** The API said `claimed` of `slug` less than a TTL before `at`. */
  ghost predicate Backed(heard: set<Heard>, slug: string, claimed: bool, at: int) {
    exists h :: h in heard && h.slug == slug && claimed == (h.present != Some(false))
                && h.at <= at < h.at + SLUG_CACHE_TTL_MS
  }

  /** Every remembered entry is an answer of the API with the TTL added to its time. */
  ghost predicate Founded(s: State) {
    && (forall slug <- s.memo ::
          s.memo[slug].expiresAt - SLUG_CACHE_TTL_MS <= s.now && Exactly(s.heard, slug, s.memo[slug]))
    && (forall l <- s.lookups | l.Done? ::
          (!l.failedOpen ==> Backed(s.heard, l.slug, l.claimed, l.at)) && (l.failedOpen ==> l.claimed))
  }

  ghost predicate Exactly(heard: set<Heard>, slug: string, e: Entry) {
    exists h :: h in heard && h.slug == slug && e == Entry(h.present != Some(false), h.at + SLUG_CACHE_TTL_MS)
  }

  lemma {:induction false} BackedStays(heard: set<Heard>, more: set<Heard>, slug: string, claimed: bool, at: int)
    requires Backed(heard, slug, claimed, at) && heard <= more
    ensures Backed(more, slug, claimed, at)
  {
  }

  lemma {:induction false} FoundedKept(s: State, a: Action)
    requires Founded(s) && Enabled(s, a)
    ensures Founded(Next(s, a))
  {
    var s' := Next(s, a);
    if a.Hear? && a.answer.Found? {
      var h := Heard(s.lookups[a.i].slug, a.answer.present, s.now);
      assert h in s'.heard;
      assert Backed(s'.heard, h.slug, a.answer.Claimed(), s.now);
    }
    forall l <- s'.lookups | l.Done?
      ensures (!l.failedOpen ==> Backed(s'.heard, l.slug, l.claimed, l.at)) && (l.failedOpen ==> l.claimed)
    {
      if l in s.lookups && !l.failedOpen {
        BackedStays(s.heard, s'.heard, l.slug, l.claimed, l.at);
      } else if l !in s.lookups && a.Ask? {
        assert l == s'.lookups[|s.lookups|];
        assert Exactly(s.heard, a.slug, s.memo[a.slug]);
      }
    }
  }

  lemma {:induction false} FoundedRun(s: State, actions: seq<Action>)
    requires Founded(s) && CanRun(s, actions)
    ensures Founded(Run(s, actions))
    decreases |actions|
  {
    if actions != [] {
      FoundedKept(s, actions[0]);
      FoundedRun(Next(s, actions[0]), actions[1..]);
    }
  }

  /** Over every run of overlapping lookups, a slug is reported unclaimed only if the API
      said so of that slug less than 60 seconds before; any other answer that is not a
      failure is as recent. */
  lemma {:induction false} AnswersAreRecent(now: int, actions: seq<Action>, l: Lookup)
    requires CanRun(State(map[], now, [], {}), actions)
    requires l in Run(State(map[], now, [], {}), actions).lookups && l.Done?
    ensures !l.claimed ==>
              exists h :: h in Run(State(map[], now, [], {}), actions).heard
                && h.slug == l.slug && h.present == Some(false) && h.at <= l.at < h.at + 60_000
    ensures !l.failedOpen ==> Backed(Run(State(map[], now, [], {}), actions).heard, l.slug, l.claimed, l.at)
  {
    FoundedRun(State(map[], now, [], {}), actions);
  }

  /** A lookup that failed leaves the memo as it was, and what is remembered is always
      an answer the API gave, never the fail-open default. */
  lemma {:induction false} FailuresAreNotRemembered(now: int, actions: seq<Action>, slug: string)
    requires CanRun(State(map[], now, [], {}), actions)
    requires slug in Run(State(map[], now, [], {}), actions).memo
    ensures var s := Run(State(map[], now, [], {}), actions);
            exists h :: h in s.heard && h.slug == slug && h.at <= s.now
              && s.memo[slug] == Entry(h.present != Some(false), h.at + SLUG_CACHE_TTL_MS)
  {
    FoundedRun(State(map[], now, [], {}), actions);
    assert Exactly(Run(State(map[], now, [], {}), actions).heard, slug, Run(State(map[], now, [], {}), actions).memo[slug]);
  }

  // ----- what is remembered is used -----

  /** No answer about the slug is heard in the run. */
  predicate Undisturbed(s: State, actions: seq<Action>, slug: string)
    requires CanRun(s, actions)
    decreases |actions|
  {
    actions == []
    || (!(actions[0].Hear? && s.lookups[actions[0].i].slug == slug && actions[0].answer.Found?)
        && Undisturbed(Next(s, actions[0]), actions[1..], slug))
  }

  lemma {:induction false} EntryStays(s: State, actions: seq<Action>, slug: string)
    requires CanRun(s, actions) && Undisturbed(s, actions, slug) && slug in s.memo
    ensures slug in Run(s, actions).memo && Run(s, actions).memo[slug] == s.memo[slug]
    decreases |actions|
  {
    if actions != [] {
      EntryStays(Next(s, actions[0]), actions[1..], slug);
    }
  }

  /** Once the API has answered for a slug, lookups of it get that answer without asking
      again for 60 seconds and ask again afterwards, whatever else is looked up, heard or
      fails meanwhile. */
  lemma {:induction false} AnswerIsUsedForAMinute(s: State, i: nat, present: Option<bool>, actions: seq<Action>)
    requires Enabled(s, Hear(i, Found(present)))
    requires var s' := Next(s, Hear(i, Found(present)));
             CanRun(s', actions) && Undisturbed(s', actions, s.lookups[i].slug)
    ensures var slug, later := s.lookups[i].slug, Run(Next(s, Hear(i, Found(present))), actions);
            Next(later, Ask(slug)).lookups
            == later.lookups + [if later.now < s.now + 60_000 then Done(slug, present != Some(false), later.now, false)
                                else Fetching(slug)]
  {
    EntryStays(Next(s, Hear(i, Found(present))), actions, s.lookups[i].slug);
  }

  /** A failed lookup changes no entry. */
  lemma {:induction false} FailureChangesNothing(s: State, i: nat)
    requires Enabled(s, Hear(i, Failed))
    ensures Next(s, Hear(i, Failed)).memo == s.memo
    ensures Next(s, Hear(i, Failed)).lookups[i] == Done(s.lookups[i].slug, true, s.now, true)
  {
  }
}
