/**
 The cache agrees with the network under every interleaving in which the INSERTs of one
 lesson run in the order in which they were issued.
 */
module CacheAgreement {
  import opened Lessons
  import opened LessonTable
  import opened CacheMachine

  predicate WaitsFor(task: Task, id: string) {
    task.stage.Waiting? && task.stage.write.lesson.id == id
  }

  /** Task `p` holds the last INSERT issued for its lesson that is still to come. */
  ghost predicate LastWaiting(s: State, p: nat) {
    && p < |s.tasks| && s.tasks[p].stage.Waiting?
    && (forall q | p < q < |s.tasks| :: !WaitsFor(s.tasks[q], s.tasks[p].stage.write.lesson.id))
  }

  ghost predicate Settled(s: State, id: string) {
    forall task <- s.tasks :: !WaitsFor(task, id)
  }

  /** The step is no INSERT that overtakes an earlier one for the same lesson. */
  ghost predicate InOrder(s: State, a: Action)
    requires Enabled(s, a)
  {
    a.Insert? ==> forall q | 0 <= q < a.p :: !WaitsFor(s.tasks[q], s.tasks[a.p].stage.write.lesson.id)
  }

  ghost predicate InIssueOrder(s: State, actions: seq<Action>)
    requires CanRun(s, actions)
    decreases |actions|
  {
    actions == [] || (InOrder(s, actions[0]) && InIssueOrder(Next(s, actions[0]), actions[1..]))
  }

  /** Every row shows the last lesson written for its id; once no INSERT is waiting for
      the id, that is the last lesson fetched. */
  ghost predicate Agreement(s: State) {
    && (forall id <- s.table :: id in s.applied && CachedToLesson(id, s.table[id]) == s.applied[id])
    && (forall p: nat | LastWaiting(s, p) ::
          var lesson := s.tasks[p].stage.write.lesson;
          lesson.id in s.fetched && s.fetched[lesson.id] == lesson)
    && (forall id | Settled(s, id) && id in s.applied :: id in s.fetched && s.fetched[id] == s.applied[id])
  }

  lemma {:induction false} AgreementFetches(s: State, write: Write)
    requires Agreement(s)
    ensures Agreement(Next(s, Fetch(write)))
  {
    var s' := Next(s, Fetch(write));
    var n := |s.tasks|;
    forall p: nat | LastWaiting(s', p)
      ensures var lesson := s'.tasks[p].stage.write.lesson;
              lesson.id in s'.fetched && s'.fetched[lesson.id] == lesson
    {
      if p < n {
        assert !WaitsFor(s'.tasks[n], s.tasks[p].stage.write.lesson.id);
        assert forall q | p < q < n :: s'.tasks[q] == s.tasks[q];
        assert LastWaiting(s, p);
      }
    }
    forall id | Settled(s', id) && id in s'.applied
      ensures id in s'.fetched && s'.fetched[id] == s'.applied[id]
    {
      assert WaitsFor(s'.tasks[n], write.lesson.id);
      assert Settled(s, id) by {
        forall task <- s.tasks ensures !WaitsFor(task, id) {
          assert task in s'.tasks;
        }
      }
    }
  }

  lemma {:induction false} SettledBefore(s: State, p: nat, id: string)
    requires Enabled(s, Insert(p)) && Settled(Next(s, Insert(p)), id)
    requires s.tasks[p].stage.write.lesson.id != id
    ensures Settled(s, id)
  {
    var s' := Next(s, Insert(p));
    forall task <- s.tasks ensures !WaitsFor(task, id) {
      var q :| 0 <= q < |s.tasks| && s.tasks[q] == task;
      assert s'.tasks[q] in s'.tasks;
    }
  }

  /** Issue order: the INSERT that comes first waits alone or before the others. */
  lemma {:induction false} AgreementInserts(s: State, p: nat)
    requires Agreement(s) && Enabled(s, Insert(p)) && InOrder(s, Insert(p))
    ensures Agreement(Next(s, Insert(p)))
  {
    var s' := Next(s, Insert(p));
    var write := s.tasks[p].stage.write;
    WriteThroughRoundTrip(write.lesson, write.contentLength, write.manifestLength, write.now, write.now);
    forall q: nat | LastWaiting(s', q)
      ensures var lesson := s'.tasks[q].stage.write.lesson;
              lesson.id in s'.fetched && s'.fetched[lesson.id] == lesson
    {
      assert forall r | q < r < |s.tasks| && r != p :: s'.tasks[r] == s.tasks[r];
      assert LastWaiting(s, q);
    }
    forall id | Settled(s', id) && id in s'.applied
      ensures id in s'.fetched && s'.fetched[id] == s'.applied[id]
    {
      if id == write.lesson.id {
        forall q | p < q < |s.tasks| ensures !WaitsFor(s.tasks[q], id) {
          assert s'.tasks[q] in s'.tasks;
        }
        assert LastWaiting(s, p);
      } else {
        SettledBefore(s, p, id);
      }
    }
  }

  /** A step that writes no lesson only takes rows away or gives one a new stamp. */
  lemma {:induction false} RowsStay(s: State, a: Action)
    requires Enabled(s, a) && !a.Insert?
    ensures Next(s, a).table.Keys <= s.table.Keys
    ensures forall id <- Next(s, a).table ::
              Next(s, a).table[id] == s.table[id].(accessedAt := Next(s, a).table[id].accessedAt)
  {
  }

  /** So it shows no lesson that was not shown before. */
  lemma {:induction false} NothingNewShown(s: State, a: Action)
    requires Enabled(s, a) && !a.Insert?
    ensures Next(s, a).table.Keys <= s.table.Keys
    ensures forall id <- Next(s, a).table :: CachedToLesson(id, Next(s, a).table[id]) == CachedToLesson(id, s.table[id])
  {
    RowsStay(s, a);
    var t, t' := s.table, Next(s, a).table;
    forall id <- t' ensures CachedToLesson(id, t'[id]) == CachedToLesson(id, t[id]) {
      assert t'[id] == t[id].(accessedAt := t'[id].accessedAt);
    }
  }

  lemma {:induction false} WaitingUnmoved(s: State, a: Action, q: nat)
    requires Enabled(s, a) && !a.Insert? && q < |s.tasks|
    ensures q < |Next(s, a).tasks|
    ensures s.tasks[q].stage.Waiting? ==> Next(s, a).tasks[q] == s.tasks[q]
    ensures Next(s, a).tasks[q].stage.Waiting? ==> Next(s, a).tasks[q] == s.tasks[q]
  {
  }

  lemma {:induction false} StillLastWaiting(s: State, a: Action, p: nat)
    requires Enabled(s, a) && !a.Insert? && !a.Fetch? && LastWaiting(Next(s, a), p)
    ensures LastWaiting(s, p) && Next(s, a).tasks[p] == s.tasks[p]
  {
    assert p < |s.tasks|;
    WaitingUnmoved(s, a, p);
    forall q | p < q < |s.tasks|
      ensures !WaitsFor(s.tasks[q], s.tasks[p].stage.write.lesson.id)
    {
      WaitingUnmoved(s, a, q);
    }
  }

  lemma {:induction false} StillSettled(s: State, a: Action, id: string)
    requires Enabled(s, a) && !a.Insert? && !a.Fetch? && Settled(Next(s, a), id)
    ensures Settled(s, id)
  {
    forall task <- s.tasks
      ensures !WaitsFor(task, id)
    {
      var q: nat :| q < |s.tasks| && s.tasks[q] == task;
      WaitingUnmoved(s, a, q);
      assert Next(s, a).tasks[q] in Next(s, a).tasks;
    }
  }

  lemma {:induction false} AgreementOtherwise(s: State, a: Action)
    requires Agreement(s) && Enabled(s, a) && !a.Insert? && !a.Fetch?
    ensures Agreement(Next(s, a))
  {
    var s' := Next(s, a);
    NothingNewShown(s, a);
    forall p: nat | LastWaiting(s', p)
      ensures LastWaiting(s, p) && s'.tasks[p] == s.tasks[p]
    {
      StillLastWaiting(s, a, p);
    }
    forall id | Settled(s', id)
      ensures Settled(s, id)
    {
      StillSettled(s, a, id);
    }
  }

  lemma {:induction false} AgreementRun(s: State, actions: seq<Action>)
    requires Agreement(s) && CanRun(s, actions) && InIssueOrder(s, actions)
    ensures Agreement(Run(s, actions))
    decreases |actions|
  {
    if actions != [] {
      var a := actions[0];
      if a.Fetch? {
        AgreementFetches(s, a.write);
      } else if a.Insert? {
        AgreementInserts(s, a.p);
      } else {
        AgreementOtherwise(s, a);
      }
      AgreementRun(Next(s, a), actions[1..]);
    }
  }

  /** Over every run in issue order, what a reader is shown for an id with no write
      pending is the last lesson fetched for it, or a miss; evictions and access bumps
      never bring an older one back. */
  lemma {:induction false} ReadersSeeTheLastFetch(table: Table, actions: seq<Action>, id: string)
    requires CanRun(Start(table), actions) && InIssueOrder(Start(table), actions)
    requires Settled(Run(Start(table), actions), id)
    ensures var s := Run(Start(table), actions);
            id in s.table ==> id in s.fetched && CachedToLesson(id, s.table[id]) == s.fetched[id]
  {
    AgreementRun(Start(table), actions);
  }

  lemma {:induction false} StepFirst(s: State, a: Action, rest: seq<Action>)
    requires Enabled(s, a) && CanRun(Next(s, a), rest)
    ensures CanRun(s, [a] + rest) && Run(s, [a] + rest) == Run(Next(s, a), rest)
  {
    assert ([a] + rest)[1..] == rest;
  }

  lemma {:induction false} FourSteps(s: State, a: Action, b: Action, c: Action, d: Action)
    requires Enabled(s, a) && Enabled(Next(s, a), b) && Enabled(Next(Next(s, a), b), c)
    requires Enabled(Next(Next(Next(s, a), b), c), d)
    ensures CanRun(s, [a, b, c, d]) && Run(s, [a, b, c, d]) == Next(Next(Next(Next(s, a), b), c), d)
  {
    var s1 := Next(s, a);
    var s2 := Next(s1, b);
    var s3 := Next(s2, c);
    StepFirst(s3, d, []);
    StepFirst(s2, c, [d]);
    StepFirst(s1, b, [c, d]);
    StepFirst(s, a, [b, c, d]);
    assert [d] + [] == [d] && [c] + [d] == [c, d] && [b] + [c, d] == [b, c, d] && [a] + [b, c, d] == [a, b, c, d];
  }

  /** Without issue order that fails: of two fetches of one lesson whose INSERTs change
      places, the older one is shown. */
  lemma {:induction false} OvertakingShowsTheOlder(first: Write, second: Write) returns (actions: seq<Action>)
    requires first.lesson.id == second.lesson.id && first.lesson != second.lesson
    ensures CanRun(Start(map[]), actions) && !InIssueOrder(Start(map[]), actions)
    ensures var s, id := Run(Start(map[]), actions), first.lesson.id;
            && Settled(s, id) && id in s.table && CachedToLesson(id, s.table[id]) == first.lesson
            && id in s.fetched && s.fetched[id] == second.lesson
  {
    actions := [Fetch(first), Fetch(second), Insert(1), Insert(0)];
    FourSteps(Start(map[]), Fetch(first), Fetch(second), Insert(1), Insert(0));
    WriteThroughRoundTrip(first.lesson, first.contentLength, first.manifestLength, first.now, first.now);
    if InIssueOrder(Start(map[]), actions) {
      ReadersSeeTheLastFetch(map[], actions, first.lesson.id);
    }
  }

  /** A row that is gone stays gone until a new INSERT for its id: in particular the
      un-awaited access bump of an earlier read does not resurrect it. */
  lemma {:induction false} GoneUntilWritten(s: State, actions: seq<Action>, id: string)
    requires CanRun(s, actions) && id !in s.table && Settled(s, id)
    requires forall a <- actions :: a.Fetch? ==> a.write.lesson.id != id
    ensures id !in Run(s, actions).table
    decreases |actions|
  {
    if actions != [] {
      var a := actions[0];
      var s' := Next(s, a);
      if a.Insert? {
        assert s.tasks[a.p] in s.tasks;
      }
      forall task <- s'.tasks ensures !WaitsFor(task, id) {
        var q :| 0 <= q < |s'.tasks| && s'.tasks[q] == task;
        if q < |s.tasks| {
          assert s.tasks[q] in s.tasks;
          if !a.Insert? {
            WaitingUnmoved(s, a, q);
          }
        }
      }
      GoneUntilWritten(s', actions[1..], id);
    }
  }
}
