/**
 The background sync with its prefetches at once.  While it and anything else that
 reads or refetches only the selected lessons run in any interleaving, no other row is
 written, and so the next sync picks no other lesson.
 */
module CacheSync {
  import opened LessonTable
  import opened SyncSelection
  import opened CacheMachine

  /** A stamp for the row of a selected lesson that is not earlier than its own. */
  ghost predicate Later(before: Table, ids: set<string>, id: string, now: int) {
    id in ids && id in before && before[id].accessedAt <= now
  }

  /** What the task may still write are rows of selected lessons. */
  ghost predicate Confined(before: Table, ids: set<string>, stage: Stage) {
    match stage
    case Waiting(write) => Later(before, ids, write.lesson.id, write.now)
    case Bumping(id, now) => Later(before, ids, id, now)
    case _ => true
  }

  ghost predicate AllConfined(before: Table, ids: set<string>, tasks: seq<Task>) {
    forall task <- tasks :: Confined(before, ids, task.stage)
  }

  /** Selected lessons may be fetched and read; evictions are free. */
  ghost predicate Selective(before: Table, ids: set<string>, a: Action) {
    match a
    case Fetch(write) => Later(before, ids, write.lesson.id, write.now)
    case Read(id, now) => Later(before, ids, id, now)
    case _ => true
  }

  lemma {:induction false} StepStaysConfined(s: State, a: Action, before: Table, ids: set<string>)
    requires Enabled(s, a) && Selective(before, ids, a) && AllConfined(before, ids, s.tasks)
    ensures AllConfined(before, ids, Next(s, a).tasks)
  {
  }

  lemma {:induction false} StepTouchesOnly(s: State, a: Action, before: Table, ids: set<string>)
    requires Enabled(s, a) && AllConfined(before, ids, s.tasks) && OnlyTouched(before, s.table, ids)
    ensures OnlyTouched(before, Next(s, a).table, ids)
  {
    if a.Insert? || a.Bump? {
      assert s.tasks[a.p] in s.tasks;
    }
  }

  lemma {:induction false} RunTouchesOnly(s: State, actions: seq<Action>, before: Table, ids: set<string>)
    requires CanRun(s, actions) && forall a <- actions :: Selective(before, ids, a)
    requires AllConfined(before, ids, s.tasks) && OnlyTouched(before, s.table, ids)
    ensures OnlyTouched(before, Run(s, actions).table, ids)
    decreases |actions|
  {
    if actions != [] {
      StepStaysConfined(s, actions[0], before, ids);
      StepTouchesOnly(s, actions[0], before, ids);
      RunTouchesOnly(Next(s, actions[0]), actions[1..], before, ids);
    }
  }

  /** A selection that fits into one of a table with no fewer of its rows is all of it. */
  lemma {:induction false} AsMany(before: Table, after: Table, selected: seq<string>, next: seq<string>, limit: nat)
    requires MostRecent(before, selected, limit) && MostRecent(after, next, limit)
    requires after.Keys <= before.Keys && forall id <- selected :: id in after
    requires forall id <- next :: id in selected
    ensures (set id <- next) == (set id <- selected)
  {
    var was, now := set id <- selected, set id <- next;
    forall id | id in was ensures id in now {
      if id !in now {
        FullSelection(after, next, limit, id);
        IdsCount(selected);
        IdsCount(next);
        SubsetSmaller(now, was);
      }
    }
  }

  /** With distinct stamps, whatever puts, reads and evictions of the selected lessons
      interleave, the next selection is the same set of lessons unless one of them was
      evicted. */
  lemma {:induction false} ConcurrentSyncIsStable(s: State, actions: seq<Action>, selected: seq<string>, next: seq<string>, limit: nat)
    requires DistinctStamps(s.table) && MostRecent(s.table, selected, limit)
    requires AllConfined(s.table, (set id <- selected), s.tasks)
    requires CanRun(s, actions) && forall a <- actions :: Selective(s.table, (set id <- selected), a)
    requires MostRecent(Run(s, actions).table, next, limit)
    requires forall id <- selected :: id in Run(s, actions).table
    ensures (set id <- next) == (set id <- selected)
  {
    var ids := set id <- selected;
    var after := Run(s, actions).table;
    RunTouchesOnly(s, actions, s.table, ids);
    SelectionIsStable(s.table, after, selected, next, limit);
    AsMany(s.table, after, selected, next, limit);
  }
}
