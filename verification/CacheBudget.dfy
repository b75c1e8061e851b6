/** The size budget of the cache under every interleaving. */
module CacheBudget {
  import opened Lessons
  import opened LessonTable
  import opened CacheMachine

  /** Sizes an eviction still has on its list. */
  function Remaining(candidates: seq<Candidate>, next: nat): nat
    requires next <= |candidates|
    decreases |candidates| - next
  {
    if next == |candidates| then 0 else candidates[next].sizeBytes + Remaining(candidates, next + 1)
  }

  /** Every row of the table is still on the list, with the size it has there. */
  ghost predicate Lists(candidates: seq<Candidate>, next: nat, t: Table) {
    && next <= |candidates|
    && (forall i, j | next <= i < j < |candidates| :: candidates[i].id != candidates[j].id)
    && (forall k <- t :: exists j :: next <= j < |candidates| && candidates[j] == Candidate(k, t[k].sizeBytes))
  }

  /** Deleting the next candidate strikes it off the list, whether or not its row was
      still there. */
  lemma {:induction false} Struck(candidates: seq<Candidate>, next: nat, t: Table)
    requires Lists(candidates, next, t) && next < |candidates|
    ensures Lists(candidates, next + 1, t - {candidates[next].id})
    ensures candidates[next].id in t ==> t[candidates[next].id].sizeBytes == candidates[next].sizeBytes
  {
    var t' := t - {candidates[next].id};
    forall k <- t'
      ensures exists j :: next + 1 <= j < |candidates| && candidates[j] == Candidate(k, t'[k].sizeBytes)
    {
      var j :| next <= j < |candidates| && candidates[j] == Candidate(k, t[k].sizeBytes);
    }
    if candidates[next].id in t {
      var k := candidates[next].id;
      var j :| next <= j < |candidates| && candidates[j] == Candidate(k, t[k].sizeBytes);
    }
  }

  lemma {:induction false} ListedTotal(candidates: seq<Candidate>, next: nat, t: Table)
    requires Lists(candidates, next, t)
    ensures Total(t) <= Remaining(candidates, next)
    decreases |candidates| - next
  {
    if next == |candidates| {
      assert t == map[];
    } else {
      var k := candidates[next].id;
      if k in t {
        TotalSplit(t, k);
        Struck(candidates, next, t);
        ListedTotal(candidates, next + 1, t - {k});
      } else {
        Struck(candidates, next, t);
        assert t - {k} == t;
        ListedTotal(candidates, next + 1, t);
      }
    }
  }

  lemma {:induction false} ListShrinks(candidates: seq<Candidate>, next: nat, t: Table, t': Table)
    requires Lists(candidates, next, t) && Shrinks(t, t')
    ensures Lists(candidates, next, t')
  {
    forall k <- t'
      ensures exists j :: next <= j < |candidates| && candidates[j] == Candidate(k, t'[k].sizeBytes)
    {
      var j :| next <= j < |candidates| && candidates[j] == Candidate(k, t[k].sizeBytes);
    }
  }

  lemma {:induction false} SelectedLists(t: Table, candidates: seq<Candidate>)
    requires OldestFirst(t, candidates)
    ensures Lists(candidates, 0, t)
  {
    forall k <- t
      ensures exists j :: 0 <= j < |candidates| && candidates[j] == Candidate(k, t[k].sizeBytes)
    {
      var j :| 0 <= j < |candidates| && candidates[j].id == k;
    }
  }

  lemma {:induction false} SelectedTotal(t: Table, candidates: seq<Candidate>, next: nat)
    requires next <= |candidates|
    requires forall j | next <= j < |candidates| ::
               candidates[j].id in t && t[candidates[j].id].sizeBytes == candidates[j].sizeBytes
    requires forall i, j | next <= i < j < |candidates| :: candidates[i].id != candidates[j].id
    ensures Remaining(candidates, next) <= Total(t)
    decreases |candidates| - next
  {
    if next < |candidates| {
      TotalSplit(t, candidates[next].id);
      SelectedTotal(t - {candidates[next].id}, candidates, next + 1);
    }
  }

  // ----- the invariant -----

  /** This put will still bring the table under the budget, or has shown that it is. */
  ghost predicate Guards(s: State, p: nat) {
    && p < |s.tasks| && s.tasks[p].isPut
    && var stage := s.tasks[p].stage;
       || stage.Written?
       || stage.Measuring?
       || (stage.Oversize? && Total(s.table) <= stage.total)
       || (stage.Deleting? && Lists(stage.candidates, stage.next, s.table)
           && Remaining(stage.candidates, stage.next) <= stage.total)
  }

  ghost predicate Safe(s: State) {
    Total(s.table) <= CACHE_MAX_BYTES || exists p: nat :: Guards(s, p)
  }

  ghost predicate Budgets(s: State) {
    forall task <- s.tasks ::
      && (task.isPut ==> task.budget == CACHE_MAX_BYTES && !task.stage.Bumping?)
      && (task.stage.Waiting? ==> task.isPut)
  }

  /** Rows only go or get a new stamp, and the guard's own stage is untouched. */
  lemma {:induction false} GuardStays(s: State, s': State, p: nat)
    requires Guards(s, p) && p < |s'.tasks| && s'.tasks[p] == s.tasks[p]
    requires Shrinks(s.table, s'.table)
    ensures Guards(s', p)
  {
    TotalShrinks(s.table, s'.table);
    var stage := s.tasks[p].stage;
    if stage.Deleting? && Lists(stage.candidates, stage.next, s.table) {
      ListShrinks(stage.candidates, stage.next, s.table, s'.table);
    }
  }

  lemma {:induction false} GuardMeasures(s: State, p: nat)
    requires Guards(s, p) && Budgets(s) && Enabled(s, Sum(p))
    ensures Safe(Next(s, Sum(p)))
  {
    var s' := Next(s, Sum(p));
    assert s.tasks[p] in s.tasks;
    assert Total(s.table) <= CACHE_MAX_BYTES || Guards(s', p);
  }

  /** The loop stops under the budget or with nothing left on its list. */
  lemma {:induction false} LoopIsSafe(s: State, p: nat, total: int, candidates: seq<Candidate>, next: nat)
    requires p < |s.tasks| && s.tasks[p].isPut && s.tasks[p].budget == CACHE_MAX_BYTES
    requires Lists(candidates, next, s.table) && Remaining(candidates, next) <= total
    requires s.tasks[p].stage == LoopStage(total, candidates, next, CACHE_MAX_BYTES)
    ensures Safe(s)
  {
    if s.tasks[p].stage.Deleting? {
      assert Guards(s, p);
    } else {
      ListedTotal(candidates, next, s.table);
    }
  }

  lemma {:induction false} GuardSelects(s: State, p: nat, candidates: seq<Candidate>)
    requires Guards(s, p) && Budgets(s) && Enabled(s, Select(p, candidates))
    ensures Safe(Next(s, Select(p, candidates)))
  {
    assert s.tasks[p] in s.tasks;
    SelectedLists(s.table, candidates);
    SelectedTotal(s.table, candidates, 0);
    LoopIsSafe(Next(s, Select(p, candidates)), p, s.tasks[p].stage.total, candidates, 0);
  }

  lemma {:induction false} GuardDeletes(s: State, p: nat)
    requires Guards(s, p) && Budgets(s) && Enabled(s, DeleteNext(p))
    ensures Safe(Next(s, DeleteNext(p)))
  {
    assert s.tasks[p] in s.tasks;
    var stage := s.tasks[p].stage;
    Struck(stage.candidates, stage.next, s.table);
    LoopIsSafe(Next(s, DeleteNext(p)), p,
      stage.total - stage.candidates[stage.next].sizeBytes, stage.candidates, stage.next + 1);
  }

  /** A step that writes no row keeps the table within its own sizes. */
  lemma {:induction false} OnlyInsertsGrow(s: State, a: Action)
    requires Enabled(s, a) && !a.Insert?
    ensures Shrinks(s.table, Next(s, a).table)
  {
  }

  function Mover(s: State, a: Action): nat {
    match a
    case Insert(p) => p
    case DeleteExpired(p, _) => p
    case Sum(p) => p
    case Select(p, _) => p
    case DeleteNext(p) => p
    case Bump(p) => p
    case _ => |s.tasks|
  }

  /** After an INSERT its own put guards the budget. */
  lemma {:induction false} InsertIsSafe(s: State, p: nat)
    requires Budgets(s) && Enabled(s, Insert(p)) && s.tasks[p].isPut
    ensures Safe(Next(s, Insert(p)))
  {
    assert Guards(Next(s, Insert(p)), p);
  }

  lemma {:induction false} GuardSteps(s: State, a: Action, p: nat)
    requires Guards(s, p) && Budgets(s) && Enabled(s, a) && p == Mover(s, a)
    ensures Safe(Next(s, a))
  {
    assert s.tasks[p] in s.tasks;
    match a
    case DeleteExpired(_, _) => assert Guards(Next(s, a), p);
    case Sum(_) => GuardMeasures(s, p);
    case Select(_, candidates) => GuardSelects(s, p, candidates);
    case DeleteNext(_) => GuardDeletes(s, p);
    case _ =>
  }

  lemma {:induction false} SafeKept(s: State, a: Action)
    requires Safe(s) && Budgets(s) && Enabled(s, a)
    ensures Safe(Next(s, a))
  {
    var s' := Next(s, a);
    if a.Insert? {
      InsertIsSafe(s, a.p);
    } else {
      OnlyInsertsGrow(s, a);
      if Total(s.table) <= CACHE_MAX_BYTES {
        TotalShrinks(s.table, s'.table);
      } else {
        var p: nat :| Guards(s, p);
        if p != Mover(s, a) {
          GuardStays(s, s', p);
        } else {
          GuardSteps(s, a, p);
        }
      }
    }
  }

  lemma {:induction false} BudgetsKept(s: State, a: Action)
    requires Budgets(s) && Enabled(s, a)
    ensures Budgets(Next(s, a))
  {
    var s' := Next(s, a);
    forall task <- s'.tasks
      ensures (task.isPut ==> task.budget == CACHE_MAX_BYTES && !task.stage.Bumping?)
              && (task.stage.Waiting? ==> task.isPut)
    {
      var q :| 0 <= q < |s'.tasks| && s'.tasks[q] == task;
      if q < |s.tasks| {
        assert s.tasks[q] in s.tasks;
      }
    }
  }

  /** Before its first INSERT a run can only have shrunk the table. */
  ghost predicate NothingInserted(s: State) {
    forall task <- s.tasks :: task.isPut ==> task.stage.Waiting?
  }

  lemma {:induction false} FirstInsertMakesSafe(s: State, a: Action)
    requires Budgets(s) && Enabled(s, a) && (Safe(s) || NothingInserted(s))
    ensures Safe(Next(s, a)) || NothingInserted(Next(s, a))
  {
    if Safe(s) {
      SafeKept(s, a);
    } else if a.Insert? {
      assert s.tasks[a.p] in s.tasks;
      InsertIsSafe(s, a.p);
    } else {
      var s' := Next(s, a);
      forall task <- s'.tasks | task.isPut
        ensures task.stage.Waiting?
      {
        var q :| 0 <= q < |s'.tasks| && s'.tasks[q] == task;
        if q < |s.tasks| {
          assert s.tasks[q] in s.tasks;
        }
      }
    }
  }

  lemma {:induction false} SafeRun(s: State, actions: seq<Action>)
    requires Budgets(s) && CanRun(s, actions) && (Safe(s) || NothingInserted(s))
    ensures Safe(Run(s, actions)) || NothingInserted(Run(s, actions))
    ensures Safe(s) ==> Safe(Run(s, actions))
    decreases |actions|
  {
    if actions != [] {
      if Safe(s) {
        SafeKept(s, actions[0]);
      }
      FirstInsertMakesSafe(s, actions[0]);
      BudgetsKept(s, actions[0]);
      SafeRun(Next(s, actions[0]), actions[1..]);
    }
  }

  /** However puts, reads and evictions interleave, whenever no put is running the
      recorded sizes fit the budget, provided they did on the cold start or any put has
      been made since. */
  lemma {:induction false} BudgetHoldsBetweenPuts(table: Table, actions: seq<Action>)
    requires CanRun(Start(table), actions) && NoPutRunning(Run(Start(table), actions))
    requires Total(table) <= CACHE_MAX_BYTES || exists task <- Run(Start(table), actions).tasks :: task.isPut
    ensures Total(Run(Start(table), actions).table) <= CACHE_MAX_BYTES
  {
    var s := Run(Start(table), actions);
    SafeRun(Start(table), actions);
    if p: nat :| Guards(s, p) {
      assert s.tasks[p] in s.tasks;
    }
  }
}
