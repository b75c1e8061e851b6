/**
 The cache in its own form is one of the machine's runs: a put or a read left to itself
 takes the table where `LessonCaches` says it does.
 */
module CacheSolo {
  import opened Lessons
  import opened LessonTable
  import opened CacheMachine
  import opened LessonCaches

  ghost predicate LeadsTo(s: State, s': State) {
    exists actions :: CanRun(s, actions) && Run(s, actions) == s'
  }

  lemma {:induction false} Stays(s: State)
    ensures LeadsTo(s, s)
  {
    assert CanRun(s, []) && Run(s, []) == s;
  }

  lemma {:induction false} First(s: State, a: Action, s': State)
    requires Enabled(s, a) && LeadsTo(Next(s, a), s')
    ensures LeadsTo(s, s')
  {
    var rest :| CanRun(Next(s, a), rest) && Run(Next(s, a), rest) == s';
    var actions := [a] + rest;
    assert actions[0] == a && actions[1..] == rest;
    assert CanRun(s, actions) && Run(s, actions) == s';
  }

  /** Task `p` is over and no other has moved. */
  predicate Done(s: State, s': State, p: nat) {
    p < |s.tasks| == |s'.tasks| && s'.tasks[p].stage.Finished?
    && forall q | 0 <= q < |s.tasks| && q != p :: s'.tasks[q] == s.tasks[q]
  }

  /** The deletion loop left to itself. */
  lemma {:induction false} DeletesAlone(s: State, p: nat, before: Table, candidates: seq<Candidate>, next: nat, total: int, budget: int)
      returns (s': State, removed: nat, left: int)
    requires p < |s.tasks| && s.tasks[p].budget == budget
    requires s.tasks[p].stage == LoopStage(total, candidates, next, budget)
    requires LessonCache.Names(before, candidates) && LessonCache.Evicting(before, s.table, candidates, next, total, budget)
    ensures LeadsTo(s, s') && Done(s, s', p)
    ensures LessonCache.Evicting(before, s'.table, candidates, removed, left, budget)
    ensures left <= budget || removed == |candidates|
    decreases |candidates| - next
  {
    if next < |candidates| && total > budget {
      LessonCache.NextGoes(before, s.table, candidates, next, total, budget);
      var s1 := Next(s, DeleteNext(p));
      s', removed, left := DeletesAlone(s1, p, before, candidates, next + 1, total - candidates[next].sizeBytes, budget);
      First(s, DeleteNext(p), s');
    } else {
      s', removed, left := s, next, total;
      Stays(s);
    }
  }

  /** An eviction left to itself is an LRU eviction, whatever order the candidates of
      equal stamps come in. */
  lemma {:induction false} EvictionAlone(s: State, p: nat, candidates: seq<Candidate>) returns (s': State)
    requires p < |s.tasks| && s.tasks[p].stage.Measuring? && OldestFirst(s.table, candidates)
    ensures LeadsTo(s, s') && Done(s, s', p)
    ensures LruEviction(s.table, s'.table, s.tasks[p].budget)
  {
    var t, budget := s.table, s.tasks[p].budget;
    var s1 := Next(s, Sum(p));
    if Total(t) <= budget {
      s' := s1;
      Stays(s1);
    } else {
      var s2 := Next(s1, Select(p, candidates));
      var removed, left;
      s', removed, left := DeletesAlone(s2, p, t, candidates, 0, Total(t), budget);
      LessonCache.EvictionEnds(t, s'.table, candidates, removed, left, budget);
      First(s1, Select(p, candidates), s');
    }
    First(s, Sum(p), s');
  }

  /** A put left to itself leaves the table of `AfterPut`. */
  lemma {:induction false} PutAlone(s: State, write: Write, expiryNow: int, candidates: seq<Candidate>) returns (s': State)
    requires OldestFirst(WithoutExpired(Upserted(s.table, write.lesson.id, write.Row()), expiryNow), candidates)
    ensures LeadsTo(s, s') && Done(Next(s, Fetch(write)), s', |s.tasks|)
    ensures AfterPut(s.table, s'.table, write.lesson.id, write.Row(), expiryNow)
    ensures PutLeaves(s.table, s'.table, write.lesson.id, write.Row(), expiryNow)
  {
    var p := |s.tasks|;
    var s1 := Next(s, Fetch(write));
    var s2 := Next(s1, Insert(p));
    var s3 := Next(s2, DeleteExpired(p, expiryNow));
    s' := EvictionAlone(s3, p, candidates);
    First(s2, DeleteExpired(p, expiryNow), s');
    First(s1, Insert(p), s');
    First(s, Fetch(write), s');
    AfterPutLeaves(s.table, s'.table, write.lesson.id, write.Row(), expiryNow);
  }

  /** A read left to itself gives its row the stamp of the read and changes nothing
      else. */
  lemma {:induction false} ReadAlone(s: State, id: string, now: int) returns (s': State)
    ensures LeadsTo(s, s') && s'.table.Keys == s.table.Keys
    ensures forall k <- s.table :: s'.table[k] == if k == id then s.table[k].(accessedAt := now) else s.table[k]
    ensures id in s.table ==> Done(Next(s, Read(id, now)), s', |s.tasks|)
    ensures id !in s.table ==> s' == s
  {
    var s1 := Next(s, Read(id, now));
    if id in s.table {
      s' := Next(s1, Bump(|s.tasks|));
      Stays(s');
      First(s1, Bump(|s.tasks|), s');
    } else {
      s' := s1;
      Stays(s1);
    }
    First(s, Read(id, now), s');
  }
}
