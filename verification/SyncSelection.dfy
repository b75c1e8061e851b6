/** Which lessons the background sync picks, and why it keeps picking the same ones. */
module SyncSelection {
  import opened LessonTable

  const RECENT_LESSONS_LIMIT: nat := 10

  /** A result of SELECT id … ORDER BY accessedAt DESC LIMIT ?. */
  ghost predicate MostRecent(t: Table, selected: seq<string>, limit: nat) {
    && |selected| == (if |t| < limit then |t| else limit)
    && (forall id <- selected :: id in t)
    && (forall i, j | 0 <= i < j < |selected| ::
          selected[i] != selected[j] && t[selected[i]].accessedAt >= t[selected[j]].accessedAt)
    && (forall id, other | id in selected && other in t && other !in selected ::
          t[id].accessedAt >= t[other].accessedAt)
  }

  /** From `before` to `after` only rows of `touched` were written, none to an earlier
      stamp; any row may have been evicted. */
  ghost predicate OnlyTouched(before: Table, after: Table, touched: set<string>) {
    && after.Keys <= before.Keys
    && (forall id <- after :: if id in touched then after[id].accessedAt >= before[id].accessedAt
                                               else after[id] == before[id])
  }

  lemma {:induction false} IdsCount(ids: seq<string>)
    requires forall i, j | 0 <= i < j < |ids| :: ids[i] != ids[j]
    ensures |(set id <- ids)| == |ids|
  {
    if ids != [] {
      var n := |ids| - 1;
      IdsCount(ids[..n]);
      assert (set id <- ids) == (set id <- ids[..n]) + {ids[n]};
    }
  }

  lemma {:induction false} CandidatesCount(t: Table, candidates: seq<Candidate>)
    requires OldestFirst(t, candidates)
    ensures |candidates| == |t|
  {
    var ids := seq(|candidates|, j requires 0 <= j < |candidates| => candidates[j].id);
    IdsCount(ids);
    assert (set id <- ids) == t.Keys by {
      forall k <- t ensures k in ids {
        var j :| 0 <= j < |candidates| && candidates[j].id == k;
        assert ids[j] == k;
      }
    }
  }

  /** The last candidates of an oldest-first list, read backwards, are a selection. */
  lemma {:induction false} LatestOfCandidates(t: Table, candidates: seq<Candidate>, selected: seq<string>, limit: nat)
    requires OldestFirst(t, candidates)
    requires |selected| == (if |candidates| < limit then |candidates| else limit)
    requires forall j | 0 <= j < |selected| :: selected[j] == candidates[|candidates| - 1 - j].id
    ensures MostRecent(t, selected, limit)
  {
    CandidatesCount(t, candidates);
    forall j | |candidates| - |selected| <= j < |candidates|
      ensures candidates[j].id in selected
    {
      assert selected[|candidates| - 1 - j] == candidates[j].id;
    }
    forall id, other | id in selected && other in t && other !in selected
      ensures t[id].accessedAt >= t[other].accessedAt
    {
      var i :| 0 <= i < |selected| && selected[i] == id;
      var j :| 0 <= j < |candidates| && candidates[j].id == other;
    }
  }

  lemma {:induction false} SubsetSmaller(a: set<string>, b: set<string>)
    requires a < b
    ensures |a| < |b|
  {
    assert |b| == |a| + |b - a|;
    assert b - a != {};
  }

  /** If `u` took a place in a selection that did not grow, someone lost theirs. */
  lemma {:induction false} SomeoneLeft(selected: seq<string>, next: seq<string>, u: string) returns (s: string)
    requires forall i, j | 0 <= i < j < |selected| :: selected[i] != selected[j]
    requires forall i, j | 0 <= i < j < |next| :: next[i] != next[j]
    requires |next| <= |selected| && u in next && u !in selected
    ensures s in selected && s !in next
  {
    var was := set id <- selected;
    var now := set id <- next;
    IdsCount(selected);
    IdsCount(next);
    if was - now == {} {
      assert forall k <- was :: k in was - now || k in now;
      assert u in now;
      SubsetSmaller(was, now);
      s := u;
    } else {
      s :| s in was - now;
    }
  }

  lemma {:induction false} FullSelection(t: Table, selected: seq<string>, limit: nat, u: string)
    requires MostRecent(t, selected, limit) && u in t && u !in selected
    ensures |selected| == limit
  {
    IdsCount(selected);
    SubsetSmaller((set id <- selected), t.Keys);
  }

  /** With distinct stamps, touching any of the selected rows lets no other row into the
      next selection, unless a selected row was evicted. */
  lemma {:induction false} SelectionIsStable(before: Table, after: Table, selected: seq<string>, next: seq<string>, limit: nat)
    requires DistinctStamps(before) && MostRecent(before, selected, limit)
    requires OnlyTouched(before, after, set id <- selected)
    requires forall id <- selected :: id in after
    requires MostRecent(after, next, limit)
    ensures forall id <- next :: id in selected
  {
    forall u <- next
      ensures u in selected
    {
      if u !in selected {
        FullSelection(before, selected, limit, u);
        var s := SomeoneLeft(selected, next, u);
      }
    }
  }
}
