/** The `cached_lessons` table as a value, and what an LRU eviction of it means. */
module LessonTable {
  import opened Lessons

  type Table = map<string, Row>

  /** SUM(sizeBytes) over the table. */
  ghost function Total(t: Table): nat {
    if t == map[] then 0
    else
      var k :| k in t;
      t[k].sizeBytes + Total(t - {k})
  }

  lemma {:induction false} SmallerWithout(t: Table, k: string)
    requires k in t
    ensures |t - {k}| == |t| - 1
  {
    assert (t - {k}).Keys == t.Keys - {k};
  }

  lemma {:induction false} TotalSplit(t: Table, k: string)
    requires k in t
    ensures Total(t) == t[k].sizeBytes + Total(t - {k})
    decreases |t|
  {
    var j :| j in t && Total(t) == t[j].sizeBytes + Total(t - {j});
    if j != k {
      assert |t - {j}| < |t| && |t - {k}| < |t| by {
        SmallerWithout(t, j);
        SmallerWithout(t, k);
      }
      TotalSplit(t - {j}, k);
      TotalSplit(t - {k}, j);
      assert t - {j} - {k} == t - {k} - {j};
    }
  }

  /** `t'` has some of the rows of `t`, sizes unchanged. */
  ghost predicate Shrinks(t: Table, t': Table) {
    t'.Keys <= t.Keys && forall k <- t' :: t'[k].sizeBytes == t[k].sizeBytes
  }

  lemma {:induction false} TotalShrinks(t: Table, t': Table)
    requires Shrinks(t, t')
    ensures Total(t') <= Total(t)
    decreases |t'|
  {
    if t' != map[] {
      var k :| k in t';
      TotalSplit(t', k);
      TotalSplit(t, k);
      SmallerWithout(t', k);
      TotalShrinks(t - {k}, t' - {k});
    }
  }

  // ----- the SQL statements of lessons-cache.ts -----

  /** INSERT … ON CONFLICT(id) DO UPDATE. */
  function Upserted(t: Table, id: string, row: Row): Table { t[id := row] }

  /** UPDATE … SET accessedAt = ? WHERE id = ?. */
  function Bumped(t: Table, id: string, now: int): Table {
    if id in t then t[id := t[id].(accessedAt := now)] else t
  }

  /** DELETE … WHERE expiresAt < ?. */
  function WithoutExpired(t: Table, now: int): Table {
    map k | k in t && t[k].expiresAt >= now :: t[k]
  }

  datatype Candidate = Candidate(id: string, sizeBytes: nat)

  /** A result of SELECT id, sizeBytes … ORDER BY accessedAt ASC; rows with equal
      stamps may come in any order. */
  ghost predicate OldestFirst(t: Table, candidates: seq<Candidate>) {
    && (forall j | 0 <= j < |candidates| ::
          candidates[j].id in t && t[candidates[j].id].sizeBytes == candidates[j].sizeBytes)
    && (forall i, j | 0 <= i < j < |candidates| ::
          candidates[i].id != candidates[j].id
          && t[candidates[i].id].accessedAt <= t[candidates[j].id].accessedAt)
    && (forall k <- t :: exists j :: 0 <= j < |candidates| && candidates[j].id == k)
  }

  /** The rows in `left` are still to be listed, none of them older than a listed one. */
  ghost predicate Unsorted(t: Table, left: Table, candidates: seq<Candidate>) {
    && left.Keys <= t.Keys && (forall k <- left :: left[k] == t[k])
    && (forall j | 0 <= j < |candidates| ::
          && candidates[j].id in t && candidates[j].id !in left
          && t[candidates[j].id].sizeBytes == candidates[j].sizeBytes)
    && (forall i, j | 0 <= i < j < |candidates| ::
          candidates[i].id != candidates[j].id
          && t[candidates[i].id].accessedAt <= t[candidates[j].id].accessedAt)
    && (forall j, k | 0 <= j < |candidates| && k in left ::
          t[candidates[j].id].accessedAt <= t[k].accessedAt)
    && (forall k <- t :: k in left || exists j :: 0 <= j < |candidates| && candidates[j].id == k)
  }

  lemma {:induction false} NextIsListed(t: Table, left: Table, candidates: seq<Candidate>, oldest: string)
    requires Unsorted(t, left, candidates) && oldest in left
    ensures var listed := candidates + [Candidate(oldest, left[oldest].sizeBytes)];
            forall k <- t :: k in left - {oldest} || exists j :: 0 <= j < |listed| && listed[j].id == k
  {
    var listed := candidates + [Candidate(oldest, left[oldest].sizeBytes)];
    forall k <- t | k !in left - {oldest}
      ensures exists j :: 0 <= j < |listed| && listed[j].id == k
    {
      if k == oldest {
        assert listed[|candidates|].id == k;
      } else {
        var j :| 0 <= j < |candidates| && candidates[j].id == k;
        assert listed[j].id == k;
      }
    }
  }

  lemma {:induction false} NextIsInOrder(t: Table, left: Table, candidates: seq<Candidate>, oldest: string)
    requires Unsorted(t, left, candidates) && oldest in left
    ensures var listed := candidates + [Candidate(oldest, left[oldest].sizeBytes)];
            && (forall i, j | 0 <= i < j < |listed| ::
                  listed[i].id != listed[j].id && listed[i].id in t && listed[j].id in t
                  && t[listed[i].id].accessedAt <= t[listed[j].id].accessedAt)
  {
  }

  lemma {:induction false} OldestIsNext(t: Table, left: Table, candidates: seq<Candidate>, oldest: string)
    requires Unsorted(t, left, candidates)
    requires oldest in left && forall k <- left :: left[oldest].accessedAt <= left[k].accessedAt
    ensures Unsorted(t, left - {oldest}, candidates + [Candidate(oldest, left[oldest].sizeBytes)])
  {
    NextIsListed(t, left, candidates, oldest);
    NextIsInOrder(t, left, candidates, oldest);
  }

  // ----- least-recently-used eviction -----

  /** `after` is `before` without its longest-unused rows, as many as the budget forces
      out and no more: keeping the last row that went would exceed it. */
  ghost predicate LruEviction(before: Table, after: Table, budget: int) {
    && after.Keys <= before.Keys && (forall k <- after :: after[k] == before[k])
    && (forall gone, kept | gone in before && gone !in after && kept in after ::
          before[gone].accessedAt <= before[kept].accessedAt)
    && (Total(after) <= budget || after == map[])
    && (after != before ==> exists last :: LastOut(before, after, budget, last))
  }

  /** `last` is the most recently used of the rows that went, and had to go. */
  ghost predicate LastOut(before: Table, after: Table, budget: int, last: string) {
    && last in before && last !in after
    && Total(after) + before[last].sizeBytes > budget
    && (forall gone | gone in before && gone !in after :: before[gone].accessedAt <= before[last].accessedAt)
  }

  ghost predicate DistinctStamps(t: Table) {
    forall j, k | j in t && k in t && j != k :: t[j].accessedAt != t[k].accessedAt
  }

  /** With distinct stamps no two evictions keep different rows. */
  lemma {:induction false} KeepsAsMuch(before: Table, a: Table, b: Table, budget: int)
    requires DistinctStamps(before) && LruEviction(before, a, budget) && LruEviction(before, b, budget)
    ensures b.Keys <= a.Keys
  {
    forall x | x in b
      ensures x in a
    {
      if x !in a {
        var last :| LastOut(before, a, budget, last);
        assert last != x ==> before[x].accessedAt < before[last].accessedAt;
        assert last in b;
        forall y | y in a
          ensures y in b
        {
          assert before[x].accessedAt < before[y].accessedAt;
        }
        TotalSplit(b, last);
        TotalShrinks(b - {last}, a);
      }
    }
  }

  /** With distinct stamps the eviction leaves no choice. */
  lemma {:induction false} LruEvictionIsUnique(before: Table, a: Table, b: Table, budget: int)
    requires DistinctStamps(before) && LruEviction(before, a, budget) && LruEviction(before, b, budget)
    ensures a == b
  {
    KeepsAsMuch(before, a, b, budget);
    KeepsAsMuch(before, b, a, budget);
  }

  /** A row used strictly later than every other survives an eviction exactly when it
      fits the budget by itself. */
  lemma {:induction false} LatestSurvivesIffItFits(before: Table, after: Table, budget: int, id: string)
    requires LruEviction(before, after, budget) && id in before
    requires forall k <- before | k != id :: before[k].accessedAt < before[id].accessedAt
    ensures id in after <==> before[id].sizeBytes <= budget
  {
    if id in after {
      TotalSplit(after, id);
    } else {
      assert after == map[];
      var last :| LastOut(before, after, budget, last);
      assert last == id;
    }
  }

  /** A table within the budget is left alone. */
  lemma {:induction false} NothingGoes(before: Table, after: Table, budget: int)
    requires LruEviction(before, after, budget) && Total(before) <= budget
    ensures after == before
  {
    if after != before {
      var last :| LastOut(before, after, budget, last);
      TotalSplit(before, last);
      TotalShrinks(before - {last}, after);
    }
  }

  /** So rows go only from a table over the budget. */
  lemma {:induction false} OversizeIfGone(before: Table, after: Table, budget: int, gone: string)
    requires LruEviction(before, after, budget) && gone in before && gone !in after
    ensures Total(before) > budget
  {
    if Total(before) <= budget {
      NothingGoes(before, after, budget);
    }
  }

  /** A row that has just been read outlasts every other: an eviction takes it only if it
      does not fit the budget by itself. */
  lemma {:induction false} ReadOutlasts(t: Table, after: Table, budget: int, id: string, now: int)
    requires id in t && forall k <- t | k != id :: t[k].accessedAt < now
    requires LruEviction(Bumped(t, id, now), after, budget)
    ensures id in after <==> t[id].sizeBytes <= budget
    ensures id in after ==> after[id] == t[id].(accessedAt := now)
  {
    LatestSurvivesIffItFits(Bumped(t, id, now), after, budget, id);
  }

  /** One row changes at most, and only in its stamp. */
  lemma {:induction false} BumpedIs(t: Table, id: string, now: int)
    ensures Bumped(t, id, now).Keys == t.Keys
    ensures forall k <- t :: Bumped(t, id, now)[k] == if k == id then t[k].(accessedAt := now) else t[k]
  {
  }
}
