/**
 The offline lesson cache as it is written: a table updated in place by puts, reads
 and evictions, and the write-through service and background sync on top of it.
 */
module LessonCaches {
  import opened Wrappers
  import opened Lessons
  import opened LessonTable
  import opened SyncSelection

  datatype NetworkReply = Fresh(lesson: Lesson) | Failed(error: string)

  datatype FetchResult = Shown(lesson: Lesson, fromCache: bool, isStale: bool) | Thrown(error: string)

  /** Lengths of the two JSON texts of a lesson. */
  datatype Lengths = Lengths(content: nat, manifest: nat)

  /** A notification call of the sync: its count, or the error it raised. */
  datatype CallResult = Count(count: nat) | Raised(message: string)

  datatype SyncResult = SyncResult(
    ok: bool,
    unreadCount: Option<nat>,
    notificationsFetched: Option<nat>,
    lessonsRefreshed: Option<nat>,
    errors: seq<string>)

  /** What a put leaves of the table, up to the order of equal stamps. */
  ghost predicate AfterPut(before: Table, after: Table, id: string, row: Row, expiryNow: int) {
    LruEviction(WithoutExpired(Upserted(before, id, row), expiryNow), after, CACHE_MAX_BYTES)
  }

  /** The rows of other lessons that have not expired. */
  ghost function Others(t: Table, id: string, expiryNow: int): Table {
    map k | k in t && k != id && t[k].expiresAt >= expiryNow :: t[k]
  }

  /** What a put leaves, row by row: every row it keeps is the new one or as before, and
      unexpired; an unexpired row it does not keep had to make room, and was used no later
      than any that is kept. */
  ghost predicate PutLeaves(before: Table, after: Table, id: string, row: Row, expiryNow: int) {
    && after.Keys <= before.Keys + {id}
    && (forall k <- after :: after[k] == (if k == id then row else before[k]) && after[k].expiresAt >= expiryNow)
    && (forall k | (k in before || k == id) && k !in after ::
          var gone := if k == id then row else before[k];
          gone.expiresAt >= expiryNow ==>
            && Total(Others(before, id, expiryNow)) + (if row.expiresAt >= expiryNow then row.sizeBytes else 0) > CACHE_MAX_BYTES
            && forall kept <- after :: gone.accessedAt <= after[kept].accessedAt)
  }

  lemma {:induction false} OfferedTotal(before: Table, id: string, row: Row, expiryNow: int)
    ensures Total(WithoutExpired(Upserted(before, id, row), expiryNow)) ==
            Total(Others(before, id, expiryNow)) + (if row.expiresAt >= expiryNow then row.sizeBytes else 0)
  {
    var offered := WithoutExpired(Upserted(before, id, row), expiryNow);
    if row.expiresAt >= expiryNow {
      TotalSplit(offered, id);
      assert offered - {id} == Others(before, id, expiryNow);
    } else {
      assert offered == Others(before, id, expiryNow);
    }
  }

  lemma {:induction false} AfterPutLeaves(before: Table, after: Table, id: string, row: Row, expiryNow: int)
    requires AfterPut(before, after, id, row, expiryNow)
    ensures PutLeaves(before, after, id, row, expiryNow)
  {
    var offered := WithoutExpired(Upserted(before, id, row), expiryNow);
    OfferedTotal(before, id, row, expiryNow);
    forall k | (k in before || k == id) && k !in after && (if k == id then row else before[k]).expiresAt >= expiryNow
      ensures Total(offered) > CACHE_MAX_BYTES
      ensures forall kept <- after :: (if k == id then row else before[k]).accessedAt <= after[kept].accessedAt
    {
      assert k in offered;
      OversizeIfGone(offered, after, CACHE_MAX_BYTES, k);
    }
  }

  lemma {:induction false} OthersAreFewer(before: Table, id: string, expiryNow: int)
    ensures Total(Others(before, id, expiryNow)) <= Total(before - {id})
  {
    TotalShrinks(before - {id}, Others(before, id, expiryNow));
  }

  /** A put that fits beside the other rows removes no unexpired one. */
  lemma {:induction false} PutKeepsOthers(before: Table, after: Table, id: string, row: Row, expiryNow: int, k: string)
    requires PutLeaves(before, after, id, row, expiryNow)
    requires Total(before - {id}) + row.sizeBytes <= CACHE_MAX_BYTES
    requires k in before && k != id && before[k].expiresAt >= expiryNow
    ensures k in after && after[k] == before[k]
  {
    OthersAreFewer(before, id, expiryNow);
  }

  /** A lesson put with the latest stamp is in the cache afterwards exactly when it has
      not expired meanwhile and fits the budget by itself. */
  lemma {:induction false} PutSurvivesIff(before: Table, after: Table, id: string, row: Row, expiryNow: int)
    requires AfterPut(before, after, id, row, expiryNow)
    requires forall k <- before | k != id :: before[k].accessedAt < row.accessedAt
    ensures id in after <==> row.expiresAt >= expiryNow && row.sizeBytes <= CACHE_MAX_BYTES
    ensures id in after ==> after[id] == row
  {
    var kept := WithoutExpired(Upserted(before, id, row), expiryNow);
    if id in kept {
      LatestSurvivesIffItFits(kept, after, CACHE_MAX_BYTES, id);
    }
  }

  /** A put for a touched id, stamped no earlier than the row it started from. */
  lemma {:induction false} PutOnlyTouches(before: Table, mid: Table, after: Table, touched: set<string>, id: string, row: Row, expiryNow: int)
    requires OnlyTouched(before, mid, touched) && AfterPut(mid, after, id, row, expiryNow)
    requires id in touched && id in before && before[id].accessedAt <= row.accessedAt
    ensures OnlyTouched(before, after, touched)
  {
  }

  lemma {:induction false} PutFits(before: Table, after: Table, id: string, row: Row, expiryNow: int)
    requires AfterPut(before, after, id, row, expiryNow)
    ensures Total(after) <= CACHE_MAX_BYTES
  {
  }

  /** The network answers for the lesson it was asked for, and the clock is not behind. */
  ghost predicate Orderly(t: Table, ids: seq<string>, network: string -> NetworkReply, now: int) {
    && (forall id <- ids | network(id).Fresh? :: network(id).lesson.id == id)
    && (forall k <- t :: t[k].accessedAt <= now)
  }

  /** The lessons fetched so far after the given ones have been fetched again. */
  ghost function Refetched(fetched: map<string, Lesson>, ids: seq<string>, network: string -> NetworkReply):
      map<string, Lesson>
  {
    if ids == [] then fetched
    else
      var n := |ids| - 1;
      var sofar := Refetched(fetched, ids[..n], network);
      var reply := network(ids[n]);
      if reply.Fresh? then sofar[reply.lesson.id := reply.lesson] else sofar
  }

  lemma {:induction false} RefetchedOneMore(fetched: map<string, Lesson>, ids: seq<string>, network: string -> NetworkReply, i: nat)
    requires i < |ids|
    ensures var sofar := Refetched(fetched, ids[..i], network);
            var reply := network(ids[i]);
            Refetched(fetched, ids[..i + 1], network)
            == if reply.Fresh? then sofar[reply.lesson.id := reply.lesson] else sofar
  {
    assert ids[..i + 1][..i] == ids[..i];
  }

  /** The row a refresh writes for `id`. */
  function RefreshRow(id: string, network: string -> NetworkReply, lengths: string -> Lengths, now: int): Row
    requires network(id).Fresh?
  {
    WriteThroughRow(network(id).lesson, lengths(id).content, lengths(id).manifest, now)
  }

  /** The table with the rows of the given lessons refreshed and nothing evicted. */
  ghost function Stage(t: Table, ids: seq<string>, network: string -> NetworkReply, lengths: string -> Lengths, now: int): Table {
    map k | k in t :: if k in ids && network(k).Fresh? then RefreshRow(k, network, lengths, now) else t[k]
  }

  /** No refresh finds a reason to evict: nothing has expired and every stage fits. */
  ghost predicate Roomy(t: Table, ids: seq<string>, network: string -> NetworkReply, lengths: string -> Lengths, now: int, expiryNow: int) {
    && (forall k <- t :: t[k].expiresAt >= expiryNow) && now + CACHE_DEFAULT_TTL_MS >= expiryNow
    && (forall i | 0 <= i <= |ids| :: Total(Stage(t, ids[..i], network, lengths, now)) <= CACHE_MAX_BYTES)
  }

  lemma {:induction false} StageOneMore(t: Table, ids: seq<string>, network: string -> NetworkReply, lengths: string -> Lengths,
                                        now: int, i: nat)
    requires i < |ids| && ids[i] in t
    ensures var mid := Stage(t, ids[..i], network, lengths, now);
            Stage(t, ids[..i + 1], network, lengths, now)
            == if network(ids[i]).Fresh? then mid[ids[i] := RefreshRow(ids[i], network, lengths, now)] else mid
  {
    assert forall k :: k in ids[..i + 1] <==> k in ids[..i] || k == ids[i];
  }

  lemma {:induction false} NoneExpires(t: Table, ids: seq<string>, network: string -> NetworkReply, lengths: string -> Lengths,
                                       now: int, expiryNow: int)
    requires forall k <- t :: t[k].expiresAt >= expiryNow
    requires now + CACHE_DEFAULT_TTL_MS >= expiryNow
    ensures WithoutExpired(Stage(t, ids, network, lengths, now), expiryNow) == Stage(t, ids, network, lengths, now)
  {
  }

  lemma {:induction false} StageStep(t: Table, ids: seq<string>, network: string -> NetworkReply, lengths: string -> Lengths,
                                     now: int, expiryNow: int, i: nat, after: Table)
    requires Roomy(t, ids, network, lengths, now, expiryNow) && i < |ids| && ids[i] in t
    requires var mid := Stage(t, ids[..i], network, lengths, now);
             if network(ids[i]).Fresh? then AfterPut(mid, after, ids[i], RefreshRow(ids[i], network, lengths, now), expiryNow)
             else after == mid
    ensures after == Stage(t, ids[..i + 1], network, lengths, now)
  {
    StageOneMore(t, ids, network, lengths, now, i);
    if network(ids[i]).Fresh? {
      var next := Stage(t, ids[..i + 1], network, lengths, now);
      NoneExpires(t, ids[..i + 1], network, lengths, now, expiryNow);
      NothingGoes(next, after, CACHE_MAX_BYTES);
    }
  }

  /** The sync after `i` of its prefetches. */
  ghost predicate Refreshing(before: Table, t: Table, ids: seq<string>, i: nat, network: string -> NetworkReply,
                             lengths: string -> Lengths, now: int, expiryNow: int)
  {
    && i <= |ids| && (forall id <- ids :: id in before)
    && (Total(before) <= CACHE_MAX_BYTES ==> Total(t) <= CACHE_MAX_BYTES)
    && (Orderly(before, ids, network, now) ==>
          && OnlyTouched(before, t, set id <- ids)
          && (Roomy(before, ids, network, lengths, now, expiryNow) ==> t == Stage(before, ids[..i], network, lengths, now)))
  }

  lemma {:induction false} NothingRefreshed(t: Table, ids: seq<string>, network: string -> NetworkReply, lengths: string -> Lengths,
                                            now: int, expiryNow: int)
    requires forall id <- ids :: id in t
    ensures Refreshing(t, t, ids, 0, network, lengths, now, expiryNow)
  {
    assert ids[..0] == [];
    assert Stage(t, [], network, lengths, now) == t;
  }

  lemma {:induction false} RefreshStep(before: Table, mid: Table, after: Table, ids: seq<string>, i: nat,
                                       network: string -> NetworkReply, lengths: string -> Lengths, now: int, expiryNow: int)
    requires Refreshing(before, mid, ids, i, network, lengths, now, expiryNow) && i < |ids|
    requires var reply := network(ids[i]);
             if reply.Fresh? then AfterPut(mid, after, reply.lesson.id, RefreshRow(ids[i], network, lengths, now), expiryNow)
             else after == mid
    ensures Refreshing(before, after, ids, i + 1, network, lengths, now, expiryNow)
  {
    var reply := network(ids[i]);
    assert ids[i] in ids;
    if reply.Fresh? {
      var row := RefreshRow(ids[i], network, lengths, now);
      PutFits(mid, after, reply.lesson.id, row, expiryNow);
      if Orderly(before, ids, network, now) {
        PutOnlyTouches(before, mid, after, (set id <- ids), ids[i], row, expiryNow);
      }
    }
    if Orderly(before, ids, network, now) && Roomy(before, ids, network, lengths, now, expiryNow) {
      StageStep(before, ids, network, lengths, now, expiryNow, i, after);
    }
  }

  /** The sizes of the rows the refreshes write. */
  ghost function NewBytes(ids: seq<string>, network: string -> NetworkReply, lengths: string -> Lengths, now: int): nat {
    if ids == [] then 0
    else
      var n := |ids| - 1;
      NewBytes(ids[..n], network, lengths, now)
      + (if network(ids[n]).Fresh? then RefreshRow(ids[n], network, lengths, now).sizeBytes else 0)
  }

  lemma {:induction false} TotalOfChange(t: Table, k: string, row: Row)
    requires k in t
    ensures Total(t[k := row]) <= Total(t) + row.sizeBytes
  {
    TotalSplit(t[k := row], k);
    TotalSplit(t, k);
    assert t[k := row] - {k} == t - {k};
  }

  lemma {:induction false} StageFits(t: Table, ids: seq<string>, network: string -> NetworkReply, lengths: string -> Lengths, now: int)
    requires forall id <- ids :: id in t
    ensures Total(Stage(t, ids, network, lengths, now)) <= Total(t) + NewBytes(ids, network, lengths, now)
    decreases |ids|
  {
    if ids == [] {
      assert Stage(t, ids, network, lengths, now) == t;
    } else {
      var n := |ids| - 1;
      var mid := Stage(t, ids[..n], network, lengths, now);
      StageFits(t, ids[..n], network, lengths, now);
      assert forall k :: k in ids <==> k in ids[..n] || k == ids[n];
      if network(ids[n]).Fresh? {
        assert Stage(t, ids, network, lengths, now) == mid[ids[n] := RefreshRow(ids[n], network, lengths, now)];
        TotalOfChange(mid, ids[n], RefreshRow(ids[n], network, lengths, now));
      } else {
        assert Stage(t, ids, network, lengths, now) == mid;
      }
    }
  }

  lemma {:induction false} NewBytesGrow(ids: seq<string>, network: string -> NetworkReply, lengths: string -> Lengths, now: int, i: nat)
    requires i <= |ids|
    ensures NewBytes(ids[..i], network, lengths, now) <= NewBytes(ids, network, lengths, now)
    decreases |ids|
  {
    if i == |ids| {
      assert ids[..i] == ids;
    } else {
      NewBytesGrow(ids[..|ids| - 1], network, lengths, now, i);
      assert ids[..|ids| - 1][..i] == ids[..i];
    }
  }

  /** There is room if the old rows and the new ones fit together. */
  lemma {:induction false} RoomyIfAllFit(t: Table, ids: seq<string>, network: string -> NetworkReply, lengths: string -> Lengths,
                                         now: int, expiryNow: int)
    requires forall id <- ids :: id in t
    requires forall k <- t :: t[k].expiresAt >= expiryNow
    requires now + CACHE_DEFAULT_TTL_MS >= expiryNow
    requires Total(t) + NewBytes(ids, network, lengths, now) <= CACHE_MAX_BYTES
    ensures Roomy(t, ids, network, lengths, now, expiryNow)
  {
    forall i | 0 <= i <= |ids|
      ensures Total(Stage(t, ids[..i], network, lengths, now)) <= CACHE_MAX_BYTES
    {
      StageFits(t, ids[..i], network, lengths, now);
      NewBytesGrow(ids, network, lengths, now, i);
    }
  }

  /** After a refresh with room: every selected lesson is there, as fetched and just
      used, or as it was if its fetch failed; every other row is as it was. */
  ghost predicate AllRefreshed(before: Table, after: Table, selected: seq<string>, network: string -> NetworkReply, now: int) {
    && after.Keys == before.Keys
    && (forall id <- selected :: id in after
          && if network(id).Fresh?
             then CachedToLesson(id, after[id]) == network(id).lesson && after[id].cachedAt == after[id].accessedAt == now
             else after[id] == before[id])
    && (forall k <- after | k !in selected :: after[k] == before[k])
  }

  lemma {:induction false} StageIsRefreshed(t: Table, ids: seq<string>, network: string -> NetworkReply, lengths: string -> Lengths, now: int)
    requires Orderly(t, ids, network, now) && forall id <- ids :: id in t
    ensures AllRefreshed(t, Stage(t, ids, network, lengths, now), ids, network, now)
  {
    forall id <- ids | network(id).Fresh?
      ensures CachedToLesson(id, RefreshRow(id, network, lengths, now)) == network(id).lesson
    {
      WriteThroughRoundTrip(network(id).lesson, lengths(id).content, lengths(id).manifest, now, now);
    }
  }

  lemma {:induction false} RefreshEnds(before: Table, after: Table, ids: seq<string>, network: string -> NetworkReply,
                                       lengths: string -> Lengths, now: int, expiryNow: int)
    requires Refreshing(before, after, ids, |ids|, network, lengths, now, expiryNow)
    ensures Orderly(before, ids, network, now) && Roomy(before, ids, network, lengths, now, expiryNow)
            ==> AllRefreshed(before, after, ids, network, now)
  {
    if Orderly(before, ids, network, now) {
      assert ids[..|ids|] == ids;
      StageIsRefreshed(before, ids, network, lengths, now);
    }
  }

  class LessonCache {
    var rows: Table
    ghost var fetched: map<string, Lesson>  // the last lesson written through for each id

    constructor ()
      ensures rows == map[] && Agrees()
    {
      rows := map[];
      fetched := map[];
    }

    /** Every row is shown as the last lesson fetched for its id. */
    ghost predicate Agrees()
      reads this
    {
      forall id <- rows :: id in fetched && CachedToLesson(id, rows[id]) == fetched[id]
    }

    // ----- SQL -----

    method SumSizes() returns (total: nat)
      ensures total == Total(rows)
    {
      var left := rows;
      total := 0;
      while left != map[]
        invariant total + Total(left) == Total(rows)
        decreases |left|
      {
        var k :| k in left;
        TotalSplit(left, k);
        SmallerWithout(left, k);
        total := total + left[k].sizeBytes;
        left := left - {k};
      }
    }

    method SelectOldestFirst() returns (candidates: seq<Candidate>)
      ensures OldestFirst(rows, candidates)
    {
      var left := rows;
      candidates := [];
      while left != map[]
        invariant Unsorted(rows, left, candidates)
        decreases |left|
      {
        var k := Oldest(left);
        SmallerWithout(left, k);
        OldestIsNext(rows, left, candidates, k);
        candidates := candidates + [Candidate(k, left[k].sizeBytes)];
        left := left - {k};
      }
    }

    static method Oldest(t: Table) returns (oldest: string)
      requires t != map[]
      ensures oldest in t && forall k <- t :: t[oldest].accessedAt <= t[k].accessedAt
    {
      oldest :| oldest in t;
      var left := t - {oldest};
      while left != map[]
        invariant left.Keys <= t.Keys && oldest in t
        invariant forall k <- t | k !in left :: t[oldest].accessedAt <= t[k].accessedAt
        decreases |left|
      {
        var k :| k in left;
        SmallerWithout(left, k);
        if t[k].accessedAt < t[oldest].accessedAt {
          oldest := k;
        }
        left := left - {k};
      }
    }

    // ----- lessons-cache.ts -----

    /** The row as it was before the read, and the read's stamp on it afterwards: no
        row comes or goes. */
    method GetCachedLesson(id: string, now: int) returns (row: Option<Row>)
      modifies this
      ensures row == if id in old(rows) then Some(old(rows)[id]) else None
      ensures rows == Bumped(old(rows), id, now) && rows.Keys == old(rows).Keys
      ensures forall k <- rows :: rows[k] == if k == id then old(rows)[k].(accessedAt := now) else old(rows)[k]
      ensures fetched == old(fetched) && (old(Agrees()) ==> Agrees())
    {
      if id !in rows {
        return None;
      }
      row := Some(rows[id]);
      rows := rows[id := rows[id].(accessedAt := now)];
    }

    method EvictExpiredLessons(now: int) returns (changes: nat)
      modifies this`rows
      ensures rows == WithoutExpired(old(rows), now)
      ensures forall k :: k in rows <==> k in old(rows) && old(rows)[k].expiresAt >= now
      ensures forall k <- rows :: rows[k] == old(rows)[k]
      ensures changes == |old(rows)| - |rows|
    {
      var kept := map k | k in rows && rows[k].expiresAt >= now :: rows[k];
      assert kept.Keys <= rows.Keys;
      assert |rows.Keys| == |kept.Keys| + |rows.Keys - kept.Keys|;
      changes := |rows| - |kept|;
      rows := kept;
    }

    /** Candidates name different rows, with their sizes. */
    static predicate Names(t: Table, candidates: seq<Candidate>) {
      && (forall j | 0 <= j < |candidates| ::
            candidates[j].id in t && t[candidates[j].id].sizeBytes == candidates[j].sizeBytes)
      && (forall i, j | 0 <= i < j < |candidates| :: candidates[i].id != candidates[j].id)
    }

    /** The first `removed` candidates are gone, the last of them because the budget was
        exceeded; everything else is as before, and `total` is the size of it. */
    static ghost predicate Evicting(before: Table, now: Table, candidates: seq<Candidate>, removed: nat, total: int, budget: int) {
      && removed <= |candidates| && |now| == |before| - removed && total == Total(now)
      && now.Keys <= before.Keys && (forall k <- now :: now[k] == before[k])
      && (forall j | 0 <= j < |candidates| :: candidates[j].id in now <==> removed <= j)
      && (if removed == 0 then now == before else total + candidates[removed - 1].sizeBytes > budget)
    }

    static lemma {:induction false} NothingToEvict(t: Table, budget: int)
      requires Total(t) <= budget
      ensures LruEviction(t, t, budget)
    {
    }

    static lemma {:induction false} LastOneWent(before: Table, after: Table, candidates: seq<Candidate>, removed: nat, budget: int)
      requires OldestFirst(before, candidates) && 0 < removed <= |candidates|
      requires forall j | 0 <= j < |candidates| :: candidates[j].id in after <==> removed <= j
      requires Total(after) + candidates[removed - 1].sizeBytes > budget
      ensures LastOut(before, after, budget, candidates[removed - 1].id)
    {
      var last := candidates[removed - 1].id;
      forall gone | gone in before && gone !in after
        ensures before[gone].accessedAt <= before[last].accessedAt
      {
        var j :| 0 <= j < |candidates| && candidates[j].id == gone;
      }
    }

    static lemma {:induction false} OldestWent(before: Table, after: Table, candidates: seq<Candidate>, removed: nat)
      requires OldestFirst(before, candidates) && removed <= |candidates| && after.Keys <= before.Keys
      requires forall j | 0 <= j < |candidates| :: candidates[j].id in after <==> removed <= j
      ensures forall gone, kept | gone in before && gone !in after && kept in after ::
                before[gone].accessedAt <= before[kept].accessedAt
    {
      forall gone, kept | gone in before && gone !in after && kept in after
        ensures before[gone].accessedAt <= before[kept].accessedAt
      {
        var i :| 0 <= i < |candidates| && candidates[i].id == gone;
        var j :| 0 <= j < |candidates| && candidates[j].id == kept;
      }
    }

    static lemma {:induction false} EvictionEnds(before: Table, after: Table, candidates: seq<Candidate>, removed: nat, total: int, budget: int)
      requires OldestFirst(before, candidates) && Evicting(before, after, candidates, removed, total, budget)
      requires total <= budget || removed == |candidates|
      ensures LruEviction(before, after, budget)
    {
      if removed > 0 {
        LastOneWent(before, after, candidates, removed, budget);
        OldestWent(before, after, candidates, removed);
      }
      if removed == |candidates| {
        assert after == map[];
      }
    }

    static lemma {:induction false} NextGoes(before: Table, now: Table, candidates: seq<Candidate>, removed: nat, total: int, budget: int)
      requires Evicting(before, now, candidates, removed, total, budget) && removed < |candidates| && total > budget
      requires Names(before, candidates)
      ensures Evicting(before, now - {candidates[removed].id}, candidates, removed + 1,
                       total - candidates[removed].sizeBytes, budget)
    {
      TotalSplit(now, candidates[removed].id);
      SmallerWithout(now, candidates[removed].id);
    }

    /** The deletion loop.  The running total is the true sum at every deletion, so the
        reported size is exact and its clamp at 0 never bites. */
    method DeleteWhileOversize(candidates: seq<Candidate>, sum: int, maxBytes: int) returns (removed: nat, bytesAfter: int)
      requires Names(rows, candidates) && sum == Total(rows)
      modifies this`rows
      ensures Evicting(old(rows), rows, candidates, removed, bytesAfter, maxBytes)
      ensures bytesAfter <= maxBytes || removed == |candidates|
    {
      var total := sum;
      removed := 0;
      while removed < |candidates| && total > maxBytes
        invariant Evicting(old(rows), rows, candidates, removed, total, maxBytes)
      {
        var row := candidates[removed];
        NextGoes(old(rows), rows, candidates, removed, total, maxBytes);
        rows := rows - {row.id};
        total := total - row.sizeBytes;
        removed := removed + 1;
      }
      bytesAfter := if total > 0 then total else 0;
    }

    method EvictByLruIfOversize(maxBytes: int) returns (removed: nat, bytesAfter: int)
      modifies this`rows
      ensures LruEviction(old(rows), rows, maxBytes)
      ensures bytesAfter == Total(rows)
      ensures removed == |old(rows)| - |rows|
    {
      var total := SumSizes();
      if total <= maxBytes {
        NothingToEvict(rows, maxBytes);
        return 0, total;
      }
      var candidates := SelectOldestFirst();
      removed, bytesAfter := DeleteWhileOversize(candidates, total, maxBytes);
      EvictionEnds(old(rows), rows, candidates, removed, bytesAfter, maxBytes);
    }

    method PutCachedLesson(id: string, courseId: string, title: string, content: JsonText<Option<Content>>,
                           manifest: Option<JsonText<seq<Attachment>>>, ttlMs: Option<int>, now: int, expiryNow: int)
      modifies this`rows
      ensures AfterPut(old(rows), rows, id,
                NewRow(courseId, title, content, manifest, now, GetOr(ttlMs, CACHE_DEFAULT_TTL_MS)), expiryNow)
      ensures PutLeaves(old(rows), rows, id,
                NewRow(courseId, title, content, manifest, now, GetOr(ttlMs, CACHE_DEFAULT_TTL_MS)), expiryNow)
      ensures Total(rows) <= CACHE_MAX_BYTES
    {
      ghost var row := NewRow(courseId, title, content, manifest, now, GetOr(ttlMs, CACHE_DEFAULT_TTL_MS));
      rows := Upserted(rows, id, NewRow(courseId, title, content, manifest, now, GetOr(ttlMs, CACHE_DEFAULT_TTL_MS)));
      var changes := EvictExpiredLessons(expiryNow);
      var removed, bytesAfter := EvictByLruIfOversize(CACHE_MAX_BYTES);
      AfterPutLeaves(old(rows), rows, id, row, expiryNow);
    }

    // ----- services/lessons.ts -----

    method WriteThrough(lesson: Lesson, lengths: Lengths, now: int, expiryNow: int)
      modifies this
      ensures AfterPut(old(rows), rows, lesson.id,
                WriteThroughRow(lesson, lengths.content, lengths.manifest, now), expiryNow)
      ensures PutLeaves(old(rows), rows, lesson.id,
                WriteThroughRow(lesson, lengths.content, lengths.manifest, now), expiryNow)
      ensures Total(rows) <= CACHE_MAX_BYTES
      ensures fetched == old(fetched)[lesson.id := lesson] && (old(Agrees()) ==> Agrees())
    {
      fetched := fetched[lesson.id := lesson];
      WriteThroughRoundTrip(lesson, lengths.content, lengths.manifest, now, now);
      var manifest := if |lesson.attachments| > 0 then Some(JsonText(lesson.attachments, lengths.manifest)) else None;
      PutCachedLesson(lesson.id, lesson.groupId, lesson.title, JsonText(Some(LessonToContent(lesson)), lengths.content),
                      manifest, None, now, expiryNow);
    }

    /** Online, the fresh lesson; offline, the last lesson fetched for the id if its row
        is still there, stale exactly when TTL eviction at that instant would delete it;
        otherwise the network's error. */
    method FetchLesson(id: string, network: NetworkReply, lengths: Lengths, now: int, expiryNow: int)
      returns (result: FetchResult)
      requires Agrees()
      modifies this
      ensures Agrees()
      ensures network.Fresh? ==> result == Shown(network.lesson, false, false)
                                 && fetched == old(fetched)[network.lesson.id := network.lesson]
                                 && Total(rows) <= CACHE_MAX_BYTES
      ensures network.Fresh? ==>
                PutLeaves(old(rows), rows, network.lesson.id,
                  WriteThroughRow(network.lesson, lengths.content, lengths.manifest, now), expiryNow)
      ensures network.Failed? && id in old(rows) ==>
                && id in old(fetched)
                && result == Shown(old(fetched)[id], true, id !in WithoutExpired(old(rows), expiryNow))
      ensures network.Failed? && id !in old(rows) ==> result == Thrown(network.error)
      ensures network.Failed? ==>
                && fetched == old(fetched) && rows.Keys == old(rows).Keys
                && forall k <- rows :: rows[k] == if k == id then old(rows)[k].(accessedAt := now) else old(rows)[k]
    {
      match network {
        case Fresh(lesson) =>
          WriteThrough(lesson, lengths, now, expiryNow);
          return Shown(lesson, false, false);
        case Failed(error) =>
          var cached := GetCachedLesson(id, now);
          if cached.Some? {
            return Shown(CachedToLesson(id, cached.value), true, cached.value.expiresAt < expiryNow);
          }
          return Thrown(error);
      }
    }

    method PrefetchLesson(network: NetworkReply, lengths: Lengths, now: int, expiryNow: int)
      requires Agrees()
      modifies this
      ensures Agrees()
      ensures network.Fresh? ==>
                AfterPut(old(rows), rows, network.lesson.id,
                  WriteThroughRow(network.lesson, lengths.content, lengths.manifest, now), expiryNow)
                && PutLeaves(old(rows), rows, network.lesson.id,
                     WriteThroughRow(network.lesson, lengths.content, lengths.manifest, now), expiryNow)
                && fetched == old(fetched)[network.lesson.id := network.lesson]
      ensures network.Failed? ==> rows == old(rows) && fetched == old(fetched)
    {
      if network.Fresh? {
        WriteThrough(network.lesson, lengths, now, expiryNow);
      }
    }

    // ----- run-sync.ts -----

    method SelectRecent(limit: nat) returns (selected: seq<string>)
      ensures MostRecent(rows, selected, limit)
    {
      var candidates := SelectOldestFirst();
      selected := [];
      while |selected| < limit && |selected| < |candidates|
        invariant |selected| <= limit && |selected| <= |candidates|
        invariant forall j | 0 <= j < |selected| :: selected[j] == candidates[|candidates| - 1 - j].id
      {
        selected := selected + [candidates[|candidates| - 1 - |selected|].id];
      }
      LatestOfCandidates(rows, candidates, selected, limit);
    }

    /** The ten most recently used lessons are fetched again; the others are not
        touched, except that they may be evicted.  If there is room, nothing is evicted
        and every selected lesson is refreshed. */
    method RefreshRecentLessons(network: string -> NetworkReply, lengths: string -> Lengths, now: int, expiryNow: int)
      returns (count: nat, ghost selected: seq<string>)
      requires Agrees()
      modifies this
      ensures Agrees() && count == |selected|
      ensures MostRecent(old(rows), selected, RECENT_LESSONS_LIMIT)
      ensures fetched == Refetched(old(fetched), selected, network)
      ensures Total(old(rows)) <= CACHE_MAX_BYTES ==> Total(rows) <= CACHE_MAX_BYTES
      ensures Orderly(old(rows), selected, network, now) ==> OnlyTouched(old(rows), rows, set id <- selected)
      ensures Orderly(old(rows), selected, network, now) && Roomy(old(rows), selected, network, lengths, now, expiryNow)
              ==> AllRefreshed(old(rows), rows, selected, network, now)
    {
      var ids := SelectRecent(RECENT_LESSONS_LIMIT);
      ghost var before := rows;
      NothingRefreshed(before, ids, network, lengths, now, expiryNow);
      var i := 0;
      while i < |ids|
        invariant 0 <= i <= |ids| && Agrees()
        invariant fetched == Refetched(old(fetched), ids[..i], network)
        invariant Refreshing(before, rows, ids, i, network, lengths, now, expiryNow)
      {
        ghost var mid := rows;
        RefetchedOneMore(old(fetched), ids, network, i);
        PrefetchLesson(network(ids[i]), lengths(ids[i]), now, expiryNow);
        RefreshStep(before, mid, rows, ids, i, network, lengths, now, expiryNow);
        i := i + 1;
      }
      assert ids[..|ids|] == ids;
      RefreshEnds(before, rows, ids, network, lengths, now, expiryNow);
      return |ids|, ids;
    }

    /** A sync fails exactly when one of its notification calls does, reports those
        errors in order, and refreshes the recent lessons either way. */
    method RunSyncOnce(unread: CallResult, page: CallResult, network: string -> NetworkReply,
                       lengths: string -> Lengths, now: int, expiryNow: int)
      returns (result: SyncResult, ghost selected: seq<string>)
      requires Agrees()
      modifies this
      ensures Agrees()
      ensures result.ok <==> unread.Count? && page.Count?
      ensures result.unreadCount == (if unread.Count? then Some(unread.count) else None)
      ensures result.notificationsFetched == (if page.Count? then Some(page.count) else None)
      ensures result.errors == (if unread.Raised? then ["unread-count: " + unread.message] else [])
                               + (if page.Raised? then ["notifications: " + page.message] else [])
      ensures MostRecent(old(rows), selected, RECENT_LESSONS_LIMIT) && result.lessonsRefreshed == Some(|selected|)
      ensures fetched == Refetched(old(fetched), selected, network)
      ensures Orderly(old(rows), selected, network, now) ==> OnlyTouched(old(rows), rows, set id <- selected)
      ensures Orderly(old(rows), selected, network, now) && Roomy(old(rows), selected, network, lengths, now, expiryNow)
              ==> AllRefreshed(old(rows), rows, selected, network, now)
    {
      result := SyncResult(true, None, None, None, []);
      match unread {
        case Count(count) => result := result.(unreadCount := Some(count));
        case Raised(message) => result := result.(ok := false, errors := result.errors + ["unread-count: " + message]);
      }
      match page {
        case Count(count) => result := result.(notificationsFetched := Some(count));
        case Raised(message) => result := result.(ok := false, errors := result.errors + ["notifications: " + message]);
      }
      var refreshed;
      refreshed, selected := RefreshRecentLessons(network, lengths, now, expiryNow);
      result := result.(lessonsRefreshed := Some(refreshed));
    }
  }
}
