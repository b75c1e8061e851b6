/**
 The lesson cache with everything running at once.  Each SQL statement is one step;
 between two statements of one put, read or eviction any others may run.  In
 particular SUM, the candidate SELECT and each DELETE of an eviction are apart, so an
 eviction works with a total and a list that may both be out of date.
 */
module CacheMachine {
  import opened Lessons
  import opened LessonTable

  /** A lesson on its way into the table. */
  datatype Write = Write(lesson: Lesson, contentLength: nat, manifestLength: nat, now: int) {
    function Row(): Row { WriteThroughRow(lesson, contentLength, manifestLength, now) }
  }

  datatype Stage =
    | Waiting(write: Write)            // INSERT issued
    | Written                          // INSERT done, TTL delete next
    | Measuring                        // SUM next
    | Oversize(total: int)             // SUM was over the budget, SELECT next
    | Deleting(total: int, candidates: seq<Candidate>, next: nat)
    | Bumping(id: string, now: int)    // the un-awaited UPDATE of a read
    | Finished

  /** A put always evicts down to `CACHE_MAX_BYTES`; a lone eviction to its own budget. */
  datatype Task = Task(isPut: bool, budget: int, stage: Stage)

  /** `fetched` and `applied` are the last lessons fetched and written for each id. */
  datatype State = State(
    table: Table,
    tasks: seq<Task>,
    fetched: map<string, Lesson>,
    applied: map<string, Lesson>)

  function Shown(t: Table): map<string, Lesson> {
    map id | id in t :: CachedToLesson(id, t[id])
  }

  /** A cold start on whatever table was left on disk. */
  function Start(table: Table): State {
    State(table, [], Shown(table), Shown(table))
  }

  datatype Action =
    | Fetch(write: Write)              // a lesson arrives and its INSERT is issued
    | Evict(budget: int)
    | Expire(now: int)                 // a lone evictExpiredLessons
    | Read(id: string, now: int)
    | Insert(p: nat)
    | DeleteExpired(p: nat, now: int)
    | Sum(p: nat)
    | Select(p: nat, candidates: seq<Candidate>)
    | DeleteNext(p: nat)
    | Bump(p: nat)

  /** The `for` loop of the eviction, between two deletions. */
  function LoopStage(total: int, candidates: seq<Candidate>, next: nat, budget: int): Stage {
    if next < |candidates| && total > budget then Deleting(total, candidates, next) else Finished
  }

  ghost predicate Enabled(s: State, a: Action) {
    match a
    case Fetch(_) => true
    case Evict(_) => true
    case Expire(_) => true
    case Read(_, _) => true
    case Insert(p) => p < |s.tasks| && s.tasks[p].stage.Waiting?
    case DeleteExpired(p, _) => p < |s.tasks| && s.tasks[p].stage.Written?
    case Sum(p) => p < |s.tasks| && s.tasks[p].stage.Measuring?
    case Select(p, candidates) => p < |s.tasks| && s.tasks[p].stage.Oversize? && OldestFirst(s.table, candidates)
    case DeleteNext(p) =>
      p < |s.tasks| && s.tasks[p].stage.Deleting? && s.tasks[p].stage.next < |s.tasks[p].stage.candidates|
    case Bump(p) => p < |s.tasks| && s.tasks[p].stage.Bumping?
  }

  ghost function At(s: State, p: nat, stage: Stage): State
    requires p < |s.tasks|
  {
    s.(tasks := s.tasks[p := s.tasks[p].(stage := stage)])
  }

  ghost function Next(s: State, a: Action): State
    requires Enabled(s, a)
  {
    match a
    case Fetch(write) =>
      s.(tasks := s.tasks + [Task(true, CACHE_MAX_BYTES, Waiting(write))],
         fetched := s.fetched[write.lesson.id := write.lesson])
    case Evict(budget) => s.(tasks := s.tasks + [Task(false, budget, Measuring)])
    case Expire(now) => s.(table := WithoutExpired(s.table, now))
    case Read(id, now) => if id in s.table then s.(tasks := s.tasks + [Task(false, 0, Bumping(id, now))]) else s
    case Insert(p) =>
      var write := s.tasks[p].stage.write;
      At(s, p, Written).(table := Upserted(s.table, write.lesson.id, write.Row()),
                         applied := s.applied[write.lesson.id := write.lesson])
    case DeleteExpired(p, now) => At(s, p, Measuring).(table := WithoutExpired(s.table, now))
    case Sum(p) =>
      var total := Total(s.table);
      At(s, p, if total <= s.tasks[p].budget then Finished else Oversize(total))
    case Select(p, candidates) =>
      At(s, p, LoopStage(s.tasks[p].stage.total, candidates, 0, s.tasks[p].budget))
    case DeleteNext(p) =>
      var stage := s.tasks[p].stage;
      var row := stage.candidates[stage.next];
      At(s, p, LoopStage(stage.total - row.sizeBytes, stage.candidates, stage.next + 1, s.tasks[p].budget))
      .(table := s.table - {row.id})
    case Bump(p) => At(s, p, Finished).(table := Bumped(s.table, s.tasks[p].stage.id, s.tasks[p].stage.now))
  }

  ghost predicate CanRun(s: State, actions: seq<Action>)
    decreases |actions|
  {
    actions == [] || (Enabled(s, actions[0]) && CanRun(Next(s, actions[0]), actions[1..]))
  }

  ghost function Run(s: State, actions: seq<Action>): State
    requires CanRun(s, actions)
    decreases |actions|
  {
    if actions == [] then s else Run(Next(s, actions[0]), actions[1..])
  }

  /** No put is between its fetch and the end of its eviction. */
  ghost predicate NoPutRunning(s: State) {
    forall task <- s.tasks :: task.isPut ==> task.stage.Finished?
  }

  /** The rows are as before, but for the given ones. */
  ghost predicate SameBut(t: Table, t': Table, ids: set<string>) {
    forall k | k !in ids :: (k in t <==> k in t') && (k in t ==> t[k] == t'[k])
  }

  /** Exactly the rows that have not expired are left. */
  ghost predicate OnlyUnexpired(t: Table, t': Table, now: int) {
    forall k :: (k in t' <==> k in t && t[k].expiresAt >= now) && (k in t' ==> t'[k] == t[k])
  }

  /** What each statement does to the table, row by row: an INSERT writes its own row and
      no other, a TTL delete takes exactly the expired rows, an LRU delete exactly its
      candidate, a bump changes one stamp of a row that is there, and the rest change
      nothing. */
  lemma {:induction false} StatementEffect(s: State, a: Action)
    requires Enabled(s, a)
    ensures var t, t' := s.table, Next(s, a).table;
            match a
            case Insert(p) =>
              var write := s.tasks[p].stage.write;
              SameBut(t, t', {write.lesson.id}) && write.lesson.id in t' && t'[write.lesson.id] == write.Row()
            case Expire(now) => OnlyUnexpired(t, t', now)
            case DeleteExpired(_, now) => OnlyUnexpired(t, t', now)
            case DeleteNext(p) =>
              var id := s.tasks[p].stage.candidates[s.tasks[p].stage.next].id;
              SameBut(t, t', {id}) && id !in t'
            case Bump(p) =>
              var stage := s.tasks[p].stage;
              SameBut(t, t', {stage.id})
              && (stage.id in t' <==> stage.id in t)
              && (stage.id in t ==> t'[stage.id] == t[stage.id].(accessedAt := stage.now))
            case _ => t' == t
  {
  }
}
