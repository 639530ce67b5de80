/**
 One table loop of the migration as a function of the committed target, with the two ways it
 ends early (an exception, the death of the process), and the invariants every end keeps.
 */
module TableCopy {
  import opened Options
  import opened MigrationModel

  /** The process may die; it then does so before some later chunk takes effect. */
  datatype Life = Immortal | Chunks(left: nat) {
    function Tick(): Life {
      if Chunks? && left > 0 then Chunks(left - 1) else this
    }
  }

  /** Raised: a row conversion raised. Refused: the target refused the commit of a chunk. */
  datatype Outcome = Finished | Raised | Refused | Killed

  /** What a table loop is given: `lastPk` is the checkpoint it began with. */
  datatype Job = Job(table: Table, size: int, dry: bool, lastPk: int)

  /** The loop between two chunks: the committed target, chunk_idx, the rows not fetched yet,
      and how many chunks this loop has committed. */
  datatype Loop = Loop(db: Db, chunk: nat, rest: seq<SourceRow>, life: Life, committed: nat)

  /** The target, the rows still pending in the session, and how the loop ended. */
  datatype CopyResult = CopyResult(db: Db, pending: seq<TargetRow>, outcome: Outcome, committed: nat, life: Life)

  datatype Step = Stop(result: CopyResult) | Next(loop: Loop)

  /** fetchmany(size): at most `size` rows; a size of zero or less sets no limit. */
  function ChunkLength(size: int, left: nat): (n: nat)
    ensures n <= left && (left > 0 ==> n > 0)
  {
    if 0 < size < left then size else left
  }

  /** `max_id` of one chunk: it restarts from the checkpoint the run began with. */
  function MaxId(start: int, rows: seq<SourceRow>): int {
    if rows == [] then start
    else
      var before := MaxId(start, rows[..|rows| - 1]);
      var id := rows[|rows| - 1].id;
      if id > before then id else before
  }

  /** The checkpoint a live chunk commits together with its rows. */
  function NextCheckpoint(job: Job, loop: Loop, part: seq<SourceRow>): Checkpoint {
    Advance(loop.db.At(job.table).checkpoint, MaxId(job.lastPk, part), loop.chunk + 1, |part|)
  }

  function ChunkStep(job: Job, loop: Loop): (s: Step)
    ensures s.Next? ==> |s.loop.rest| < |loop.rest|
  {
    if loop.rest == [] then Stop(CopyResult(loop.db, [], Finished, loop.committed, loop.life))
    else if loop.life == Chunks(0) then Stop(CopyResult(loop.db, [], Killed, loop.committed, loop.life))
    else
      var n := ChunkLength(job.size, |loop.rest|);
      var part := loop.rest[..n];
      var staged := Staged(job.table, part);
      if |staged| < n then Stop(CopyResult(loop.db, staged, Raised, loop.committed, loop.life))
      else if job.dry then Next(Loop(loop.db, loop.chunk + 1, loop.rest[n..], loop.life.Tick(), loop.committed))
      else
        match Commit(loop.db, job.table, staged, Some(NextCheckpoint(job, loop, part)))
        case None => Stop(CopyResult(loop.db, [], Refused, loop.committed, loop.life))
        case Some(db) => Next(Loop(db, loop.chunk + 1, loop.rest[n..], loop.life.Tick(), loop.committed + 1))
  }

  function Copy(job: Job, loop: Loop): CopyResult
    decreases |loop.rest|
  {
    match ChunkStep(job, loop)
    case Stop(result) => result
    case Next(next) => Copy(job, next)
  }

  function StartJob(db: Db, t: Table, size: int, dry: bool): Job {
    Job(t, size, dry, db.At(t).Position().lastPk)
  }

  function StartLoop(rows: seq<SourceRow>, db: Db, t: Table, life: Life): Loop {
    Loop(db, db.At(t).Position().lastChunk, SelectAfter(rows, db.At(t).Position().lastPk), life, 0)
  }

  function CopyTable(rows: seq<SourceRow>, db: Db, t: Table, size: int, dry: bool, life: Life): CopyResult {
    Copy(StartJob(db, t, size, dry), StartLoop(rows, db, t, life))
  }

  /** The `finally` block commits whatever the session still holds; a refused commit rolls back. After
      a refused chunk commit it does not get there: the unlock before it fails in the same session. */
  function CloseSession(r: CopyResult, t: Table): Db {
    if r.outcome.Killed? || r.pending == [] then r.db
    else
      match Commit(r.db, t, r.pending, None)
      case None => r.db
      case Some(db) => db
  }

  // ---------------------------------------------------------------- invariants
  // In what follows `all` is the whole ordered read of a source table: its rows with a positive
  // id, ascending.

  predicate OrderedRead(all: seq<SourceRow>) {
    Ascending(all) && forall r :: r in all ==> r.id > 0
  }

  /** The table holds the converted form of exactly the rows up to its checkpoint, in id order,
      each once, and counts them. */
  predicate Consistent(all: seq<SourceRow>, t: Table, s: TableState) {
    && |s.rows| <= |all|
    && s.rows == Staged(t, all[..|s.rows|])
    && s.Position().lastPk == PkAt(all, |s.rows|)
    && s.Position().rowsMigrated == |s.rows|
  }

  predicate BeyondCheckpoint(all: seq<SourceRow>, id: int, s: TableState) {
    id > s.Position().lastPk && exists r :: r in all && r.id == id
  }

  /** Some row was committed although the checkpoint still asks for it. */
  predicate Stuck(all: seq<SourceRow>, s: TableState) {
    exists id :: id in s.Ids() && BeyondCheckpoint(all, id, s)
  }

  /** Everything but table t. */
  predicate SameElsewhere(db: Db, db': Db, t: Table) {
    (forall u: Table :: u != t ==> db'.At(u) == db.At(u)) && db'.nextIds == db.nextIds && db'.enforced == db.enforced
  }

  /** Table t only grew, its checkpoint did not fall, and last_processed_chunk counts the commits. */
  predicate Progressed(db: Db, db': Db, t: Table, committed: nat) {
    var s, s' := db.At(t), db'.At(t);
    && SameElsewhere(db, db', t)
    && s.rows <= s'.rows
    && s.Position().lastPk <= s'.Position().lastPk
    && s'.Position().lastChunk == s.Position().lastChunk + committed
  }

  /** Where a loop that began in `start` stands between two chunks. In a live run the rows still
      to read start right after the checkpoint; a dry run may be anywhere beyond it. */
  predicate LoopInvariant(all: seq<SourceRow>, job: Job, start: Db, loop: Loop) {
    var s := loop.db.At(job.table);
    && Consistent(all, job.table, s)
    && Progressed(start, loop.db, job.table, loop.committed)
    && (job.dry ==> loop.db == start)
    && job.lastPk <= s.Position().lastPk
    && |s.rows| + |loop.rest| <= |all| && loop.rest == all[|all| - |loop.rest|..]
    && (!job.dry ==> |s.rows| + |loop.rest| == |all| && loop.chunk == s.Position().lastChunk)
  }

  predicate CopyEnd(all: seq<SourceRow>, job: Job, start: Db, r: CopyResult) {
    var s := r.db.At(job.table);
    && Consistent(all, job.table, s)
    && Progressed(start, r.db, job.table, r.committed)
    && (job.dry ==> r.db == start)
    && (!job.dry && r.outcome.Finished? ==> |s.rows| == |all|)
    && (!r.outcome.Raised? ==> r.pending == [])
    && (forall p :: p in r.pending ==> BeyondCheckpoint(all, p.id, s))
  }

  lemma {:induction false} MaxIdOfAscending(start: int, rows: seq<SourceRow>)
    requires rows != [] && Ascending(rows) && start < rows[0].id
    ensures MaxId(start, rows) == rows[|rows| - 1].id
  {
    if |rows| > 1 {
      MaxIdOfAscending(start, rows[..|rows| - 1]);
    }
  }

  /** Committing the next rows with their checkpoint keeps the invariant. The chunk's max_id
      exceeds the earlier checkpoint although it starts from the older lastPk. */
  lemma ChunkKeepsConsistent(all: seq<SourceRow>, t: Table, s: TableState, part: seq<SourceRow>, lastPk: int, chunk: nat)
    requires OrderedRead(all) && Consistent(all, t, s)
    requires |s.rows| + |part| <= |all| && part == all[|s.rows|..|s.rows| + |part|]
    requires part != [] && |Staged(t, part)| == |part|
    requires lastPk <= s.Position().lastPk
    ensures var s' := TableState(s.rows + Staged(t, part), Some(Advance(s.checkpoint, MaxId(lastPk, part), chunk, |part|)));
            Consistent(all, t, s') && s'.Position().lastPk > s.Position().lastPk
  {
    hide Staged, MaxId;
    var k, m := |s.rows|, |s.rows| + |part|;
    var rows' := s.rows + Staged(t, part);
    assert rows' == Staged(t, all[..m]) by {
      assert all[..m] == all[..k] + part;
      StagedConcat(t, all[..k], part);
    }
    assert |rows'| == m;
    assert part[0] == all[k] && all[k] in all;
    assert s.Position().lastPk < part[0].id;
    MaxIdOfAscending(lastPk, part);
  }

  lemma PendingBeyond(all: seq<SourceRow>, t: Table, s: TableState, part: seq<SourceRow>, j: nat)
    requires OrderedRead(all) && Consistent(all, t, s)
    requires |s.rows| <= j <= j + |part| <= |all| && part == all[j..j + |part|]
    ensures forall p :: p in Staged(t, part) ==> BeyondCheckpoint(all, p.id, s)
  {
    hide Staged;
    StagedPrefix(t, part);
    forall p | p in Staged(t, part)
      ensures BeyondCheckpoint(all, p.id, s)
    {
      var i :| 0 <= i < |Staged(t, part)| && Staged(t, part)[i] == p;
      assert p.id == part[i].id && part[i] == all[j + i] && all[j + i] in all;
    }
  }

  lemma LiveChunk(all: seq<SourceRow>, job: Job, start: Db, loop: Loop, part: seq<SourceRow>, db: Db)
    requires OrderedRead(all) && LoopInvariant(all, job, start, loop) && !job.dry
    requires part != [] && |part| <= |loop.rest| && part == loop.rest[..|part|]
    requires |Staged(job.table, part)| == |part|
    requires Commit(loop.db, job.table, Staged(job.table, part), Some(NextCheckpoint(job, loop, part))) == Some(db)
    ensures LoopInvariant(all, job, start, Loop(db, loop.chunk + 1, loop.rest[|part|..], loop.life.Tick(), loop.committed + 1))
  {
    hide Staged, MaxId, Admits;
    var s := loop.db.At(job.table);
    assert part == all[|s.rows|..|s.rows| + |part|];
    assert loop.rest[|part|..] == all[|s.rows| + |part|..];
    ChunkKeepsConsistent(all, job.table, s, part, job.lastPk, loop.chunk + 1);
  }

  lemma StepKeepsInvariant(all: seq<SourceRow>, job: Job, start: Db, loop: Loop)
    requires OrderedRead(all) && LoopInvariant(all, job, start, loop)
    ensures match ChunkStep(job, loop)
            case Stop(r) => CopyEnd(all, job, start, r)
            case Next(next) => LoopInvariant(all, job, start, next)
  {
    hide Staged, MaxId, Admits, Ascending;
    if loop.rest != [] && loop.life != Chunks(0) {
      var part := loop.rest[..ChunkLength(job.size, |loop.rest|)];
      var j := |all| - |loop.rest|;
      assert part == all[j..j + |part|];
      StagedPrefix(job.table, part);
      if |Staged(job.table, part)| < |part| {
        PendingBeyond(all, job.table, loop.db.At(job.table), part, j);
      } else if job.dry {
        assert loop.rest[|part|..] == all[j + |part|..];
      } else {
        var next := Commit(loop.db, job.table, Staged(job.table, part), Some(NextCheckpoint(job, loop, part)));
        if next.Some? {
          LiveChunk(all, job, start, loop, part, next.value);
        }
      }
    }
  }

  lemma {:induction false} CopyKeepsInvariant(all: seq<SourceRow>, job: Job, start: Db, loop: Loop)
    requires OrderedRead(all) && LoopInvariant(all, job, start, loop)
    ensures CopyEnd(all, job, start, Copy(job, loop))
    decreases |loop.rest|
  {
    hide LoopInvariant, CopyEnd, OrderedRead;
    StepKeepsInvariant(all, job, start, loop);
    match ChunkStep(job, loop)
    case Stop(_) =>
    case Next(next) => CopyKeepsInvariant(all, job, start, next);
  }

  lemma WholeReadOrdered(rows: seq<SourceRow>)
    requires UniqueIds(rows)
    ensures OrderedRead(SelectAfter(rows, 0))
  {
    SelectAfterSorted(rows, 0);
  }

  /** From a consistent table, one table loop and its closing commit leave every other table
      alone, and this one consistent or stuck. */
  lemma CopyTableOutcome(rows: seq<SourceRow>, db: Db, t: Table, size: int, dry: bool, life: Life)
    requires UniqueIds(rows) && Consistent(SelectAfter(rows, 0), t, db.At(t))
    ensures var all := SelectAfter(rows, 0);
            var r := CopyTable(rows, db, t, size, dry, life);
            && CopyEnd(all, StartJob(db, t, size, dry), db, r)
            && SameElsewhere(db, CloseSession(r, t), t)
            && CloseSession(r, t).At(t).checkpoint == r.db.At(t).checkpoint
            && (!r.outcome.Raised? ==> CloseSession(r, t) == r.db)
            && (CloseSession(r, t) == r.db || Stuck(all, CloseSession(r, t).At(t)))
  {
    hide Admits, Staged, ChunkStep, Copy, OrderById, IdAbove;
    var all := SelectAfter(rows, 0);
    WholeReadOrdered(rows);
    ResumeExactly(rows, |db.At(t).rows|);
    CopyKeepsInvariant(all, StartJob(db, t, size, dry), db, StartLoop(rows, db, t, life));
    var r := CopyTable(rows, db, t, size, dry, life);
    var after := CloseSession(r, t);
    if after != r.db {
      var p := r.pending[0];
      assert p in r.pending && p in after.At(t).rows;
      assert p.id in after.At(t).Ids() && BeyondCheckpoint(all, p.id, after.At(t));
    }
  }

  // ---------------------------------------------------------------- checkpoints never fall

  /** Between two chunks the checkpoint has not fallen and is below everything still to read; a live
      loop's chunk_idx is the last chunk of the checkpoint. */
  predicate Rising(job: Job, loop: Loop) {
    var at := loop.db.At(job.table).Position();
    && Ascending(loop.rest) && job.lastPk <= at.lastPk && (forall r :: r in loop.rest ==> at.lastPk < r.id)
    && (!job.dry ==> loop.chunk == at.lastChunk)
  }

  /** last_processed_chunk rises by the chunks committed. */
  predicate Counts(db: Db, committed: nat, db': Db, committed': nat, t: Table) {
    db'.At(t).Position().lastChunk - committed' == db.At(t).Position().lastChunk - committed
  }

  predicate OnlyGrew(db: Db, db': Db, t: Table) {
    SameElsewhere(db, db', t) && db.At(t).rows <= db'.At(t).rows
  }

  lemma RisingStep(job: Job, loop: Loop)
    requires Rising(job, loop)
    ensures match ChunkStep(job, loop)
            case Stop(r) =>
              && r.db == loop.db && r.committed == loop.committed
              && job.lastPk <= r.db.At(job.table).Position().lastPk
            case Next(next) =>
              && Rising(job, next) && OnlyGrew(loop.db, next.db, job.table)
              && Counts(loop.db, loop.committed, next.db, next.committed, job.table)
  {
    hide Staged, MaxId, Admits;
    if ChunkStep(job, loop).Next? {
      var n := ChunkLength(job.size, |loop.rest|);
      var part := loop.rest[..n];
      assert part[0] in loop.rest;
      MaxIdOfAscending(job.lastPk, part);
    }
  }

  lemma {:induction false} RisingCopy(job: Job, loop: Loop)
    requires Rising(job, loop)
    ensures job.lastPk <= Copy(job, loop).db.At(job.table).Position().lastPk
    ensures OnlyGrew(loop.db, Copy(job, loop).db, job.table)
    ensures Counts(loop.db, loop.committed, Copy(job, loop).db, Copy(job, loop).committed, job.table)
    decreases |loop.rest|
  {
    hide Rising;
    RisingStep(job, loop);
    match ChunkStep(job, loop)
    case Stop(_) =>
    case Next(next) => RisingCopy(job, next);
  }

  /** Whatever state it starts from, no table loop lowers a checkpoint, miscounts its commits, loses
      a row or touches another table. */
  lemma CheckpointNeverFalls(rows: seq<SourceRow>, db: Db, t: Table, size: int, dry: bool, life: Life)
    requires UniqueIds(rows)
    ensures var r := CopyTable(rows, db, t, size, dry, life);
            && db.At(t).Position().lastPk <= r.db.At(t).Position().lastPk
            && CloseSession(r, t).At(t).Position() == r.db.At(t).Position()
            && r.db.At(t).Position().lastChunk == db.At(t).Position().lastChunk + r.committed
            && OnlyGrew(db, r.db, t) && OnlyGrew(db, CloseSession(r, t), t)
  {
    hide Copy, Admits, OrderById, IdAbove;
    SelectAfterSorted(rows, db.At(t).Position().lastPk);
    RisingCopy(StartJob(db, t, size, dry), StartLoop(rows, db, t, life));
  }

  // ---------------------------------------------------------------- a stuck table stays stuck

  /** Between two chunks: `row` is committed, its id is beyond the checkpoint, and in a live run it
      is still to be read. */
  predicate StuckLoop(job: Job, start: Db, loop: Loop, row: SourceRow) {
    var s := loop.db.At(job.table);
    && Ascending(loop.rest)
    && (!job.dry ==> row in loop.rest)
    && row.id in s.Ids() && s.Position().lastPk < row.id && job.lastPk < row.id
    && SameElsewhere(start, loop.db, job.table)
  }

  predicate StuckEnd(job: Job, start: Db, r: CopyResult, row: SourceRow) {
    var s := r.db.At(job.table);
    && row.id in s.Ids() && s.Position().lastPk < row.id
    && SameElsewhere(start, r.db, job.table)
    && (!job.dry ==> !r.outcome.Finished?)
  }

  lemma {:induction false} MaxIdBelow(start: int, rows: seq<SourceRow>, bound: int)
    requires start < bound && forall i :: 0 <= i < |rows| ==> rows[i].id < bound
    ensures MaxId(start, rows) < bound
  {
    if rows != [] {
      MaxIdBelow(start, rows[..|rows| - 1], bound);
    }
  }

  lemma RepeatedIdRefused(db: Db, t: Table, staged: seq<TargetRow>, i: nat)
    requires i < |staged| && staged[i].id in db.At(t).Ids()
    ensures !Admits(db, t, staged)
  {
    assert staged[i] in staged;
    hide NewKeys, FitsColumns, DistinctIds;
  }

  /** A chunk holding the stuck row is refused by the primary key; one before it ends below it. */
  lemma StuckCommit(job: Job, start: Db, loop: Loop, row: SourceRow, n: nat)
    requires StuckLoop(job, start, loop, row) && !job.dry && n <= |loop.rest|
    requires |Staged(job.table, loop.rest[..n])| == n
    ensures var part := loop.rest[..n];
            match Commit(loop.db, job.table, Staged(job.table, part), Some(NextCheckpoint(job, loop, part)))
            case None => true
            case Some(db) =>
              StuckLoop(job, start, Loop(db, loop.chunk + 1, loop.rest[n..], loop.life.Tick(), loop.committed + 1), row)
  {
    hide Staged, MaxId, Admits;
    var part := loop.rest[..n];
    var staged := Staged(job.table, part);
    StagedPrefix(job.table, part);
    var i :| 0 <= i < |loop.rest| && loop.rest[i] == row;
    if i < n {
      RepeatedIdRefused(loop.db, job.table, staged, i);
    } else {
      assert loop.rest[n..][i - n] == row;
      MaxIdBelow(job.lastPk, part, row.id);
      KeepsId(loop.db.At(job.table).rows, staged, row.id);
    }
  }

  lemma StuckStep(job: Job, start: Db, loop: Loop, row: SourceRow)
    requires StuckLoop(job, start, loop, row)
    ensures match ChunkStep(job, loop)
            case Stop(r) => StuckEnd(job, start, r, row)
            case Next(next) => StuckLoop(job, start, next, row)
  {
    hide Staged, NextCheckpoint, Commit;
    var n := ChunkLength(job.size, |loop.rest|);
    StagedPrefix(job.table, loop.rest[..n]);
    if !job.dry && |Staged(job.table, loop.rest[..n])| == n {
      StuckCommit(job, start, loop, row, n);
    }
  }

  lemma KeepsId(rows: seq<TargetRow>, more: seq<TargetRow>, id: int)
    requires exists r :: r in rows && r.id == id
    ensures exists r :: r in rows + more && r.id == id
  {
    var r :| r in rows && r.id == id;
    assert r in rows + more;
  }

  lemma {:induction false} StuckCopy(job: Job, start: Db, loop: Loop, row: SourceRow)
    requires StuckLoop(job, start, loop, row)
    ensures StuckEnd(job, start, Copy(job, loop), row)
    decreases |loop.rest|
  {
    hide StuckLoop, StuckEnd;
    StuckStep(job, start, loop, row);
    match ChunkStep(job, loop)
    case Stop(_) =>
    case Next(next) => StuckCopy(job, start, next, row);
  }

  /** The closing commit can only add rows to its table. */
  lemma CloseOnlyAdds(r: CopyResult, t: Table)
    ensures var after := CloseSession(r, t);
            && SameElsewhere(r.db, after, t)
            && after.At(t).checkpoint == r.db.At(t).checkpoint
            && r.db.At(t).Ids() <= after.At(t).Ids()
  {
    hide Admits;
    forall id | id in r.db.At(t).Ids()
      ensures id in CloseSession(r, t).At(t).Ids()
    {
      KeepsId(r.db.At(t).rows, r.pending, id);
    }
  }

  /** Once stuck, a table is never repaired: no run, live or dry, un-sticks it, and no live loop
      over it ever finishes. */
  lemma StuckForever(rows: seq<SourceRow>, db: Db, t: Table, size: int, dry: bool, life: Life)
    requires UniqueIds(rows) && Stuck(SelectAfter(rows, 0), db.At(t))
    ensures var all := SelectAfter(rows, 0);
            var r := CopyTable(rows, db, t, size, dry, life);
            && Stuck(all, r.db.At(t)) && Stuck(all, CloseSession(r, t).At(t))
            && SameElsewhere(db, r.db, t) && SameElsewhere(db, CloseSession(r, t), t)
            && (!dry ==> !r.outcome.Finished?)
  {
    hide Admits, Staged, ChunkStep, Copy, OrderById, IdAbove, CloseSession;
    var all, s := SelectAfter(rows, 0), db.At(t);
    var id :| id in s.Ids() && BeyondCheckpoint(all, id, s);
    var row :| row in all && row.id == id;
    SelectAfterSorted(rows, 0);
    SelectAfterSorted(rows, s.Position().lastPk);
    StuckCopy(StartJob(db, t, size, dry), db, StartLoop(rows, db, t, life), row);
    var r := CopyTable(rows, db, t, size, dry, life);
    CloseOnlyAdds(r, t);
    assert BeyondCheckpoint(all, id, r.db.At(t));
    assert BeyondCheckpoint(all, id, CloseSession(r, t).At(t));
  }

  // ---------------------------------------------------------------- where a process can die

  /** The loop after k more chunks, or how it ended before. */
  function AfterChunks(job: Job, loop: Loop, k: nat): Step
    decreases k
  {
    if k == 0 then Next(loop)
    else
      match ChunkStep(job, loop)
      case Stop(r) => Stop(r)
      case Next(next) => AfterChunks(job, next, k - 1)
  }

  /** A process that dies before its chunk k + 1 has committed exactly the chunks before it, wherever
      that is; one whose loop ends earlier does not notice, and has the other chunks of its life left. */
  lemma {:induction false} DiesExactly(job: Job, loop: Loop, k: nat)
    requires loop.life == Chunks(k)
    ensures var r, full := Copy(job, loop), Copy(job, loop.(life := Immortal));
            match AfterChunks(job, loop.(life := Immortal), k)
            case Next(at) =>
              if at.rest == [] then r == full.(life := Chunks(0))
              else r == CopyResult(at.db, [], Killed, at.committed, Chunks(0))
            case Stop(end) => end == full && exists left: nat :: left <= k && r == full.(life := Chunks(left))
    decreases k
  {
    hide Commit, Staged;
    var mortal, full := ChunkStep(job, loop), ChunkStep(job, loop.(life := Immortal));
    if k > 0 {
      assert mortal.Stop? <==> full.Stop?;
      if mortal.Next? {
        assert mortal.loop == full.loop.(life := Chunks(k - 1)) && full.loop.life == Immortal;
        DiesExactly(job, mortal.loop, k - 1);
      } else {
        assert mortal.result == full.result.(life := Chunks(k));
      }
    }
  }

  /** A life of more chunks than there are rows is as good as any. */
  lemma {:induction false} LongLoop(job: Job, loop: Loop, k: nat)
    requires loop.life == Chunks(k) && k >= |loop.rest|
    ensures var r, full := Copy(job, loop), Copy(job, loop.(life := Immortal));
            exists left: nat :: left >= k - |loop.rest| && r == full.(life := Chunks(left))
    decreases |loop.rest|
  {
    hide Commit, Staged;
    var mortal, full := ChunkStep(job, loop), ChunkStep(job, loop.(life := Immortal));
    if mortal.Next? {
      assert mortal.loop == full.loop.(life := Chunks(k - 1)) && full.loop.life == Immortal;
      LongLoop(job, mortal.loop, k - 1);
    } else {
      assert mortal.result == full.result.(life := Chunks(k));
    }
  }
}
