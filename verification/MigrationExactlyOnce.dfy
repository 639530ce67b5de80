/**
 The migration of a source whose rows all convert: exactly-once copying over every history, dry runs
 that change nothing, and a full live run that always gets to SUCCESS.
 */
module MigrationExactlyOnce {
  import opened Options
  import opened MigrationModel
  import opened TableCopy
  import opened BadRows
  import opened MigrationRun

  predicate Convertible(src: Source) {
    forall t: Table, r :: r in WholeRead(src, t) ==> ConvertRow(t, r).Some?
  }

  /** Every table holds exactly its rows up to the checkpoint, and last_processed_chunk is the
      number of chunks ever committed to it. */
  predicate Exact(src: Source, w: World) {
    forall t: Table :: ExactTable(src, w, t)
  }

  predicate ExactTable(src: Source, w: World, t: Table) {
    Consistent(WholeRead(src, t), t, w.db.At(t)) && w.db.At(t).Position().lastChunk == w.commits.Get(t)
  }

  lemma {:induction false} AllStaged(t: Table, rows: seq<SourceRow>)
    requires forall r :: r in rows ==> ConvertRow(t, r).Some?
    ensures |Staged(t, rows)| == |rows|
  {
    hide ConvertRow;
    if rows != [] {
      AllStaged(t, rows[1..]);
    }
  }

  lemma {:induction false} NothingPending(job: Job, loop: Loop)
    requires forall r :: r in loop.rest ==> ConvertRow(job.table, r).Some?
    ensures Copy(job, loop).pending == []
    decreases |loop.rest|
  {
    hide ConvertRow, Commit, Staged;
    var n := ChunkLength(job.size, |loop.rest|);
    AllStaged(job.table, loop.rest[..n]);
    match ChunkStep(job, loop)
    case Stop(_) =>
    case Next(next) => NothingPending(job, next);
  }

  lemma TableCopyExact(src: Source, w: World, t: Table, size: int, dry: bool, life: Life)
    requires KeyedSource(src) && Convertible(src) && Exact(src, w)
    ensures var r := CopyTable(src.Get(t), w.db, t, size, dry, life);
            var next := World(r.db, w.commits.Set(t, w.commits.Get(t) + r.committed));
            && CloseSession(r, t) == r.db
            && SameElsewhere(w.db, r.db, t)
            && Exact(src, next)
            && w.db.At(t).Position().lastPk <= r.db.At(t).Position().lastPk
            && (dry ==> next == w)
            && (!dry && r.outcome.Finished? ==> Complete(src, t, r.db))
  {
    hide Copy, Consistent, Complete, ConvertRow, OrderById, IdAbove;
    assert ExactTable(src, w, t);
    CopyTableOutcome(src.Get(t), w.db, t, size, dry, life);
    SelectAfterSorted(src.Get(t), 0);
    SelectAfterSorted(src.Get(t), w.db.At(t).Position().lastPk);
    CheckpointNotNegative(src, t, w);
    NothingPending(StartJob(w.db, t, size, dry), StartLoop(src.Get(t), w.db, t, life));
    var r := CopyTable(src.Get(t), w.db, t, size, dry, life);
    var next := World(r.db, w.commits.Set(t, w.commits.Get(t) + r.committed));
    forall u: Table
      ensures ExactTable(src, next, u)
    {
      assert ExactTable(src, w, u);
    }
    if !dry && r.outcome.Finished? {
      FullIsComplete(src, t, r.db);
    }
  }

  lemma CheckpointNotNegative(src: Source, t: Table, w: World)
    requires KeyedSource(src) && ExactTable(src, w, t)
    ensures w.db.At(t).Position().lastPk >= 0
  {
    hide Staged;
    ResumeExactly(src.Get(t), |w.db.At(t).rows|);
  }

  lemma {:induction false} CopyTablesExact(src: Source, w: World, plan: seq<Table>, size: int, dry: bool, life: Life)
    requires KeyedSource(src) && Convertible(src) && Exact(src, w)
    ensures var c := CopyTables(src, w, plan, size, dry, life);
            && Exact(src, c.world)
            && (forall t: Table :: w.db.At(t).Position().lastPk <= c.world.db.At(t).Position().lastPk)
            && (dry ==> c.world == w)
    decreases |plan|
  {
    hide CopyTable, CloseSession, Exact, Convertible, Escapes;
    if plan != [] {
      var t := plan[0];
      TableCopyExact(src, w, t, size, dry, life);
      var r := CopyTable(src.Get(t), w.db, t, size, dry, life);
      if r.outcome.Finished? {
        CopyTablesExact(src, World(r.db, w.commits.Set(t, w.commits.Get(t) + r.committed)), plan[1..], size, dry, r.life);
      }
    }
  }

  /** One run keeps the state exact, never lowers a checkpoint, and changes nothing when dry. */
  lemma RunExact(src: Source, w: World, run: Run)
    requires KeyedSource(src) && Convertible(src) && Exact(src, w)
    ensures var w' := RunMigration(src, w, run).0;
            && Exact(src, w')
            && (forall t: Table :: w.db.At(t).Position().lastPk <= w'.db.At(t).Position().lastPk)
            && (run.dry ==> w' == w)
  {
    hide Convertible, CopyTables, HasOrphans, Consistent;
    CopyTablesExact(src, w, Plan(run.target), run.size, run.dry, run.life);
    var c := CopyTables(src, w, Plan(run.target), run.size, run.dry, run.life);
    forall t: Table
      ensures ExactTable(src, RunMigration(src, w, run).0, t)
    {
      assert ExactTable(src, c.world, t);
    }
  }

  /** Exactly-once copying: after any sequence of live runs, dry runs, crashes and restarts with any
      chunk sizes, every table holds the converted rows up to its checkpoint, each once. */
  lemma {:induction false} ExactlyOnce(src: Source, enforced: bool, runs: seq<Run>)
    requires KeyedSource(src) && Convertible(src)
    ensures Exact(src, History(src, enforced, runs))
  {
    hide Convertible, Consistent, RunMigration;
    if runs == [] {
      forall t: Table
        ensures ExactTable(src, History(src, enforced, runs), t)
      {
        EmptyConsistent(src, t, enforced);
      }
    } else {
      ExactlyOnce(src, enforced, runs[..|runs| - 1]);
      RunExact(src, History(src, enforced, runs[..|runs| - 1]), runs[|runs| - 1]);
    }
  }

  /** The k-th target row is the conversion of the k-th source row. */
  lemma RowByRow(all: seq<SourceRow>, t: Table, s: TableState)
    requires OrderedRead(all) && Consistent(all, t, s)
    ensures forall i :: 0 <= i < |s.rows| ==> ConvertRow(t, all[i]) == Some(s.rows[i]) && s.rows[i].id == all[i].id
    ensures forall i :: 0 <= i < |all| ==> (all[i].id <= s.Position().lastPk <==> i < |s.rows|)
  {
    hide Staged, ConvertRow;
    StagedPrefix(t, all[..|s.rows|]);
    assert forall i :: 0 <= i < |all| ==> all[i] in all;
  }

  predicate Holds(t: Table, s: TableState, r: SourceRow) {
    exists i :: 0 <= i < |s.rows| && ConvertRow(t, r) == Some(s.rows[i])
  }

  lemma HeldIffBelowCheckpoint(all: seq<SourceRow>, t: Table, s: TableState, r: SourceRow)
    requires OrderedRead(all) && Consistent(all, t, s) && r in all
    ensures r.id <= s.Position().lastPk <==> Holds(t, s, r)
  {
    hide ConvertRow, Consistent;
    RowByRow(all, t, s);
    var i :| 0 <= i < |all| && all[i] == r;
    if r.id <= s.Position().lastPk {
      assert ConvertRow(t, r) == Some(s.rows[i]);
    }
    if Holds(t, s, r) {
      var j :| 0 <= j < |s.rows| && ConvertRow(t, r) == Some(s.rows[j]);
      ConvertKeepsId(t, r);
    }
  }

  /** Consistency in plain terms: a source row with a positive id is in the target, converted, if and
      only if its id is at or below the checkpoint; nothing else is there; no id occurs twice. */
  lemma ConsistentMeans(rows: seq<SourceRow>, t: Table, s: TableState)
    requires UniqueIds(rows) && Consistent(SelectAfter(rows, 0), t, s)
    ensures DistinctIds(s.rows)
    ensures forall r :: r in rows && r.id > 0 ==> (r.id <= s.Position().lastPk <==> Holds(t, s, r))
    ensures forall i :: 0 <= i < |s.rows| ==> exists r :: r in rows && r.id > 0 && ConvertRow(t, r) == Some(s.rows[i])
  {
    hide ConvertRow, SelectAfter, Holds, Consistent;
    var all := SelectAfter(rows, 0);
    SelectAfterSorted(rows, 0);
    FitsInRead(all, t, s);
    RowByRow(all, t, s);
    assert forall i, j :: 0 <= i < j < |s.rows| ==> s.rows[i].id == all[i].id < all[j].id == s.rows[j].id;
    forall r | r in rows && r.id > 0
      ensures r.id <= s.Position().lastPk <==> Holds(t, s, r)
    {
      HeldIffBelowCheckpoint(all, t, s, r);
    }
    forall i | 0 <= i < |s.rows|
      ensures exists r :: r in rows && r.id > 0 && ConvertRow(t, r) == Some(s.rows[i])
    {
      assert all[i] in all;
    }
  }

  lemma FitsInRead(all: seq<SourceRow>, t: Table, s: TableState)
    requires Consistent(all, t, s)
    ensures |s.rows| <= |all|
  {}

  lemma ConvertKeepsId(t: Table, r: SourceRow)
    ensures ConvertRow(t, r).Some? ==> ConvertRow(t, r).value.id == r.id && ConvertRow(t, r).value.accountId == r.accountId
  {}

  lemma CompleteHolds(src: Source, t: Table, db: Db)
    requires KeyedSource(src) && Complete(src, t, db)
    ensures forall r :: r in src.Get(t) ==> (Holds(t, db.At(t), r) <==> r.id > 0)
  {
    hide Staged, ConvertRow, SelectAfter;
    var all, rows := WholeRead(src, t), db.At(t).rows;
    SelectAfterSorted(src.Get(t), 0);
    StagedPrefix(t, all);
    forall r | r in src.Get(t)
      ensures Holds(t, db.At(t), r) <==> r.id > 0
    {
      ConvertKeepsId(t, r);
      if Holds(t, db.At(t), r) {
        var j :| 0 <= j < |rows| && ConvertRow(t, r) == Some(rows[j]);
        assert all[j] in all;
      }
      if r.id > 0 {
        var i :| 0 <= i < |all| && all[i] == r;
        assert ConvertRow(t, r) == Some(rows[i]);
      }
    }
  }

  /** What SUCCESS says about the source as it is: exactly its rows with a positive id are there. A
      row with another id is never read, and the run records SUCCESS all the same. */
  lemma SuccessCopiesPositiveIds(src: Source, enforced: bool, runs: seq<Run>, run: Run)
    requires KeyedSource(src) && FullLive(run)
    ensures RunMigration(src, History(src, enforced, runs), run).1 == Success ==>
            var db := RunMigration(src, History(src, enforced, runs), run).0.db;
            forall t: Table, r :: r in src.Get(t) ==> (Holds(t, db.At(t), r) <==> r.id > 0)
  {
    hide Complete, Holds, RunMigration, History, UniqueIds;
    SuccessMeansComplete(src, enforced, runs, run);
    if RunMigration(src, History(src, enforced, runs), run).1 == Success {
      var db := RunMigration(src, History(src, enforced, runs), run).0.db;
      forall t: Table
        ensures forall r :: r in src.Get(t) ==> (Holds(t, db.At(t), r) <==> r.id > 0)
      {
        CompleteHolds(src, t, db);
      }
    }
  }

  // ---------------------------------------------------------------- a clean source migrates

  /** Every row with a positive id converts, fits its columns, and its account has a positive id. */
  predicate CleanRow(src: Source, t: Table, r: SourceRow) {
    && ConvertRow(t, r).Some? && FitsColumns(t, ConvertRow(t, r).value)
    && (t != Accounts ==> HasAccount(src, r.accountId))
  }

  predicate KeysDiffer(rows: seq<SourceRow>) {
    forall i, j :: 0 <= i < j < |rows| ==> !Clash(rows[i].key, rows[j].key)
  }

  predicate Clean(src: Source) {
    && (forall t: Table, r :: r in WholeRead(src, t) ==> CleanRow(src, t, r))
    && forall t: Table :: KeysDiffer(WholeRead(src, t))
  }

  lemma CleanAcceptable(src: Source, db: Db, t: Table, r: SourceRow)
    requires CleanRow(src, t, r) && (t == Accounts || Complete(src, Accounts, db))
    ensures Acceptable(AccountRefs(db), t, r)
  {
    hide ConvertRow, FitsColumns, Complete, HasAccount;
    if t != Accounts {
      AccountsCover(src, db);
      ConvertKeepsId(t, r);
    }
  }

  lemma TableFinishes(src: Source, w: World, t: Table, size: int)
    requires KeyedSource(src) && Clean(src) && Exact(src, w)
    requires t == Accounts || Complete(src, Accounts, w.db)
    ensures var r := CopyTable(src.Get(t), w.db, t, size, false, Immortal);
            r.outcome.Finished? && r.life == Immortal
  {
    hide CopyTable, CloseSession, Consistent, Complete, CleanRow, Acceptable, OrderById, IdAbove, Staged;
    var rows, pk := src.Get(t), w.db.At(t).Position().lastPk;
    assert ExactTable(src, w, t);
    CheckpointNotNegative(src, t, w);
    SelectAfterSorted(rows, 0);
    SelectAfterSorted(rows, pk);
    var rest := Unread(rows, w.db, t);
    forall r | r in rest
      ensures Acceptable(AccountRefs(w.db), t, r) && ConvertRow(t, r).Some?
    {
      assert r in WholeRead(src, t);
      CleanAcceptable(src, w.db, t, r);
      CleanConverts(src, t, r);
    }
    AllStaged(t, rest);
    NewKeysLeft(rows, t, w.db);
    BadRowVerdict(rows, w.db, t, size, false);
  }

  /** The keys still to come are not in the table. */
  lemma NewKeysLeft(rows: seq<SourceRow>, t: Table, db: Db)
    requires UniqueIds(rows) && Consistent(SelectAfter(rows, 0), t, db.At(t)) && KeysDiffer(SelectAfter(rows, 0))
    ensures var rest := Unread(rows, db, t);
            forall i :: 0 <= i < |rest| ==> NewKey(db.At(t).rows, rest, 0, i)
  {
    hide Staged, OrderById, IdAbove, ConvertRow, Clash;
    var all, held := SelectAfter(rows, 0), db.At(t).rows;
    var k := |held|;
    ResumeExactly(rows, k);
    StagedPrefix(t, all[..k]);
    forall h, i | h in held && k <= i < |all|
      ensures !Clash(h.key, all[i].key)
    {
      var j :| 0 <= j < k && held[j] == h;
      assert h.key == all[j].key;
    }
    assert forall i :: 0 <= i < |all| - k ==> all[k..][i] == all[k + i];
  }

  lemma CleanConverts(src: Source, t: Table, r: SourceRow)
    requires CleanRow(src, t, r)
    ensures ConvertRow(t, r).Some?
  {}

  lemma CleanIsConvertible(src: Source)
    requires Clean(src)
    ensures Convertible(src)
  {
    hide ConvertRow, FitsColumns;
    forall t: Table, r | r in WholeRead(src, t)
      ensures ConvertRow(t, r).Some?
    {
      assert CleanRow(src, t, r);
    }
  }

  lemma {:induction false} PlanFinishes(src: Source, w: World, plan: seq<Table>, size: int)
    requires KeyedSource(src) && Clean(src) && Exact(src, w)
    requires (plan != [] && plan[0] == Accounts) || Complete(src, Accounts, w.db)
    ensures var c := CopyTables(src, w, plan, size, false, Immortal);
            c.outcome.Finished? && c.life == Immortal
    decreases |plan|
  {
    hide CopyTable, CloseSession, Exact, Clean, Complete;
    if plan != [] {
      var t := plan[0];
      CleanIsConvertible(src);
      TableFinishes(src, w, t, size);
      TableCopyExact(src, w, t, size, false, Immortal);
      var r := CopyTable(src.Get(t), w.db, t, size, false, Immortal);
      if t != Accounts {
        SameTableComplete(src, Accounts, w.db, r.db);
      }
      PlanFinishes(src, World(r.db, w.commits.Set(t, w.commits.Get(t) + r.committed)), plan[1..], size);
    }
  }

  lemma CompleteHasNoOrphans(src: Source, db: Db)
    requires Clean(src) && forall t: Table :: Complete(src, t, db)
    ensures !HasOrphans(db)
  {
    hide Staged, SelectAfter, ConvertRow, FitsColumns, HasAccount;
    AccountsCover(src, db);
    forall t: Table, r | t != Accounts && r in db.At(t).rows
      ensures r.accountId in db.At(Accounts).Ids()
    {
      var all := WholeRead(src, t);
      assert Complete(src, t, db);
      StagedPrefix(t, all);
      var i :| 0 <= i < |db.At(t).rows| && db.At(t).rows[i] == r;
      assert all[i] in all && CleanRow(src, t, all[i]);
    }
  }

  /** The migration always gets there: whatever runs, crashes, dry runs and single-table runs came
      before, one uninterrupted full live run over a clean, unmodified source records SUCCESS. */
  lemma CleanSourceMigrates(src: Source, enforced: bool, runs: seq<Run>, run: Run)
    requires KeyedSource(src) && Clean(src)
    requires run.target == None && !run.dry && run.life == Immortal && run.startHash == run.endHash
    ensures RunMigration(src, History(src, enforced, runs), run).1 == Success
  {
    hide Complete, Sound, CopyTables, HasOrphans, History, Exact, Clean;
    var w := History(src, enforced, runs);
    CleanIsConvertible(src);
    ExactlyOnce(src, enforced, runs);
    HistorySound(src, enforced, runs);
    PlanFinishes(src, w, TABLES, run.size);
    FullCopyComplete(src, w, run);
    var copied := CopyTables(src, w, TABLES, run.size, false, Immortal).world.db;
    forall t: Table
      ensures Complete(src, t, Reseeded(copied))
    {
      ReseededAbove(copied, t);
      SameTableComplete(src, t, copied, Reseeded(copied));
    }
    CompleteHasNoOrphans(src, Reseeded(copied));
  }

  // ---------------------------------------------------------------- a row that is never read

  /** One account with id 0. */
  const ROW_ZERO: Source := PerTable([GOOD.(id := 0)], [], [], [], [])

  /** A first run over it records SUCCESS and leaves the target empty of it. */
  lemma RowZeroIsSkipped(enforced: bool, size: int, hash: string)
    ensures var run := Run(None, size, false, Immortal, hash, hash);
            var (w, status) := RunMigration(ROW_ZERO, History(ROW_ZERO, enforced, []), run);
            status == Success && !Holds(Accounts, w.db.At(Accounts), ROW_ZERO.accounts[0])
  {
    var run := Run(None, size, false, Immortal, hash, hash);
    forall t: Table
      ensures WholeRead(ROW_ZERO, t) == [] && UniqueIds(ROW_ZERO.Get(t))
    {
      assert IdAbove(ROW_ZERO.Get(t), 0) == [];
    }
    hide RunMigration, History, WholeRead, CleanRow, Holds;
    CleanSourceMigrates(ROW_ZERO, enforced, [], run);
    SuccessCopiesPositiveIds(ROW_ZERO, enforced, [], run);
    assert ROW_ZERO.accounts[0] in ROW_ZERO.Get(Accounts);
  }
}
