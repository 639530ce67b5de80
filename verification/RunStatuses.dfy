/**
 The status of every run, read off the source and the target before it, and what a run does to the
 sequences of the target.
 */
module RunStatuses {
  import opened Options
  import opened MigrationModel
  import opened TableCopy
  import opened BadRows
  import opened MigrationRun
  import opened RunVerdicts

  /** `target_table in (None, t)`. */
  predicate Wanted(run: Run, t: Table) {
    run.target == None || run.target == Some(t)
  }

  /** The rows of every wanted table convert and, in a live run, the target takes them. */
  predicate RowsEnd(src: Source, db: Db, run: Run) {
    forall t: Table :: Wanted(run, t) ==> Ends(src, db, t, RefsOf(src, db, Plan(run.target), run.dry), run.dry)
  }

  lemma PlanIsWanted(run: Run, t: Table)
    ensures t in Plan(run.target) <==> Wanted(run, t)
  {
    EveryTableListed(t);
  }

  /** A complete target has orphans exactly when the source has. */
  lemma CompleteOrphans(src: Source, db: Db)
    requires forall t: Table :: Complete(src, t, db)
    ensures HasOrphans(db) <==> !Covered(src)
  {
    hide Staged, SelectAfter;
    assert Complete(src, Accounts, db);
    AccountsCopied(src, db);
    forall t: Table
      ensures Complete(src, t, db)
      ensures forall i :: 0 <= i < |WholeRead(src, t)| ==> WholeRead(src, t)[i].accountId == db.At(t).rows[i].accountId
    {
      StagedPrefix(t, WholeRead(src, t));
    }
    if HasOrphans(db) {
      var t: Table, r :| t != Accounts && r in db.At(t).rows && r.accountId !in db.At(Accounts).Ids();
      var i :| 0 <= i < |db.At(t).rows| && db.At(t).rows[i] == r;
      assert WholeRead(src, t)[i] in WholeRead(src, t) && !HasAccount(src, r.accountId);
    }
    if !Covered(src) {
      var t: Table, x :| t != Accounts && x in WholeRead(src, t) && !HasAccount(src, x.accountId);
      var i :| 0 <= i < |WholeRead(src, t)| && WholeRead(src, t)[i] == x;
      assert db.At(t).rows[i] in db.At(t).rows;
    }
  }

  lemma AllConsistentIsSound(src: Source, db: Db)
    requires AllConsistent(src, db)
    ensures Sound(src, db)
  {}

  /** What the copying of the planned tables leaves, when it ends by itself. */
  lemma CopiedTables(src: Source, w: World, run: Run)
    requires KeyedSource(src) && AllConsistent(src, w.db)
    ensures var c := CopyTables(src, w, Plan(run.target), run.size, run.dry, run.life);
            && (!c.outcome.Killed? ==> (c.outcome.Finished? <==> RowsEnd(src, w.db, run)))
            && (!c.outcome.Killed? ==> (c.outcome.Refused? <==> RunRefused(src, w.db, run)))
            && (c.outcome.Finished? && !run.dry ==> forall t: Table :: Wanted(run, t) ==> Complete(src, t, c.world.db))
  {
    hide CopyTables, Consistent, Complete, Ends, PlanRefused, PlanSpoils, RefsOf, Sound;
    PlanVerdict(src, w, Plan(run.target), run.size, run.dry, run.life);
    AllConsistentIsSound(src, w.db);
    CopyTablesSound(src, w, Plan(run.target), run.size, run.dry, run.life);
    forall t: Table
      ensures t in Plan(run.target) <==> Wanted(run, t)
    {
      PlanIsWanted(run, t);
    }
  }

  /** SUCCESS exactly when every wanted table ends by itself, the source file did not change and, for
      a full live run, no child row of the source lacks its account. */
  predicate Succeeds(src: Source, db: Db, run: Run) {
    RowsEnd(src, db, run) && run.startHash == run.endHash && (FullLive(run) ==> Covered(src))
  }

  /** The status of every run from consistent tables, unless its process dies, and what it copied. */
  lemma StatusExactly(src: Source, w: World, run: Run)
    requires KeyedSource(src) && AllConsistent(src, w.db)
    ensures var (w', status) := RunMigration(src, w, run);
            status != Dead ==>
              && (status == Success <==> Succeeds(src, w.db, run))
              && (status == Escaped <==> RunRefused(src, w.db, run))
              && (status == Failed <==> !Succeeds(src, w.db, run) && !RunRefused(src, w.db, run))
    ensures var (w', status) := RunMigration(src, w, run);
            status == Success && !run.dry ==> forall t: Table :: Wanted(run, t) ==> Complete(src, t, w'.db)
  {
    hide CopyTables, Consistent, Complete, RowsEnd, RunRefused, HasOrphans, Covered, Reseeded, Plan;
    CopiedTables(src, w, run);
    var c := CopyTables(src, w, Plan(run.target), run.size, run.dry, run.life);
    ReseededSame(c.world.db);
    forall t: Table
      ensures Complete(src, t, c.world.db) ==> Complete(src, t, RunMigration(src, w, run).0.db)
    {
      if Complete(src, t, c.world.db) {
        SameTableComplete(src, t, c.world.db, RunMigration(src, w, run).0.db);
      }
    }
    if c.outcome.Finished? && FullLive(run) {
      forall t: Table
        ensures Complete(src, t, Reseeded(c.world.db))
      {
        assert Wanted(run, t);
        SameTableComplete(src, t, c.world.db, Reseeded(c.world.db));
      }
      CompleteOrphans(src, Reseeded(c.world.db));
    }
  }

  // ---------------------------------------------------------------- sequences

  /** The next id is one above the highest of the rows, and two for an empty table. */
  predicate NextAfter(rows: seq<TargetRow>, next: int) {
    if rows == [] then next == 2
    else (exists r :: r in rows && r.id == next - 1) && forall r :: r in rows ==> r.id < next
  }

  lemma {:induction false} MaxRowIdHeld(rows: seq<TargetRow>)
    ensures NextAfter(rows, MaxRowId(rows) + 1)
  {
    if |rows| == 1 {
      assert rows[0] in rows;
    } else if rows != [] {
      var n := |rows| - 1;
      MaxRowIdHeld(rows[..n]);
      assert rows[n] in rows && forall r :: r in rows <==> r in rows[..n] || r == rows[n];
    }
  }

  lemma {:induction false} PlanKeepsSequences(src: Source, w: World, plan: seq<Table>, size: int, dry: bool, life: Life)
    requires KeyedSource(src)
    ensures CopyTables(src, w, plan, size, dry, life).world.db.nextIds == w.db.nextIds
    decreases |plan|
  {
    hide CopyTable, CloseSession, UniqueIds;
    if plan != [] {
      var t := plan[0];
      CheckpointNeverFalls(src.Get(t), w.db, t, size, dry, life);
      var r := CopyTable(src.Get(t), w.db, t, size, dry, life);
      if r.outcome.Finished? {
        PlanKeepsSequences(src, World(r.db, w.commits.Set(t, w.commits.Get(t) + r.committed)), plan[1..], size, dry, r.life);
      }
    }
  }

  /** Only a full live run touches the sequences, all five or none; one that records SUCCESS has put
      each exactly above its table. */
  lemma SequencesExactly(src: Source, w: World, run: Run)
    requires KeyedSource(src)
    ensures var (w', status) := RunMigration(src, w, run);
            && (w'.db.nextIds == w.db.nextIds
                || (FullLive(run) && forall t: Table :: NextAfter(w'.db.At(t).rows, w'.db.nextIds.Get(t))))
            && (FullLive(run) && status == Success ==>
                  forall t: Table :: NextAfter(w'.db.At(t).rows, w'.db.nextIds.Get(t)))
  {
    hide CopyTables, HasOrphans, NextAfter, MaxRowId, KeyedSource;
    PlanKeepsSequences(src, w, Plan(run.target), run.size, run.dry, run.life);
    var db := CopyTables(src, w, Plan(run.target), run.size, run.dry, run.life).world.db;
    forall t: Table
      ensures NextAfter(Reseeded(db).At(t).rows, Reseeded(db).nextIds.Get(t))
    {
      MaxRowIdHeld(db.At(t).rows);
    }
  }

  // ---------------------------------------------------------------- long lives

  function RowCount(src: Source, plan: seq<Table>): nat {
    if plan == [] then 0 else |src.Get(plan[0])| + RowCount(src, plan[1..])
  }

  lemma {:induction false} InsertLength(row: SourceRow, rows: seq<SourceRow>)
    ensures |InsertById(row, rows)| == |rows| + 1
  {
    if rows != [] && row.id > rows[0].id {
      InsertLength(row, rows[1..]);
    }
  }

  lemma {:induction false} OrderLength(rows: seq<SourceRow>)
    ensures |OrderById(rows)| == |rows|
  {
    if rows != [] {
      OrderLength(rows[1..]);
      InsertLength(rows[0], OrderById(rows[1..]));
    }
  }

  lemma {:induction false} AboveLength(rows: seq<SourceRow>, pk: int)
    ensures |IdAbove(rows, pk)| <= |rows|
  {
    if rows != [] {
      AboveLength(rows[1..], pk);
    }
  }

  lemma LongTable(rows: seq<SourceRow>, db: Db, t: Table, size: int, dry: bool, k: nat)
    requires k >= |rows|
    ensures var r, full := CopyTable(rows, db, t, size, dry, Chunks(k)), CopyTable(rows, db, t, size, dry, Immortal);
            exists left: nat :: left >= k - |rows| && r == full.(life := Chunks(left))
  {
    hide Copy;
    var pk := db.At(t).Position().lastPk;
    AboveLength(rows, pk);
    OrderLength(IdAbove(rows, pk));
    LongLoop(StartJob(db, t, size, dry), StartLoop(rows, db, t, Chunks(k)), k);
  }

  lemma {:induction false} LongPlan(src: Source, w: World, plan: seq<Table>, size: int, dry: bool, k: nat)
    requires k >= RowCount(src, plan)
    ensures var c, full := CopyTables(src, w, plan, size, dry, Chunks(k)), CopyTables(src, w, plan, size, dry, Immortal);
            && full.life == Immortal && !full.outcome.Killed?
            && exists left: nat :: left >= k - RowCount(src, plan) && c == full.(life := Chunks(left))
    decreases |plan|
  {
    hide CopyTable, CloseSession, Escapes;
    if plan == [] {
      assert CopyTables(src, w, plan, size, dry, Chunks(k))
             == CopyTables(src, w, plan, size, dry, Immortal).(life := Chunks(k));
    } else {
      var t := plan[0];
      LongTable(src.Get(t), w.db, t, size, dry, k);
      SurvivesAll(src.Get(t), w.db, t, size, dry);
      var r, full := CopyTable(src.Get(t), w.db, t, size, dry, Chunks(k)), CopyTable(src.Get(t), w.db, t, size, dry, Immortal);
      var left: nat :| left >= k - |src.Get(t)| && r == full.(life := Chunks(left));
      SameClose(full, t, Chunks(left));
      if full.outcome.Finished? {
        var next := World(full.db, w.commits.Set(t, w.commits.Get(t) + full.committed));
        LongPlan(src, next, plan[1..], size, dry, left);
      } else {
        assert CopyTables(src, w, plan, size, dry, Chunks(k))
               == CopyTables(src, w, plan, size, dry, Immortal).(life := Chunks(left));
      }
    }
  }

  lemma SameClose(r: CopyResult, t: Table, life: Life)
    ensures CloseSession(r.(life := life), t) == CloseSession(r, t)
    ensures Escapes(r.(life := life), t) <==> Escapes(r, t)
  {
    hide Commit;
  }

  lemma {:induction false} ImmortalCopy(job: Job, loop: Loop)
    requires loop.life == Immortal
    ensures Copy(job, loop).life == Immortal && !Copy(job, loop).outcome.Killed?
    decreases |loop.rest|
  {
    hide Commit, Staged;
    match ChunkStep(job, loop)
    case Stop(_) =>
    case Next(next) => ImmortalCopy(job, next);
  }

  lemma SurvivesAll(rows: seq<SourceRow>, db: Db, t: Table, size: int, dry: bool)
    ensures var r := CopyTable(rows, db, t, size, dry, Immortal); r.life == Immortal && !r.outcome.Killed?
  {
    hide Copy, SelectAfter;
    ImmortalCopy(StartJob(db, t, size, dry), StartLoop(rows, db, t, Immortal));
  }

  /** A process that lives for more chunks than the wanted tables have rows does all that one that
      never dies does, and its status is none of death. */
  lemma LongRun(src: Source, w: World, run: Run, k: nat)
    requires run.life == Immortal && k > RowCount(src, Plan(run.target))
    ensures RunMigration(src, w, run.(life := Chunks(k))) == RunMigration(src, w, run)
    ensures RunMigration(src, w, run).1 != Dead
  {
    hide CopyTables, HasOrphans, Plan, RowCount, Reseeded;
    LongPlan(src, w, Plan(run.target), run.size, run.dry, k);
  }
}
