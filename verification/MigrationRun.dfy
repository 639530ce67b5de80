/**
 Whole runs of the migration and whole histories of runs: live and dry, over one table or all five,
 with any chunk sizes, interrupted anywhere by an exception or by the death of the process.
 Runs do not overlap (the advisory lock) and the source does not change between them.
 */
module MigrationRun {
  import opened Options
  import opened MigrationModel
  import opened TableCopy

  /** One invocation of the script; the hashes are those of the SQLite file before and after. */
  datatype Run = Run(target: Option<Table>, size: int, dry: bool, life: Life, startHash: string, endHash: string)

  /** The status in the manifest. A dead process writes none, and neither does a run that an exception
      leaves through its `finally` block. */
  datatype Status = Success | Failed | Escaped | Dead

  /** The target, and the chunks committed to each table so far in the whole history. */
  datatype World = World(db: Db, commits: PerTable<nat>)

  datatype CopyAll = CopyAll(world: World, outcome: Outcome, life: Life)

  const TABLES: seq<Table> := [Accounts, Orders, Positions, Transactions, TradeHistory]

  function Plan(target: Option<Table>): seq<Table> {
    match target
    case None => TABLES
    case Some(t) => [t]
  }

  /** The `finally` block itself raises: on the unlock after a refused chunk commit, or on a refused
      closing commit. */
  predicate Escapes(r: CopyResult, t: Table) {
    r.outcome.Refused? || (r.outcome.Raised? && r.pending != [] && !Admits(r.db, t, r.pending))
  }

  function CopyTables(src: Source, w: World, plan: seq<Table>, size: int, dry: bool, life: Life): CopyAll
    decreases |plan|
  {
    if plan == [] then CopyAll(w, Finished, life)
    else
      var t := plan[0];
      var r := CopyTable(src.Get(t), w.db, t, size, dry, life);
      var commits := w.commits.Set(t, w.commits.Get(t) + r.committed);
      if r.outcome.Finished? then CopyTables(src, World(r.db, commits), plan[1..], size, dry, r.life)
      else CopyAll(World(CloseSession(r, t), commits), if Escapes(r, t) then Refused else r.outcome, r.life)
  }

  function MaxRowId(rows: seq<TargetRow>): int {
    if |rows| == 1 then rows[0].id
    else if rows == [] then 1
    else
      var before := MaxRowId(rows[..|rows| - 1]);
      if rows[|rows| - 1].id > before then rows[|rows| - 1].id else before
  }

  /** setval(sequence, COALESCE(MAX(id), 1)): the next id handed out is one more. */
  function Reseeded(db: Db): Db {
    db.(nextIds := PerTable(
          MaxRowId(db.tables.accounts.rows) + 1, MaxRowId(db.tables.orders.rows) + 1,
          MaxRowId(db.tables.positions.rows) + 1, MaxRowId(db.tables.transactions.rows) + 1,
          MaxRowId(db.tables.history.rows) + 1))
  }

  /** The four orphan counts of the post-migration validation. */
  predicate HasOrphans(db: Db) {
    exists t: Table, r :: t != Accounts && r in db.At(t).rows && r.accountId !in db.At(Accounts).Ids()
  }

  function RunMigration(src: Source, w: World, run: Run): (World, Status) {
    var c := CopyTables(src, w, Plan(run.target), run.size, run.dry, run.life);
    if c.outcome.Killed? then (c.world, Dead)
    else if c.outcome.Refused? then (c.world, Escaped)
    else if c.outcome.Raised? then (c.world, Failed)
    else
      var validated := !run.dry && run.target.None?;
      if c.life == Chunks(0) then (c.world, Dead)
      else
        var world := if validated then c.world.(db := Reseeded(c.world.db)) else c.world;
        if (validated && HasOrphans(world.db)) || run.startHash != run.endHash then (world, Failed)
        else (world, Success)
  }

  /** `enforced`: whether the target enforces the account foreign key. */
  function History(src: Source, enforced: bool, runs: seq<Run>): World {
    if runs == [] then World(EmptyDb(enforced), PerTable(0, 0, 0, 0, 0))
    else RunMigration(src, History(src, enforced, runs[..|runs| - 1]), runs[|runs| - 1]).0
  }

  // ---------------------------------------------------------------- properties

  predicate KeyedSource(src: Source) {
    forall t: Table :: UniqueIds(src.Get(t))
  }

  function WholeRead(src: Source, t: Table): seq<SourceRow> {
    SelectAfter(src.Get(t), 0)
  }

  predicate SoundTable(src: Source, t: Table, db: Db) {
    Consistent(WholeRead(src, t), t, db.At(t)) || Stuck(WholeRead(src, t), db.At(t))
  }

  predicate Sound(src: Source, db: Db) {
    forall t: Table :: SoundTable(src, t, db)
  }

  /** Every row of the source table (with a positive id) is there, converted, in id order. */
  predicate Complete(src: Source, t: Table, db: Db) {
    && db.At(t).rows == Staged(t, WholeRead(src, t))
    && |db.At(t).rows| == |WholeRead(src, t)|
  }

  lemma TableCopySound(src: Source, db: Db, t: Table, size: int, dry: bool, life: Life)
    requires KeyedSource(src) && Sound(src, db)
    ensures var r := CopyTable(src.Get(t), db, t, size, dry, life);
            && SameElsewhere(db, r.db, t) && SameElsewhere(db, CloseSession(r, t), t)
            && Sound(src, r.db) && Sound(src, CloseSession(r, t))
            && (!dry && r.outcome.Finished? ==> Complete(src, t, r.db))
  {
    hide CopyTable, CloseSession, Consistent, Stuck;
    assert SoundTable(src, t, db);
    var r := CopyTable(src.Get(t), db, t, size, dry, life);
    if Stuck(WholeRead(src, t), db.At(t)) {
      StuckForever(src.Get(t), db, t, size, dry, life);
    } else {
      CopyTableOutcome(src.Get(t), db, t, size, dry, life);
      if !dry && r.outcome.Finished? {
        FullIsComplete(src, t, r.db);
      }
    }
    forall u: Table
      ensures SoundTable(src, u, r.db) && SoundTable(src, u, CloseSession(r, t))
    {
      assert SoundTable(src, u, db);
    }
  }

  lemma FullIsComplete(src: Source, t: Table, db: Db)
    requires Consistent(WholeRead(src, t), t, db.At(t)) && |db.At(t).rows| == |WholeRead(src, t)|
    ensures Complete(src, t, db)
  {
    hide Staged;
    assert WholeRead(src, t)[..|WholeRead(src, t)|] == WholeRead(src, t);
  }

  lemma {:induction false} CopyTablesSound(src: Source, w: World, plan: seq<Table>, size: int, dry: bool, life: Life)
    requires KeyedSource(src) && Sound(src, w.db)
    requires forall i, j :: 0 <= i < j < |plan| ==> plan[i] != plan[j]
    ensures var c := CopyTables(src, w, plan, size, dry, life);
            && Sound(src, c.world.db)
            && (forall t: Table :: t !in plan ==> c.world.db.At(t) == w.db.At(t))
            && (!dry && c.outcome.Finished? ==> forall t :: t in plan ==> Complete(src, t, c.world.db))
    decreases |plan|
  {
    hide CopyTable, CloseSession, Sound, Complete;
    if plan != [] {
      var t := plan[0];
      TableCopySound(src, w.db, t, size, dry, life);
      var r := CopyTable(src.Get(t), w.db, t, size, dry, life);
      if r.outcome.Finished? {
        var next := World(r.db, w.commits.Set(t, w.commits.Get(t) + r.committed));
        CopyTablesSound(src, next, plan[1..], size, dry, r.life);
        var c := CopyTables(src, next, plan[1..], size, dry, r.life);
        if !dry && c.outcome.Finished? {
          SameTableComplete(src, t, r.db, c.world.db);
        }
      }
    }
  }

  lemma SameTableComplete(src: Source, t: Table, db: Db, db': Db)
    requires db'.At(t) == db.At(t) && Complete(src, t, db)
    ensures Complete(src, t, db')
  {}

  lemma SameTablesSound(src: Source, db: Db, db': Db)
    requires db'.tables == db.tables && Sound(src, db)
    ensures Sound(src, db')
  {
    hide Consistent, Stuck;
    forall t: Table
      ensures SoundTable(src, t, db')
    {
      assert SoundTable(src, t, db);
    }
  }

  lemma RunSound(src: Source, w: World, run: Run)
    requires KeyedSource(src) && Sound(src, w.db)
    ensures Sound(src, RunMigration(src, w, run).0.db)
  {
    hide Sound, HasOrphans;
    CopyTablesSound(src, w, Plan(run.target), run.size, run.dry, run.life);
    var c := CopyTables(src, w, Plan(run.target), run.size, run.dry, run.life);
    SameTablesSound(src, c.world.db, RunMigration(src, w, run).0.db);
  }

  lemma EmptyConsistent(src: Source, t: Table, enforced: bool)
    ensures Consistent(WholeRead(src, t), t, EmptyDb(enforced).At(t))
  {}

  /** In every history every table is consistent or stuck, whatever rows fail to convert. */
  lemma {:induction false} HistorySound(src: Source, enforced: bool, runs: seq<Run>)
    requires KeyedSource(src)
    ensures Sound(src, History(src, enforced, runs).db)
  {
    hide Consistent, Stuck, EmptyDb;
    if runs == [] {
      forall t: Table
        ensures SoundTable(src, t, EmptyDb(enforced))
      {
        EmptyConsistent(src, t, enforced);
      }
    } else {
      HistorySound(src, enforced, runs[..|runs| - 1]);
      RunSound(src, History(src, enforced, runs[..|runs| - 1]), runs[|runs| - 1]);
    }
  }

  lemma {:induction false} MaxRowIdCovers(rows: seq<TargetRow>)
    ensures forall r :: r in rows ==> r.id <= MaxRowId(rows)
  {
    if |rows| > 1 {
      MaxRowIdCovers(rows[..|rows| - 1]);
      assert forall r :: r in rows ==> r in rows[..|rows| - 1] || r == rows[|rows| - 1];
    }
  }

  lemma ReseededAbove(db: Db, t: Table)
    ensures forall r :: r in db.At(t).rows ==> r.id < Reseeded(db).nextIds.Get(t)
    ensures Reseeded(db).At(t) == db.At(t)
  {
    hide MaxRowId;
    MaxRowIdCovers(db.At(t).rows);
  }

  lemma EveryTableListed(t: Table)
    ensures t in TABLES
  {
    match t
    case Accounts => assert TABLES[0] == t;
    case Orders => assert TABLES[1] == t;
    case Positions => assert TABLES[2] == t;
    case Transactions => assert TABLES[3] == t;
    case TradeHistory => assert TABLES[4] == t;
  }

  lemma FullCopyComplete(src: Source, w: World, run: Run)
    requires KeyedSource(src) && Sound(src, w.db) && run.target == None && !run.dry
    ensures var c := CopyTables(src, w, TABLES, run.size, run.dry, run.life);
            c.outcome.Finished? ==> forall t: Table :: Complete(src, t, c.world.db)
  {
    hide Complete, Sound, CopyTables;
    CopyTablesSound(src, w, TABLES, run.size, run.dry, run.life);
    forall t: Table
      ensures t in TABLES
    {
      EveryTableListed(t);
    }
  }

  /** What SUCCESS means. After any history at all, a full live run that records SUCCESS has copied
      all five tables, found no orphan, seen the same source hash twice and left every sequence
      above every migrated id. Nothing is assumed about which rows convert. */
  lemma SuccessMeansComplete(src: Source, enforced: bool, runs: seq<Run>, run: Run)
    requires KeyedSource(src) && run.target == None && !run.dry
    ensures RunMigration(src, History(src, enforced, runs), run).1 == Success ==>
            var db := RunMigration(src, History(src, enforced, runs), run).0.db;
            && (forall t: Table :: Complete(src, t, db))
            && !HasOrphans(db)
            && (forall t: Table, r :: r in db.At(t).rows ==> r.id < db.nextIds.Get(t))
            && run.startHash == run.endHash
  {
    hide Complete, Sound, CopyTables, HasOrphans, History, Reseeded;
    var w := History(src, enforced, runs);
    HistorySound(src, enforced, runs);
    if RunMigration(src, w, run).1 != Success {
      return;
    }
    FullCopyComplete(src, w, run);
    var copied := CopyTables(src, w, TABLES, run.size, run.dry, run.life).world.db;
    var db := RunMigration(src, w, run).0.db;
    assert db == Reseeded(copied);
    forall t: Table
      ensures Complete(src, t, db) && forall r :: r in db.At(t).rows ==> r.id < db.nextIds.Get(t)
    {
      ReseededAbove(copied, t);
      SameTableComplete(src, t, copied, db);
    }
  }

  // ---------------------------------------------------------------- checkpoints never fall

  predicate Rose(db: Db, db': Db) {
    forall t: Table :: db.At(t).Position().lastPk <= db'.At(t).Position().lastPk
  }

  lemma {:induction false} CopyTablesRise(src: Source, w: World, plan: seq<Table>, size: int, dry: bool, life: Life)
    requires KeyedSource(src)
    ensures Rose(w.db, CopyTables(src, w, plan, size, dry, life).world.db)
    decreases |plan|
  {
    hide CopyTable, CloseSession, UniqueIds;
    if plan != [] {
      var t := plan[0];
      CheckpointNeverFalls(src.Get(t), w.db, t, size, dry, life);
      var r := CopyTable(src.Get(t), w.db, t, size, dry, life);
      if r.outcome.Finished? {
        CopyTablesRise(src, World(r.db, w.commits.Set(t, w.commits.Get(t) + r.committed)), plan[1..], size, dry, r.life);
      }
    }
  }

  /** No checkpoint ever falls, in any history, stuck tables included. */
  lemma {:induction false} HistoryRises(src: Source, enforced: bool, runs: seq<Run>, more: seq<Run>)
    requires KeyedSource(src)
    ensures Rose(History(src, enforced, runs).db, History(src, enforced, runs + more).db)
    decreases |more|
  {
    hide CopyTables, HasOrphans, KeyedSource;
    if more == [] {
      assert runs + more == runs;
    } else {
      var before, run := more[..|more| - 1], more[|more| - 1];
      HistoryRises(src, enforced, runs, before);
      assert (runs + more)[..|runs + more| - 1] == runs + before;
      var w := History(src, enforced, runs + before);
      CopyTablesRise(src, w, Plan(run.target), run.size, run.dry, run.life);
      var c := CopyTables(src, w, Plan(run.target), run.size, run.dry, run.life);
      assert RunMigration(src, w, run).0.db.tables == c.world.db.tables;
    }
  }

  predicate Counted(w: World) {
    forall t: Table :: w.db.At(t).Position().lastChunk == w.commits.Get(t)
  }

  lemma {:induction false} CopyTablesCount(src: Source, w: World, plan: seq<Table>, size: int, dry: bool, life: Life)
    requires KeyedSource(src) && Counted(w)
    ensures Counted(CopyTables(src, w, plan, size, dry, life).world)
    decreases |plan|
  {
    hide CopyTable, CloseSession, UniqueIds;
    if plan != [] {
      var t := plan[0];
      CheckpointNeverFalls(src.Get(t), w.db, t, size, dry, life);
      var r := CopyTable(src.Get(t), w.db, t, size, dry, life);
      if r.outcome.Finished? {
        CopyTablesCount(src, World(r.db, w.commits.Set(t, w.commits.Get(t) + r.committed)), plan[1..], size, dry, r.life);
      }
    }
  }

  /** In every history, whatever rows fail, last_processed_chunk is the number of chunks ever
      committed to the table. */
  lemma {:induction false} HistoryCountsChunks(src: Source, enforced: bool, runs: seq<Run>)
    requires KeyedSource(src)
    ensures Counted(History(src, enforced, runs))
  {
    hide CopyTables, HasOrphans, KeyedSource;
    if runs != [] {
      var w, run := History(src, enforced, runs[..|runs| - 1]), runs[|runs| - 1];
      HistoryCountsChunks(src, enforced, runs[..|runs| - 1]);
      CopyTablesCount(src, w, Plan(run.target), run.size, run.dry, run.life);
      var c := CopyTables(src, w, Plan(run.target), run.size, run.dry, run.life);
      assert RunMigration(src, w, run).0.db.tables == c.world.db.tables;
    }
  }

  // ---------------------------------------------------------------- the table order suffices

  predicate HasAccount(src: Source, id: int) {
    exists a :: a in WholeRead(src, Accounts) && a.id == id
  }

  /** Every child row of the source has its account there. */
  predicate Covered(src: Source) {
    forall t: Table, r :: t != Accounts && r in WholeRead(src, t) ==> HasAccount(src, r.accountId)
  }

  ghost predicate AccountsIn(src: Source, db: Db) {
    forall id :: HasAccount(src, id) ==> id in db.At(Accounts).Ids()
  }

  predicate Grounded(src: Source, rows: seq<TargetRow>) {
    forall r :: r in rows ==> HasAccount(src, r.accountId)
  }

  /** Child rows have accounts in the source, and are there only once all accounts are. */
  ghost predicate Ordered(src: Source, db: Db) {
    && (forall t: Table :: t != Accounts ==>
          Grounded(src, db.At(t).rows) && (db.At(t).rows == [] || AccountsIn(src, db)))
    && forall t: Table :: db.At(t).Position().lastPk >= 0
  }

  lemma OrderedHasNoOrphans(src: Source, db: Db)
    requires Ordered(src, db)
    ensures !HasOrphans(db)
  {
    hide HasAccount;
  }

  /** Once all accounts are there, every child row of a covered source finds its account. */
  lemma AccountsCover(src: Source, db: Db)
    requires Complete(src, Accounts, db)
    ensures AccountsIn(src, db)
  {
    hide Staged, SelectAfter;
    var all := WholeRead(src, Accounts);
    StagedPrefix(Accounts, all);
    forall id | HasAccount(src, id)
      ensures id in db.At(Accounts).Ids()
    {
      var a :| a in all && a.id == id;
      var i :| 0 <= i < |all| && all[i] == a;
      assert db.At(Accounts).rows[i] in db.At(Accounts).rows;
    }
  }

  /** After any history, a finished live accounts loop leaves every child row of a covered source
      with its account in the target, whether or not the target checks. */
  lemma AccountsLoopCovers(src: Source, enforced: bool, runs: seq<Run>, size: int, life: Life)
    requires KeyedSource(src)
    ensures var r := CopyTable(src.accounts, History(src, enforced, runs).db, Accounts, size, false, life);
            r.outcome.Finished? ==>
              && AccountsIn(src, r.db)
              && (Covered(src) ==> forall t: Table, c :: t != Accounts && c in WholeRead(src, t) ==>
                    c.accountId in r.db.At(Accounts).Ids())
  {
    hide CopyTable, CloseSession, Sound, Complete, HasAccount, History;
    HistorySound(src, enforced, runs);
    var db := History(src, enforced, runs).db;
    TableCopySound(src, db, Accounts, size, false, life);
    var r := CopyTable(src.accounts, db, Accounts, size, false, life);
    if r.outcome.Finished? {
      AccountsCover(src, r.db);
    }
  }

  lemma {:induction false} CopyGrounded(src: Source, job: Job, loop: Loop)
    requires forall r :: r in loop.rest ==> HasAccount(src, r.accountId)
    requires Grounded(src, loop.db.At(job.table).rows)
    ensures var r := Copy(job, loop);
            Grounded(src, r.db.At(job.table).rows) && Grounded(src, r.pending)
    decreases |loop.rest|
  {
    hide HasAccount, Staged, Admits;
    var part := loop.rest[..ChunkLength(job.size, |loop.rest|)];
    StagedPrefix(job.table, part);
    forall r | r in Staged(job.table, part)
      ensures HasAccount(src, r.accountId)
    {
      var i :| 0 <= i < |Staged(job.table, part)| && Staged(job.table, part)[i] == r;
      assert part[i] in loop.rest;
    }
    match ChunkStep(job, loop)
    case Stop(_) =>
    case Next(next) => CopyGrounded(src, job, next);
  }

  lemma AccountsStay(src: Source, db: Db, db': Db, t: Table)
    requires OnlyGrew(db, db', t) && AccountsIn(src, db)
    ensures AccountsIn(src, db')
  {
    hide HasAccount;
    forall r | r in db.At(Accounts).rows
      ensures r in db'.At(Accounts).rows
    {}
  }

  lemma ChildKeepsOrder(src: Source, db: Db, t: Table, size: int, life: Life)
    requires KeyedSource(src) && Covered(src) && Ordered(src, db) && AccountsIn(src, db) && t != Accounts
    ensures var r := CopyTable(src.Get(t), db, t, size, false, life);
            && Ordered(src, r.db) && AccountsIn(src, r.db)
            && Ordered(src, CloseSession(r, t))
  {
    hide Copy, HasAccount, Admits, OrderById, IdAbove, AccountsIn;
    SelectAfterSorted(src.Get(t), 0);
    SelectAfterSorted(src.Get(t), db.At(t).Position().lastPk);
    CheckpointNeverFalls(src.Get(t), db, t, size, false, life);
    forall x | x in SelectAfter(src.Get(t), db.At(t).Position().lastPk)
      ensures HasAccount(src, x.accountId)
    {
      assert x in WholeRead(src, t);
    }
    CopyGrounded(src, StartJob(db, t, size, false), StartLoop(src.Get(t), db, t, life));
    var r := CopyTable(src.Get(t), db, t, size, false, life);
    AccountsStay(src, db, r.db, t);
    AccountsStay(src, db, CloseSession(r, t), t);
  }

  lemma {:induction false} ChildrenKeepOrder(src: Source, w: World, plan: seq<Table>, size: int, life: Life)
    requires KeyedSource(src) && Covered(src) && Ordered(src, w.db) && AccountsIn(src, w.db) && Accounts !in plan
    ensures Ordered(src, CopyTables(src, w, plan, size, false, life).world.db)
    decreases |plan|
  {
    hide CopyTable, CloseSession, Ordered, Covered, AccountsIn, KeyedSource;
    if plan != [] {
      var t := plan[0];
      ChildKeepsOrder(src, w.db, t, size, life);
      var r := CopyTable(src.Get(t), w.db, t, size, false, life);
      if r.outcome.Finished? {
        ChildrenKeepOrder(src, World(r.db, w.commits.Set(t, w.commits.Get(t) + r.committed)), plan[1..], size, r.life);
      }
    }
  }

  lemma AccountsKeepOrder(src: Source, db: Db, size: int, life: Life)
    requires KeyedSource(src) && Sound(src, db) && Ordered(src, db)
    ensures var r := CopyTable(src.accounts, db, Accounts, size, false, life);
            && Ordered(src, r.db) && Ordered(src, CloseSession(r, Accounts))
            && (r.outcome.Finished? ==> AccountsIn(src, r.db))
  {
    hide CopyTable, CloseSession, Sound, Complete, AccountsIn, Grounded, UniqueIds;
    TableCopySound(src, db, Accounts, size, false, life);
    CheckpointNeverFalls(src.accounts, db, Accounts, size, false, life);
    var r := CopyTable(src.accounts, db, Accounts, size, false, life);
    if r.outcome.Finished? {
      AccountsCover(src, r.db);
    }
    if AccountsIn(src, db) {
      AccountsStay(src, db, r.db, Accounts);
      AccountsStay(src, db, CloseSession(r, Accounts), Accounts);
    }
  }

  predicate FullLive(run: Run) {
    run.target == None && !run.dry
  }

  lemma FullRunKeepsOrder(src: Source, w: World, run: Run)
    requires KeyedSource(src) && Covered(src) && Sound(src, w.db) && Ordered(src, w.db) && FullLive(run)
    ensures Ordered(src, RunMigration(src, w, run).0.db)
  {
    hide CopyTable, CloseSession, Sound, Covered, AccountsIn, Grounded, HasOrphans, KeyedSource;
    AccountsKeepOrder(src, w.db, run.size, run.life);
    var r := CopyTable(src.accounts, w.db, Accounts, run.size, false, run.life);
    var next := World(r.db, w.commits.Set(Accounts, w.commits.Get(Accounts) + r.committed));
    assert TABLES[0] == Accounts && Accounts !in TABLES[1..];
    if r.outcome.Finished? {
      ChildrenKeepOrder(src, next, TABLES[1..], run.size, r.life);
    }
    var c := CopyTables(src, w, TABLES, run.size, false, run.life);
    assert Ordered(src, c.world.db);
    var db := RunMigration(src, w, run).0.db;
    assert db.tables == c.world.db.tables;
    SameTablesOrdered(src, c.world.db, db);
  }

  lemma SameTablesOrdered(src: Source, db: Db, db': Db)
    requires db'.tables == db.tables && Ordered(src, db)
    ensures Ordered(src, db')
  {
    hide HasAccount, Grounded;
    assert forall t: Table :: db'.At(t) == db.At(t);
  }

  /** In full live runs from an empty target no committed state holds a child row without its account
      when the source has none, wherever the runs were cut and even when the target does not check:
      the order of the five tables suffices. */
  lemma HistoryHasNoOrphans(src: Source, enforced: bool, runs: seq<Run>)
    requires KeyedSource(src) && Covered(src)
    requires forall n :: 0 <= n < |runs| ==> FullLive(runs[n])
    ensures !HasOrphans(History(src, enforced, runs).db)
  {
    HistoryOrdered(src, enforced, runs);
    OrderedHasNoOrphans(src, History(src, enforced, runs).db);
  }

  lemma {:induction false} HistoryOrdered(src: Source, enforced: bool, runs: seq<Run>)
    requires KeyedSource(src) && Covered(src)
    requires forall n :: 0 <= n < |runs| ==> FullLive(runs[n])
    ensures Ordered(src, History(src, enforced, runs).db)
  {
    hide Covered, KeyedSource, RunMigration, Sound;
    if runs != [] {
      var before := runs[..|runs| - 1];
      HistoryOrdered(src, enforced, before);
      HistorySound(src, enforced, before);
      hide Ordered;
      FullRunKeepsOrder(src, History(src, enforced, before), runs[|runs| - 1]);
    }
  }

  // ---------------------------------------------------------------- a target that checks

  lemma CommitAddsNoOrphan(db: Db, t: Table, rows: seq<TargetRow>, checkpoint: Option<Checkpoint>)
    requires db.enforced && !HasOrphans(db)
    ensures match Commit(db, t, rows, checkpoint) case None => true case Some(next) => next.enforced && !HasOrphans(next)
  {
    hide FitsColumns;
    match Commit(db, t, rows, checkpoint)
    case None =>
    case Some(next) =>
      assert db.At(Accounts).Ids() <= next.At(Accounts).Ids() by {
        assert forall r :: r in db.At(Accounts).rows ==> r in next.At(Accounts).rows;
      }
      forall u: Table, r | u != Accounts && r in next.At(u).rows
        ensures r.accountId in next.At(Accounts).Ids()
      {
        assert r in db.At(u).rows || (u == t && r in rows);
      }
  }

  lemma {:induction false} CopyAddsNoOrphan(job: Job, loop: Loop)
    requires loop.db.enforced && !HasOrphans(loop.db)
    ensures Copy(job, loop).db.enforced && !HasOrphans(Copy(job, loop).db)
    decreases |loop.rest|
  {
    hide HasOrphans, Commit, Staged;
    var part := loop.rest[..ChunkLength(job.size, |loop.rest|)];
    CommitAddsNoOrphan(loop.db, job.table, Staged(job.table, part), Some(NextCheckpoint(job, loop, part)));
    match ChunkStep(job, loop)
    case Stop(_) =>
    case Next(next) => CopyAddsNoOrphan(job, next);
  }

  lemma {:induction false} CopyTablesAddsNoOrphan(src: Source, w: World, plan: seq<Table>, size: int, dry: bool, life: Life)
    requires w.db.enforced && !HasOrphans(w.db)
    ensures var db := CopyTables(src, w, plan, size, dry, life).world.db; db.enforced && !HasOrphans(db)
    decreases |plan|
  {
    hide HasOrphans, Commit, Copy;
    if plan != [] {
      var t := plan[0];
      var r := CopyTable(src.Get(t), w.db, t, size, dry, life);
      CopyAddsNoOrphan(StartJob(w.db, t, size, dry), StartLoop(src.Get(t), w.db, t, life));
      if r.outcome.Finished? {
        CopyTablesAddsNoOrphan(src, World(r.db, w.commits.Set(t, w.commits.Get(t) + r.committed)), plan[1..], size, dry, r.life);
      } else {
        CommitAddsNoOrphan(r.db, t, r.pending, None);
      }
    }
  }

  lemma SameTablesNoOrphan(db: Db, db': Db)
    requires db'.tables == db.tables && !HasOrphans(db)
    ensures !HasOrphans(db')
  {
    forall t: Table, r | t != Accounts && r in db'.At(t).rows
      ensures r.accountId in db'.At(Accounts).Ids()
    {
      assert r in db.At(t).rows;
      assert db'.At(Accounts) == db.At(Accounts);
    }
  }

  lemma RunAddsNoOrphan(src: Source, w: World, run: Run)
    requires w.db.enforced && !HasOrphans(w.db)
    ensures var db := RunMigration(src, w, run).0.db; db.enforced && !HasOrphans(db)
  {
    hide HasOrphans, CopyTables;
    CopyTablesAddsNoOrphan(src, w, Plan(run.target), run.size, run.dry, run.life);
    var c := CopyTables(src, w, Plan(run.target), run.size, run.dry, run.life);
    SameTablesNoOrphan(c.world.db, RunMigration(src, w, run).0.db);
  }

  /** When the target checks, that holds for every source and every history. */
  lemma {:induction false} EnforcedHistoryHasNoOrphans(src: Source, runs: seq<Run>)
    ensures var db := History(src, true, runs).db; db.enforced && !HasOrphans(db)
  {
    if runs != [] {
      EnforcedHistoryHasNoOrphans(src, runs[..|runs| - 1]);
      hide HasOrphans, RunMigration;
      RunAddsNoOrphan(src, History(src, true, runs[..|runs| - 1]), runs[|runs| - 1]);
    }
  }
}
