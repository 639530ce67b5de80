/**
 What rows that cannot be converted do to whole runs and whole histories. Which run leaves a table
 with rows beyond its checkpoint (for good, by TableCopy.StuckForever) is decided by the source and
 the target before the run.
 */
module RunVerdicts {
  import opened Options
  import opened MigrationModel
  import opened TableCopy
  import opened BadRows
  import opened MigrationRun

  predicate AllConsistent(src: Source, db: Db) {
    forall t: Table :: Consistent(WholeRead(src, t), t, db.At(t))
  }

  /** The account ids the target holds by the time the child tables of this plan are read. */
  function RefsOf(src: Source, db: Db, plan: seq<Table>, dry: bool): Option<set<int>> {
    if db.enforced && !dry && Accounts in plan then Some(set a | a in WholeRead(src, Accounts) :: a.id)
    else AccountRefs(db)
  }

  /** The first planned table that does not finish. */
  function Stopper(src: Source, db: Db, plan: seq<Table>, refs: Option<set<int>>, dry: bool): Option<Table> {
    if plan == [] then None
    else if Finishes(refs, plan[0], db.At(plan[0]).rows, Unread(src.Get(plan[0]), db, plan[0]), dry)
    then Stopper(src, db, plan[1..], refs, dry)
    else Some(plan[0])
  }

  /** The loop over this table ends by itself. */
  predicate Ends(src: Source, db: Db, t: Table, refs: Option<set<int>>, dry: bool) {
    Finishes(refs, t, db.At(t).rows, Unread(src.Get(t), db, t), dry)
  }

  predicate PlanEnds(src: Source, db: Db, plan: seq<Table>, refs: Option<set<int>>, dry: bool) {
    forall t :: t in plan ==> Ends(src, db, t, refs, dry)
  }

  /** It is spoiled by its unread rows. */
  predicate PlanSpoils(src: Source, db: Db, plan: seq<Table>, refs: Option<set<int>>, size: int, dry: bool) {
    match Stopper(src, db, plan, refs, dry)
    case None => false
    case Some(t) => Spoils(refs, t, db.At(t).rows, Unread(src.Get(t), db, t), size, dry)
  }

  /** The target refuses what a commit of it offers. */
  predicate PlanRefused(src: Source, db: Db, plan: seq<Table>, refs: Option<set<int>>, size: int, dry: bool) {
    match Stopper(src, db, plan, refs, dry)
    case None => false
    case Some(t) => Refuses(refs, t, db.At(t).rows, Unread(src.Get(t), db, t), size, dry)
  }

  predicate RunSpoils(src: Source, db: Db, run: Run) {
    PlanSpoils(src, db, Plan(run.target), RefsOf(src, db, Plan(run.target), run.dry), run.size, run.dry)
  }

  predicate RunRefused(src: Source, db: Db, run: Run) {
    PlanRefused(src, db, Plan(run.target), RefsOf(src, db, Plan(run.target), run.dry), run.size, run.dry)
  }

  /** Only the positions of the planned tables matter. */
  lemma {:induction false} SamePositions(src: Source, db: Db, db': Db, plan: seq<Table>,
          refs: Option<set<int>>, size: int, dry: bool)
    requires forall t :: t in plan ==> db'.At(t) == db.At(t)
    ensures Stopper(src, db', plan, refs, dry) == Stopper(src, db, plan, refs, dry)
    ensures PlanSpoils(src, db', plan, refs, size, dry) <==> PlanSpoils(src, db, plan, refs, size, dry)
    ensures PlanRefused(src, db', plan, refs, size, dry) <==> PlanRefused(src, db, plan, refs, size, dry)
    ensures PlanEnds(src, db', plan, refs, dry) <==> PlanEnds(src, db, plan, refs, dry)
  {
    hide Finishes, Spoils, Refuses, SelectAfter;
    if plan != [] {
      SamePositions(src, db, db', plan[1..], refs, size, dry);
    }
  }

  /** A table loop of any life: killed, it does no harm; else it ends as the surviving one does. */
  lemma LoopVerdict(src: Source, db: Db, t: Table, size: int, dry: bool, life: Life)
    requires KeyedSource(src) && AllConsistent(src, db)
    ensures var r := CopyTable(src.Get(t), db, t, size, dry, life);
            var rest, refs := Unread(src.Get(t), db, t), AccountRefs(db);
            && AllConsistent(src, r.db) && SameElsewhere(db, r.db, t) && (dry ==> r.db == db)
            && (life == Immortal ==> r.life == Immortal && !r.outcome.Killed?)
            && (r.outcome.Killed? ==> CloseSession(r, t) == r.db && !Escapes(r, t))
            && (r.outcome.Refused? ==> Escapes(r, t))
            && (!r.outcome.Killed? ==>
                  && (r.outcome.Finished? <==> Finishes(refs, t, db.At(t).rows, rest, dry))
                  && (Escapes(r, t) <==> Refuses(refs, t, db.At(t).rows, rest, size, dry))
                  && (AllConsistent(src, CloseSession(r, t)) <==> !Spoils(refs, t, db.At(t).rows, rest, size, dry))
                  && (dry ==> (CloseSession(r, t) == db <==> !Spoils(refs, t, db.At(t).rows, rest, size, dry))))
            && (r.outcome.Finished? && !dry ==> Complete(src, t, r.db))
  {
    hide Copy, Finishes, Spoils, Refuses, Consistent, Admits, Staged, SelectAfter, UniqueIds;
    var rows := src.Get(t);
    BadRowVerdict(rows, db, t, size, dry);
    CopyTableOutcome(rows, db, t, size, dry, life);
    LifeOnlyKills(StartJob(db, t, size, dry), StartLoop(rows, db, t, life));
    var r := CopyTable(rows, db, t, size, dry, life);
    assert AllConsistent(src, CloseSession(r, t)) <==> Consistent(WholeRead(src, t), t, CloseSession(r, t).At(t));
    if r.outcome.Finished? && !dry {
      FullIsComplete(src, t, r.db);
    }
  }

  /** What the accounts of the target are once they have all been copied. */
  lemma AccountsCopied(src: Source, db: Db)
    requires Complete(src, Accounts, db)
    ensures db.At(Accounts).Ids() == set a | a in WholeRead(src, Accounts) :: a.id
  {
    hide Staged, SelectAfter;
    var all, rows := WholeRead(src, Accounts), db.At(Accounts).rows;
    StagedPrefix(Accounts, all);
    forall id
      ensures id in db.At(Accounts).Ids() <==> id in set a | a in all :: a.id
    {
      if r :| r in rows && r.id == id {
        var i :| 0 <= i < |rows| && rows[i] == r;
        assert all[i] in all;
      }
      if a :| a in all && a.id == id {
        var i :| 0 <= i < |all| && all[i] == a;
        assert rows[i] in rows;
      }
    }
  }

  /** Accounts come first in a plan, if at all, and no table comes twice. */
  predicate Orderly(plan: seq<Table>) {
    && (forall i, j :: 0 <= i < j < |plan| ==> plan[i] != plan[j])
    && (Accounts in plan ==> plan[0] == Accounts)
  }

  /** The refs matter to child tables only. */
  lemma RefsForAccounts(refs: Option<set<int>>, refs': Option<set<int>>, held: seq<TargetRow>,
          rows: seq<SourceRow>, size: int, dry: bool)
    ensures Finishes(refs, Accounts, held, rows, dry) <==> Finishes(refs', Accounts, held, rows, dry)
    ensures Spoils(refs, Accounts, held, rows, size, dry) <==> Spoils(refs', Accounts, held, rows, size, dry)
    ensures Refuses(refs, Accounts, held, rows, size, dry) <==> Refuses(refs', Accounts, held, rows, size, dry)
  {
    hide Staged, ConvertRow, FitsColumns, TailLength, NewKey;
    assert forall r :: Acceptable(refs, Accounts, r) <==> Acceptable(refs', Accounts, r);
  }

  /** A plan is judged by its first table, or by the others once that one finishes. */
  lemma FirstDecides(src: Source, db: Db, plan: seq<Table>, refs: Option<set<int>>, size: int, dry: bool)
    requires plan != []
    ensures var t := plan[0];
            var rest := Unread(src.Get(t), db, t);
            if Finishes(refs, t, db.At(t).rows, rest, dry) then
              && (PlanSpoils(src, db, plan, refs, size, dry) <==> PlanSpoils(src, db, plan[1..], refs, size, dry))
              && (PlanRefused(src, db, plan, refs, size, dry) <==> PlanRefused(src, db, plan[1..], refs, size, dry))
            else
              && (PlanSpoils(src, db, plan, refs, size, dry) <==> Spoils(refs, t, db.At(t).rows, rest, size, dry))
              && (PlanRefused(src, db, plan, refs, size, dry) <==> Refuses(refs, t, db.At(t).rows, rest, size, dry))
    ensures PlanEnds(src, db, plan, refs, dry) <==>
            Ends(src, db, plan[0], refs, dry) && PlanEnds(src, db, plan[1..], refs, dry)
    ensures Ends(src, db, plan[0], refs, dry) <==>
            Finishes(refs, plan[0], db.At(plan[0]).rows, Unread(src.Get(plan[0]), db, plan[0]), dry)
  {
    hide Finishes, Spoils, Refuses, SelectAfter;
    assert forall u :: u in plan <==> u == plan[0] || u in plan[1..];
  }

  lemma EmptyPlan(src: Source, db: Db, refs: Option<set<int>>, size: int, dry: bool)
    ensures !PlanSpoils(src, db, [], refs, size, dry) && !PlanRefused(src, db, [], refs, size, dry)
    ensures PlanEnds(src, db, [], refs, dry)
  {}

  lemma {:induction false} PlanVerdict(src: Source, w: World, plan: seq<Table>, size: int, dry: bool, life: Life)
    requires KeyedSource(src) && AllConsistent(src, w.db) && Orderly(plan)
    ensures var c := CopyTables(src, w, plan, size, dry, life);
            var refs := RefsOf(src, w.db, plan, dry);
            var spoils := PlanSpoils(src, w.db, plan, refs, size, dry);
            && (c.outcome.Killed? ==> AllConsistent(src, c.world.db) && (dry ==> c.world.db == w.db))
            && (!c.outcome.Killed? ==>
                  && (AllConsistent(src, c.world.db) <==> !spoils)
                  && (c.outcome.Refused? <==> PlanRefused(src, w.db, plan, refs, size, dry))
                  && (dry ==> (c.world.db == w.db <==> !spoils)))
            && (c.outcome.Finished? ==> !spoils)
            && (!c.outcome.Killed? ==> (c.outcome.Finished? <==> PlanEnds(src, w.db, plan, refs, dry)))
            && (life == Immortal ==> c.life == Immortal && !c.outcome.Killed?)
    decreases |plan|
  {
    hide CopyTable, CloseSession, Finishes, Spoils, Refuses, AllConsistent, SelectAfter, Complete;
    hide AccountRefs, Escapes, PlanSpoils, PlanRefused, PlanEnds, Ends;
    if plan == [] {
      EmptyPlan(src, w.db, RefsOf(src, w.db, plan, dry), size, dry);
    } else {
      var t, refs := plan[0], RefsOf(src, w.db, plan, dry);
      var rest := Unread(src.Get(t), w.db, t);
      LoopVerdict(src, w.db, t, size, dry, life);
      RefsForAccounts(refs, AccountRefs(w.db), w.db.At(t).rows, rest, size, dry);
      FirstDecides(src, w.db, plan, refs, size, dry);
      var r := CopyTable(src.Get(t), w.db, t, size, dry, life);
      if r.outcome.Finished? {
        var next := World(r.db, w.commits.Set(t, w.commits.Get(t) + r.committed));
        PlanVerdict(src, next, plan[1..], size, dry, r.life);
        RefsAfter(src, w.db, r.db, plan, dry);
        SamePositions(src, w.db, r.db, plan[1..], refs, size, dry);
        if plan[1..] == [] {
          EmptyPlan(src, r.db, RefsOf(src, r.db, [], dry), size, dry);
          EmptyPlan(src, w.db, refs, size, dry);
        }
      }
    }
  }

  lemma RefsAfter(src: Source, db: Db, db': Db, plan: seq<Table>, dry: bool)
    requires plan != [] && Orderly(plan) && SameElsewhere(db, db', plan[0])
    requires dry ==> db' == db
    requires !dry ==> Complete(src, plan[0], db')
    ensures plan[1..] != [] ==> RefsOf(src, db', plan[1..], dry) == RefsOf(src, db, plan, dry)
  {
    hide SelectAfter, Complete;
    if !dry && plan[0] == Accounts {
      AccountsCopied(src, db');
    }
  }

  /** Which runs do harm. From consistent tables a run the process survives leaves some table
      inconsistent (a dry one: changes anything) if and only if the source and the target before it
      say so; a run cut short by the death of the process never does. In the same terms, a surviving run
      writes no manifest if and only if the target refuses a commit. */
  lemma RunVerdict(src: Source, w: World, run: Run)
    requires KeyedSource(src) && AllConsistent(src, w.db)
    ensures var (w', status) := RunMigration(src, w, run);
            && (AllConsistent(src, w'.db) <==> status == Dead || !RunSpoils(src, w.db, run))
            && (run.dry ==> (w'.db == w.db <==> status == Dead || !RunSpoils(src, w.db, run)))
            && (status != Dead ==> (status == Escaped <==> RunRefused(src, w.db, run)))
            && (run.life == Immortal ==> status != Dead)
  {
    hide CopyTables, HasOrphans, PlanSpoils, PlanRefused, RefsOf, Consistent, Reseeded;
    var plan := Plan(run.target);
    PlanVerdict(src, w, plan, run.size, run.dry, run.life);
    var c := CopyTables(src, w, plan, run.size, run.dry, run.life);
    ReseededSame(c.world.db);
    assert forall t: Table :: RunMigration(src, w, run).0.db.At(t) == c.world.db.At(t);
  }

  lemma ReseededSame(db: Db)
    ensures Reseeded(db).tables == db.tables
  {}

  // ---------------------------------------------------------------- histories

  lemma {:induction false} CopyTablesKeepStuck(src: Source, w: World, plan: seq<Table>,
          size: int, dry: bool, life: Life, t: Table)
    requires KeyedSource(src) && Stuck(WholeRead(src, t), w.db.At(t))
    ensures Stuck(WholeRead(src, t), CopyTables(src, w, plan, size, dry, life).world.db.At(t))
    decreases |plan|
  {
    hide CopyTable, CloseSession, Stuck, SelectAfter, UniqueIds;
    if plan != [] {
      var u := plan[0];
      CheckpointNeverFalls(src.Get(u), w.db, u, size, dry, life);
      if u == t {
        StuckForever(src.Get(u), w.db, u, size, dry, life);
      }
      var r := CopyTable(src.Get(u), w.db, u, size, dry, life);
      if r.outcome.Finished? {
        CopyTablesKeepStuck(src, World(r.db, w.commits.Set(u, w.commits.Get(u) + r.committed)), plan[1..], size, dry, r.life, t);
      }
    }
  }

  lemma HarmIsForever(src: Source, w: World, run: Run)
    requires KeyedSource(src) && Sound(src, w.db) && !AllConsistent(src, w.db)
    ensures !AllConsistent(src, RunMigration(src, w, run).0.db)
  {
    hide CopyTables, HasOrphans, Consistent, Stuck, Reseeded, SelectAfter;
    var t: Table :| !Consistent(WholeRead(src, t), t, w.db.At(t));
    assert SoundTable(src, t, w.db);
    CopyTablesKeepStuck(src, w, Plan(run.target), run.size, run.dry, run.life, t);
    var c := CopyTables(src, w, Plan(run.target), run.size, run.dry, run.life);
    ReseededSame(c.world.db);
    WholeReadOrdered(src.Get(t));
    NotBoth(WholeRead(src, t), t, c.world.db.At(t));
    assert RunMigration(src, w, run).0.db.At(t) == c.world.db.At(t);
  }

  /** The n-th run of a history dies, or is not spoiled by what it starts from. */
  predicate Harmless(src: Source, enforced: bool, runs: seq<Run>, n: nat)
    requires n < |runs|
  {
    var before := History(src, enforced, runs[..n]);
    RunMigration(src, before, runs[n]).1 == Dead || !RunSpoils(src, before.db, runs[n])
  }

  /** A history leaves every table in step with its checkpoint if and only if all its runs are
      harmless. */
  lemma {:induction false} HistoryVerdict(src: Source, enforced: bool, runs: seq<Run>)
    requires KeyedSource(src)
    ensures AllConsistent(src, History(src, enforced, runs).db) <==>
            forall n :: 0 <= n < |runs| ==> Harmless(src, enforced, runs, n)
  {
    hide Consistent, RunMigration, RunSpoils, KeyedSource, Sound, EmptyDb;
    if runs == [] {
      forall t: Table
        ensures Consistent(WholeRead(src, t), t, EmptyDb(enforced).At(t))
      {
        EmptyConsistent(src, t, enforced);
      }
    } else {
      var last := |runs| - 1;
      var before := runs[..last];
      HistoryVerdict(src, enforced, before);
      assert forall n :: 0 <= n < last ==> before[..n] == runs[..n] && before[n] == runs[n];
      assert forall n :: 0 <= n < last ==> (Harmless(src, enforced, before, n) <==> Harmless(src, enforced, runs, n));
      hide AllConsistent;
      var w := History(src, enforced, before);
      HistorySound(src, enforced, before);
      if AllConsistent(src, w.db) {
        RunVerdict(src, w, runs[last]);
        assert runs[..last] == before;
        assert AllConsistent(src, RunMigration(src, w, runs[last]).0.db) <==> Harmless(src, enforced, runs, last);
      } else {
        HarmIsForever(src, w, runs[last]);
      }
    }
  }

  const TWO_ACCOUNTS: Source := PerTable([GOOD, BAD], [], [], [], [])

  lemma TwoAccountsSpoil(enforced: bool, dry: Run)
    requires dry.target == None && dry.size == 500 && dry.dry
    ensures KeyedSource(TWO_ACCOUNTS) && RunSpoils(TWO_ACCOUNTS, EmptyDb(enforced), dry)
  {
    var empty := EmptyDb(enforced);
    var refs := RefsOf(TWO_ACCOUNTS, empty, TABLES, true);
    TwoRowsSpoil(refs, true);
    EmptyIsConsistent([GOOD, BAD], Accounts, enforced);
    assert KeyedSource(TWO_ACCOUNTS);
    hide UniqueIds, SelectAfter, Staged, Takes, PlanSpoils;
    assert TABLES[0] == Accounts && !Finishes(refs, Accounts, [], [GOOD, BAD], true);
    FirstDecides(TWO_ACCOUNTS, empty, TABLES, refs, 500, true);
  }

  /** The smallest harmful run: a first dry run over two accounts, the second with text in its
      balance, with the script's default chunk size. */
  lemma DryRunWrites(enforced: bool, hash: string)
    ensures var dry := Run(None, 500, true, Immortal, hash, hash);
            var (w, status) := RunMigration(TWO_ACCOUNTS, History(TWO_ACCOUNTS, enforced, []), dry);
            w.db != EmptyDb(enforced) && !AllConsistent(TWO_ACCOUNTS, w.db)
  {
    var dry := Run(None, 500, true, Immortal, hash, hash);
    TwoAccountsSpoil(enforced, dry);
    HistoryVerdict(TWO_ACCOUNTS, enforced, []);
    hide RunMigration, AllConsistent, EmptyDb, RunSpoils, RunRefused, KeyedSource;
    RunVerdict(TWO_ACCOUNTS, History(TWO_ACCOUNTS, enforced, []), dry);
  }
}
