/**
 The migration script itself, on a mutable database session: pending rows and an uncommitted
 checkpoint that a commit writes together and a rollback drops. Its methods are proved to compute
 the functions of TableCopy and MigrationRun for a process that survives.
 */
module MigrationScript {
  import opened Options
  import opened MigrationModel
  import opened TableCopy
  import opened MigrationRun

  class PgSession {
    /** What is committed. */
    var db: Db
    /** Rows added but not flushed, all of table `target`, and the upsert executed for it. */
    var target: Table
    var pending: seq<TargetRow>
    var checkpoint: Option<Checkpoint>
    /** After a refused commit, until a rollback, every statement raises. */
    var inactive: bool

    constructor (initial: Db)
      ensures db == initial && Idle()
    {
      db, target, pending, checkpoint, inactive := initial, Accounts, [], None, false;
    }

    predicate Idle()
      reads this
    {
      pending == [] && checkpoint == None && !inactive
    }

    method GetCheckpoint(t: Table) returns (c: Checkpoint)
      requires Idle()
      ensures c == db.At(t).Position()
    {
      match db.At(t).checkpoint
      case Some(found) => return found;
      case None => return FRESH_CHECKPOINT;
    }

    method Add(t: Table, row: TargetRow)
      requires !inactive && checkpoint == None && (pending == [] || target == t)
      modifies this`target, this`pending
      ensures target == t && pending == old(pending) + [row]
    {
      target, pending := t, pending + [row];
    }

    method UpdateCheckpoint(t: Table, pk: int, chunk: nat, count: nat)
      requires !inactive && checkpoint == None && (pending == [] || target == t)
      modifies this`target, this`checkpoint
      ensures target == t && checkpoint == Some(Advance(db.At(t).checkpoint, pk, chunk, count))
    {
      target, checkpoint := t, Some(Advance(db.At(t).checkpoint, pk, chunk, count));
    }

    /** Flushes and commits; when the target refuses a row the whole transaction is rolled back. */
    method Commit() returns (ok: bool)
      requires !inactive
      modifies this`db, this`pending, this`checkpoint, this`inactive
      ensures pending == [] && checkpoint == None && inactive == !ok
      ensures old(Idle()) ==> ok && db == old(db)
      ensures !old(Idle()) ==>
                match MigrationModel.Commit(old(db), target, old(pending), old(checkpoint))
                case Some(written) => ok && db == written
                case None => !ok && db == old(db)
    {
      ok := true;
      if pending != [] || checkpoint != None {
        match MigrationModel.Commit(db, target, pending, checkpoint)
        case Some(written) => db := written;
        case None => ok := false;
      }
      pending, checkpoint, inactive := [], None, !ok;
    }

    method Rollback()
      modifies this`pending, this`checkpoint, this`inactive
      ensures Idle()
    {
      pending, checkpoint, inactive := [], None, false;
    }
  }

  lemma {:induction false} StagedExtends(t: Table, rows: seq<SourceRow>, i: nat)
    requires i < |rows| && |Staged(t, rows[..i])| == i
    ensures ConvertRow(t, rows[i]).Some? ==> Staged(t, rows[..i + 1]) == Staged(t, rows[..i]) + [ConvertRow(t, rows[i]).value]
    ensures ConvertRow(t, rows[i]).None? ==> Staged(t, rows) == Staged(t, rows[..i])
  {
    assert rows[..i + 1] == rows[..i] + [rows[i]];
    StagedConcat(t, rows[..i], [rows[i]]);
    assert rows == rows[..i] + rows[i..];
    StagedConcat(t, rows[..i], rows[i..]);
    assert rows[i..][0] == rows[i];
    assert Staged(t, [rows[i]]) == if ConvertRow(t, rows[i]).Some? then [ConvertRow(t, rows[i]).value] else [];
  }

  lemma MaxIdExtends(start: int, rows: seq<SourceRow>, i: nat)
    requires i < |rows|
    ensures MaxId(start, rows[..i + 1]) == if rows[i].id > MaxId(start, rows[..i]) then rows[i].id else MaxId(start, rows[..i])
  {
    assert rows[..i + 1][..i] == rows[..i];
  }

  /** The inner loop: adds the rows of one chunk until one does not convert. */
  method StageChunk(s: PgSession, t: Table, part: seq<SourceRow>, lastPk: int) returns (raised: bool, maxId: int)
    requires s.Idle()
    modifies s`target, s`pending
    ensures s.pending == Staged(t, part) && (s.pending == [] || s.target == t)
    ensures raised <==> |Staged(t, part)| < |part|
    ensures !raised ==> maxId == MaxId(lastPk, part)
  {
    raised, maxId := false, lastPk;
    var i := 0;
    while i < |part|
      invariant 0 <= i <= |part| && !raised
      invariant s.pending == Staged(t, part[..i]) && |s.pending| == i && (s.pending == [] || s.target == t)
      invariant maxId == MaxId(lastPk, part[..i])
    {
      StagedExtends(t, part, i);
      MaxIdExtends(lastPk, part, i);
      match ConvertRow(t, part[i])
      case None =>
        raised := true;
        return;
      case Some(row) =>
        s.Add(t, row);
      if part[i].id > maxId {
        maxId := part[i].id;
      }
      i := i + 1;
    }
    assert part[..i] == part;
  }

  /** One table loop. An exception returns at once and leaves the staged rows in the session. */
  method MigrateTable(s: PgSession, rows: seq<SourceRow>, t: Table, size: int, dry: bool) returns (raised: bool)
    requires s.Idle()
    modifies s
    ensures var r := CopyTable(rows, old(s.db), t, size, dry, Immortal);
            && s.db == r.db && s.pending == r.pending && s.checkpoint == None
            && (s.pending == [] || s.target == t)
            && (raised <==> r.outcome.Raised? || r.outcome.Refused?) && (!raised <==> r.outcome.Finished?)
            && (s.inactive <==> r.outcome.Refused?) && (s.inactive ==> s.pending == [])
            && (!raised ==> s.Idle())
  {
    hide Admits, Staged, SelectAfter, MaxId;
    var start := s.GetCheckpoint(t);
    var chunk := start.lastChunk;
    var cursor := SelectAfter(rows, start.lastPk);
    ghost var job := StartJob(s.db, t, size, dry);
    ghost var committed := 0;
    raised := false;
    while cursor != []
      invariant !raised && s.Idle()
      invariant CopyTable(rows, old(s.db), t, size, dry, Immortal)
                == Copy(job, Loop(s.db, chunk, cursor, Immortal, committed))
      decreases |cursor|
    {
      var n := ChunkLength(size, |cursor|);
      var part := cursor[..n];
      ghost var loop := Loop(s.db, chunk, cursor, Immortal, committed);
      cursor := cursor[n..];
      chunk := chunk + 1;
      var maxId;
      raised, maxId := StageChunk(s, t, part, start.lastPk);
      if raised {
        return;
      }
      if dry {
        s.Rollback();
      } else {
        s.UpdateCheckpoint(t, maxId, chunk, n);
        assert s.checkpoint == Some(NextCheckpoint(job, loop, part));
        var ok := s.Commit();
        if !ok {
          raised := true;
          return;
        }
        committed := committed + 1;
      }
      assert ChunkStep(job, loop) == Next(Loop(s.db, chunk, cursor, Immortal, committed));
    }
  }

  /** The tables of TABLES[i..] a run has still to copy. */
  ghost function Remaining(target: Option<Table>, i: nat): seq<Table>
    requires i <= 5
    decreases 5 - i
  {
    if i == 5 then []
    else if target in {None, Some(TABLES[i])} then [TABLES[i]] + Remaining(target, i + 1)
    else Remaining(target, i + 1)
  }

  lemma {:induction false} RemainingOne(t: Table, i: nat)
    requires i <= 5
    ensures Remaining(Some(t), i) == if t in TABLES[i..] then [t] else []
    decreases 5 - i
  {
    if i < 5 {
      RemainingOne(t, i + 1);
      NoTableTwice(i);
    }
  }

  lemma NoTableTwice(i: nat)
    requires i < 5
    ensures TABLES[i..] == [TABLES[i]] + TABLES[i + 1..] && TABLES[i] !in TABLES[i + 1..]
  {}

  lemma RemainingIsPlan(target: Option<Table>)
    ensures Remaining(target, 0) == Plan(target)
  {
    match target
    case None =>
      assert Remaining(target, 3) == [Transactions] + ([TradeHistory] + []);
      assert Remaining(target, 1) == [Orders] + ([Positions] + Remaining(target, 3));
    case Some(t) =>
      RemainingOne(t, 0);
      EveryTableListed(t);
      assert TABLES[0..] == TABLES;
  }

  /** `if target_table in (None, <table i>): await migrate_<table i>(...)`, skipped once an
      exception is on its way to the `finally` block. */
  method MigrateIfWanted(s: PgSession, src: Source, run: Run, i: nat, raised: bool, ghost w: World)
    returns (raised': bool, ghost w': World)
    requires i < 5 && run.life == Immortal
    requires raised || (s.Idle() && s.db == w.db)
    requires s.inactive ==> s.pending == []
    modifies s
    ensures raised ==> raised' && unchanged(s)
    ensures var c := CopyTables(src, w, Remaining(run.target, i), run.size, run.dry, Immortal);
            && (!raised && raised' ==> s.checkpoint == None && c.world.db == Closed(s)
                                       && c.outcome == if s.inactive || !Closable(s) then Refused else Raised)
            && (s.inactive ==> s.pending == [])
            && (!raised && !raised' ==> s.Idle() && s.db == w'.db
                                        && c == CopyTables(src, w', Remaining(run.target, i + 1), run.size, run.dry, Immortal))
  {
    hide Copy, Staged, SelectAfter, Admits;
    raised', w' := raised, w;
    if !raised && run.target in {None, Some(TABLES[i])} {
      var t := TABLES[i];
      ghost var r := CopyTable(src.Get(t), s.db, t, run.size, run.dry, Immortal);
      SurvivesImmortal(StartJob(s.db, t, run.size, run.dry), StartLoop(src.Get(t), s.db, t, Immortal));
      raised' := MigrateTable(s, src.Get(t), t, run.size, run.dry);
      w' := World(r.db, w.commits.Set(t, w.commits.Get(t) + r.committed));
      assert Remaining(run.target, i)[1..] == Remaining(run.target, i + 1);
    }
  }

  lemma {:induction false} SurvivesImmortal(job: Job, loop: Loop)
    requires loop.life == Immortal
    ensures Copy(job, loop).life == Immortal && !Copy(job, loop).outcome.Killed?
    decreases |loop.rest|
  {
    hide Commit, Staged;
    match ChunkStep(job, loop)
    case Stop(_) =>
    case Next(next) => SurvivesImmortal(job, next);
  }

  /** The target after the commit that closes the session. */
  ghost function Closed(s: PgSession): Db
    reads s
  {
    if s.pending == [] then s.db
    else
      match MigrationModel.Commit(s.db, s.target, s.pending, None)
      case Some(written) => written
      case None => s.db
  }

  /** The target takes what the session still holds. */
  ghost predicate Closable(s: PgSession)
    reads s
  {
    s.pending == [] || Admits(s.db, s.target, s.pending)
  }

  lemma NothingLeft(src: Source, w: World, run: Run)
    ensures CopyTables(src, w, Remaining(run.target, 5), run.size, run.dry, Immortal) == CopyAll(w, Finished, Immortal)
  {}

  /** The `finally` block: unlock, commit, and then the manifest. */
  method Finally(s: PgSession, raised: bool) returns (status: Status)
    requires s.checkpoint == None && (s.inactive ==> s.pending == [])
    modifies s
    ensures s.pending == [] && s.checkpoint == None && s.db == old(Closed(s))
    ensures status == if old(s.inactive || !Closable(s)) then Escaped else if raised then Failed else Success
  {
    hide Admits;
    status := if raised then Failed else Success;
    if s.inactive {
      return Escaped;
    }
    var ok := s.Commit();
    if !ok {
      status := Escaped;
    }
  }

  /** The whole script from the first table to the manifest status. */
  method Migrate(s: PgSession, src: Source, run: Run, ghost w: World) returns (status: Status)
    requires s.Idle() && s.db == w.db && run.life == Immortal
    modifies s
    ensures s.pending == [] && s.checkpoint == None
    ensures var (w', expected) := RunMigration(src, w, run);
            s.db == w'.db && status == expected
  {
    hide CopyTables, Reseeded, HasOrphans, Admits, Plan;
    RemainingIsPlan(run.target);
    ghost var w1, w2, w3, w4, w5;
    var raised := false;
    raised, w1 := MigrateIfWanted(s, src, run, 0, raised, w);
    raised, w2 := MigrateIfWanted(s, src, run, 1, raised, w1);
    raised, w3 := MigrateIfWanted(s, src, run, 2, raised, w2);
    raised, w4 := MigrateIfWanted(s, src, run, 3, raised, w3);
    raised, w5 := MigrateIfWanted(s, src, run, 4, raised, w4);
    if !raised {
      if !run.dry && run.target.None? {
        s.db := Reseeded(s.db);
        raised := CountOrphans(s.db);
      }
      if run.startHash != run.endHash {
        raised := true;
      }
    }
    NothingLeft(src, w5, run);
    status := Finally(s, raised);
  }

  /** The four COUNT queries of the foreign-key validation. */
  method CountOrphans(db: Db) returns (found: bool)
    ensures found <==> HasOrphans(db)
  {
    var ids := db.At(Accounts).Ids();
    found := exists t | t in {Orders, Positions, Transactions, TradeHistory} ::
      exists r | r in db.At(t).rows :: r.accountId !in ids;
  }
}
