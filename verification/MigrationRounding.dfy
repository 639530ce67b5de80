/**
 Rounding over the columns of whatever a history of runs left in the target: rows that failed to
 convert, stuck tables and all. Every committed row comes from one source row, so the totals can be
 compared with those of the rows the target holds.
 */
module MigrationRounding {
  import opened Options
  import opened Decimals
  import opened MigrationModel
  import opened TableCopy
  import opened MigrationRun

  // ---------------------------------------------------------------- where committed rows come from

  predicate IsOrigin(src: Source, t: Table, x: SourceRow, row: TargetRow) {
    x in WholeRead(src, t) && ConvertRow(t, x) == Some(row)
  }

  ghost predicate HasOrigin(src: Source, t: Table, row: TargetRow) {
    exists x :: IsOrigin(src, t, x, row)
  }

  /** Every row is the conversion of a source row. */
  ghost predicate FromSource(src: Source, t: Table, rows: seq<TargetRow>) {
    forall row :: row in rows ==> HasOrigin(src, t, row)
  }

  /** And no id is there twice. */
  ghost predicate TracedTable(src: Source, t: Table, s: TableState) {
    FromSource(src, t, s.rows) && DistinctIds(s.rows) && s.Position().lastPk >= 0
  }

  ghost predicate Traced(src: Source, db: Db) {
    forall t: Table :: TracedTable(src, t, db.At(t))
  }

  lemma StagedFromSource(src: Source, t: Table, part: seq<SourceRow>)
    requires forall x :: x in part ==> x in WholeRead(src, t)
    ensures FromSource(src, t, Staged(t, part))
  {
    hide Staged, WholeRead, ConvertRow;
    StagedPrefix(t, part);
    forall row | row in Staged(t, part)
      ensures HasOrigin(src, t, row)
    {
      var i :| 0 <= i < |Staged(t, part)| && Staged(t, part)[i] == row;
      assert IsOrigin(src, t, part[i], row);
    }
  }

  lemma CommitTraced(src: Source, db: Db, t: Table, rows: seq<TargetRow>, checkpoint: Option<Checkpoint>)
    requires FromSource(src, t, db.At(t).rows) && DistinctIds(db.At(t).rows) && FromSource(src, t, rows)
    ensures match Commit(db, t, rows, checkpoint)
            case None => true
            case Some(next) => FromSource(src, t, next.At(t).rows) && DistinctIds(next.At(t).rows)
  {
    hide HasOrigin, NewKeys, FitsColumns;
    if Admits(db, t, rows) {
      var held := db.At(t).rows;
      assert forall i :: 0 <= i < |held| ==> held[i] in held;
      assert forall i :: 0 <= i < |rows| ==> rows[i] in rows;
    }
  }

  lemma {:induction false} CopyTraced(src: Source, job: Job, loop: Loop)
    requires forall x :: x in loop.rest ==> x in WholeRead(src, job.table)
    requires FromSource(src, job.table, loop.db.At(job.table).rows) && DistinctIds(loop.db.At(job.table).rows)
    ensures var r := Copy(job, loop);
            && FromSource(src, job.table, r.db.At(job.table).rows) && DistinctIds(r.db.At(job.table).rows)
            && FromSource(src, job.table, r.pending)
    decreases |loop.rest|
  {
    var part := loop.rest[..ChunkLength(job.size, |loop.rest|)];
    assert forall x :: x in part ==> x in loop.rest;
    StagedFromSource(src, job.table, part);
    assert FromSource(src, job.table, []);
    hide FromSource, HasOrigin, DistinctIds, Staged, Commit, WholeRead;
    CommitTraced(src, loop.db, job.table, Staged(job.table, part), Some(NextCheckpoint(job, loop, part)));
    match ChunkStep(job, loop)
    case Stop(_) =>
    case Next(next) =>
      assert forall x :: x in next.rest ==> x in loop.rest;
      CopyTraced(src, job, next);
  }

  lemma TableTraced(src: Source, db: Db, t: Table, size: int, dry: bool, life: Life)
    requires KeyedSource(src) && Traced(src, db)
    ensures var r := CopyTable(src.Get(t), db, t, size, dry, life);
            Traced(src, r.db) && Traced(src, CloseSession(r, t))
  {
    hide Copy, Commit, FromSource, DistinctIds, OrderById, IdAbove;
    assert TracedTable(src, t, db.At(t));
    SelectAfterSorted(src.Get(t), 0);
    SelectAfterSorted(src.Get(t), db.At(t).Position().lastPk);
    CheckpointNeverFalls(src.Get(t), db, t, size, dry, life);
    CopyTraced(src, StartJob(db, t, size, dry), StartLoop(src.Get(t), db, t, life));
    var r := CopyTable(src.Get(t), db, t, size, dry, life);
    CommitTraced(src, r.db, t, r.pending, None);
    forall u: Table
      ensures TracedTable(src, u, r.db.At(u)) && TracedTable(src, u, CloseSession(r, t).At(u))
    {
      assert TracedTable(src, u, db.At(u));
    }
  }

  lemma {:induction false} PlanTraced(src: Source, w: World, plan: seq<Table>, size: int, dry: bool, life: Life)
    requires KeyedSource(src) && Traced(src, w.db)
    ensures Traced(src, CopyTables(src, w, plan, size, dry, life).world.db)
    decreases |plan|
  {
    hide CopyTable, CloseSession, Traced, KeyedSource;
    if plan != [] {
      var t := plan[0];
      TableTraced(src, w.db, t, size, dry, life);
      var r := CopyTable(src.Get(t), w.db, t, size, dry, life);
      if r.outcome.Finished? {
        PlanTraced(src, World(r.db, w.commits.Set(t, w.commits.Get(t) + r.committed)), plan[1..], size, dry, r.life);
      }
    }
  }

  /** At most once, whatever fails: in every history every committed row is the conversion of a source
      row, and no row is committed twice. */
  lemma {:induction false} HistoryTraced(src: Source, enforced: bool, runs: seq<Run>)
    requires KeyedSource(src)
    ensures Traced(src, History(src, enforced, runs).db)
  {
    hide CopyTables, HasOrphans, KeyedSource, FromSource, DistinctIds;
    if runs == [] {
      NothingTraced(src, enforced);
    } else {
      var w, run := History(src, enforced, runs[..|runs| - 1]), runs[|runs| - 1];
      HistoryTraced(src, enforced, runs[..|runs| - 1]);
      PlanTraced(src, w, Plan(run.target), run.size, run.dry, run.life);
      var c := CopyTables(src, w, Plan(run.target), run.size, run.dry, run.life);
      assert forall t: Table :: RunMigration(src, w, run).0.db.At(t) == c.world.db.At(t);
      assert forall t: Table :: TracedTable(src, t, c.world.db.At(t));
    }
  }

  lemma NothingTraced(src: Source, enforced: bool)
    ensures Traced(src, EmptyDb(enforced))
  {}

  /** The source rows the target rows come from, in the order of the target. */
  ghost function Origins(src: Source, t: Table, rows: seq<TargetRow>): (xs: seq<SourceRow>)
    requires FromSource(src, t, rows)
    ensures |xs| == |rows| && forall i :: 0 <= i < |rows| ==> IsOrigin(src, t, xs[i], rows[i])
  {
    if rows == [] then []
    else
      var n := |rows| - 1;
      assert rows[n] in rows && HasOrigin(src, t, rows[n]);
      var x :| IsOrigin(src, t, x, rows[n]);
      Origins(src, t, rows[..n]) + [x]
  }

  /** For a table in step with its checkpoint these are the first rows of the source. */
  lemma OriginsOfConsistent(src: Source, t: Table, s: TableState)
    requires KeyedSource(src) && FromSource(src, t, s.rows) && Consistent(WholeRead(src, t), t, s)
    ensures Origins(src, t, s.rows) == WholeRead(src, t)[..|s.rows|]
  {
    hide Staged, SelectAfter, Origins, FromSource;
    var all, xs := WholeRead(src, t), Origins(src, t, s.rows);
    SelectAfterSorted(src.Get(t), 0);
    StagedPrefix(t, all[..|s.rows|]);
    forall i | 0 <= i < |s.rows|
      ensures xs[i] == all[i]
    {
      ConvertsExactly(t, xs[i]);
      ConvertsExactly(t, all[i]);
      var j :| 0 <= j < |all| && all[j] == xs[i];
      assert all[j].id == all[i].id;
    }
  }

  // ---------------------------------------------------------------- rounding over a column

  /** Column c of some source rows, as stored. */
  function SourceColumn(rows: seq<SourceRow>, c: nat): seq<Cell>
    requires forall r :: r in rows ==> c < |r.amounts|
  {
    seq(|rows|, i requires 0 <= i < |rows| => assert rows[i] in rows; rows[i].amounts[c])
  }

  function TargetColumn(rows: seq<TargetRow>, c: nat): seq<Option<real>>
    requires forall r :: r in rows ==> c < |r.amounts|
  {
    seq(|rows|, i requires 0 <= i < |rows| => assert rows[i] in rows; rows[i].amounts[c])
  }

  function FilledColumn(column: seq<Cell>, cast: Cast): seq<Cell> {
    seq(|column|, i requires 0 <= i < |column| => Filled(column[i], cast))
  }

  /** What a NULL of the source counts for in the target. */
  function Replacement(cast: Cast): real {
    match cast.whenNull case None => 0.0 case Some(v) => v
  }

  function Nulls(column: seq<Cell>): nat {
    if column == [] then 0
    else Nulls(column[..|column| - 1]) + if column[|column| - 1].Null? then 1 else 0
  }

  lemma {:induction false} FilledTotal(column: seq<Cell>, cast: Cast)
    ensures SourceSum(FilledColumn(column, cast)) == SourceSum(column) + Nulls(column) as real * Replacement(cast)
  {
    if column != [] {
      var n := |column| - 1;
      FilledTotal(column[..n], cast);
      assert FilledColumn(column, cast)[..n] == FilledColumn(column[..n], cast);
      assert Nulls(column) as real == Nulls(column[..n]) as real + if column[n].Null? then 1.0 else 0.0;
    }
  }

  /** How far the total of a cast column of that many rows moved, and how many NULLs it had. */
  datatype Drift = Drift(rows: nat, total: real, nulls: nat)

  /** What the replaced NULLs explain of it. */
  function Replaced(nulls: nat, cast: Cast): real {
    nulls as real * Replacement(cast)
  }

  lemma ColumnsAligned(src: Source, t: Table, rows: seq<TargetRow>, c: nat)
    requires FromSource(src, t, rows) && c < |Casts(t)|
    ensures (forall x :: x in Origins(src, t, rows) ==> c < |x.amounts|) && (forall r :: r in rows ==> c < |r.amounts|)
    ensures CastOf(FilledColumn(SourceColumn(Origins(src, t, rows), c), Casts(t)[c]), TargetColumn(rows, c), Casts(t)[c].places)
  {
    hide Origins, FromSource, Casts, CastDecimal, WholeRead, CastCells;
    var xs := Origins(src, t, rows);
    forall i | 0 <= i < |rows|
      ensures c < |xs[i].amounts| && c < |rows[i].amounts|
      ensures CastCell(xs[i].amounts[c], Casts(t)[c]) == Some(rows[i].amounts[c])
    {
      ConvertsExactly(t, xs[i]);
    }
  }

  /** Column c of some target rows, against the same column of the source rows they come from. */
  ghost function ColumnDriftOf(src: Source, t: Table, rows: seq<TargetRow>, c: nat): Drift
    requires FromSource(src, t, rows) && c < |Casts(t)|
  {
    ColumnsAligned(src, t, rows, c);
    var source := SourceColumn(Origins(src, t, rows), c);
    Drift(|rows|, ColumnSum(TargetColumn(rows, c)) - SourceSum(source), Nulls(source))
  }

  lemma RowsDrift(src: Source, t: Table, rows: seq<TargetRow>, c: nat)
    requires FromSource(src, t, rows) && c < |Casts(t)|
    ensures var d := ColumnDriftOf(src, t, rows, c);
            var half := HalfUnits(d.rows, Casts(t)[c].places);
            -half <= d.total - Replaced(d.nulls, Casts(t)[c]) <= half
  {
    hide Origins, FromSource, Casts, ColumnSum, SourceSum, HalfUnits, CastOf, Replacement, Nulls;
    ColumnsAligned(src, t, rows, c);
    var source := SourceColumn(Origins(src, t, rows), c);
    FilledTotal(source, Casts(t)[c]);
    ColumnDrift(FilledColumn(source, Casts(t)[c]), TargetColumn(rows, c), Casts(t)[c].places);
  }

  /** The drift of column c of a table after a history. */
  ghost function DriftOf(src: Source, enforced: bool, runs: seq<Run>, t: Table, c: nat): Drift
    requires KeyedSource(src) && c < |Casts(t)|
  {
    HistoryTraced(src, enforced, runs);
    assert TracedTable(src, t, History(src, enforced, runs).db.At(t));
    ColumnDriftOf(src, t, History(src, enforced, runs).db.At(t).rows, c)
  }

  /** For every source and every history, and so for every chunking: apart from NULLs that became a
      default, the total of a cast column over the n rows of a target table is within n half units
      of the total of the source rows they come from. */
  lemma MigratedColumnDrift(src: Source, enforced: bool, runs: seq<Run>, t: Table, c: nat)
    requires KeyedSource(src) && c < |Casts(t)|
    ensures var d := DriftOf(src, enforced, runs, t, c);
            var half := HalfUnits(d.rows, Casts(t)[c].places);
            -half <= d.total - Replaced(d.nulls, Casts(t)[c]) <= half
  {
    hide History, ColumnDriftOf, FromSource, DistinctIds, Casts, HalfUnits, Replaced;
    HistoryTraced(src, enforced, runs);
    assert TracedTable(src, t, History(src, enforced, runs).db.At(t));
    RowsDrift(src, t, History(src, enforced, runs).db.At(t).rows, c);
  }

  /** The plain bound, without that allowance, holds when no NULL was replaced by anything but zero,
      and fails as soon as the replaced NULLs amount to more than one unit a row. */
  lemma PlainDriftBound(src: Source, enforced: bool, runs: seq<Run>, t: Table, c: nat)
    requires KeyedSource(src) && c < |Casts(t)|
    ensures var d := DriftOf(src, enforced, runs, t, c);
            var half := HalfUnits(d.rows, Casts(t)[c].places);
            && (Replaced(d.nulls, Casts(t)[c]) == 0.0 ==> -half <= d.total <= half)
            && (Replaced(d.nulls, Casts(t)[c]) > 2.0 * half ==> d.total > half)
  {
    hide DriftOf, HalfUnits, Casts, Replaced;
    MigratedColumnDrift(src, enforced, runs, t, c);
  }

  lemma {:induction false} Pow10Rises(p: nat, q: nat)
    requires p <= q
    ensures Pow10(p) <= Pow10(q)
    decreases q
  {
    if p < q {
      Pow10Rises(p, q - 1);
    }
  }

  lemma PowerValues()
    ensures Pow10(2) == 100 && Pow10(8) == 100000000 && Pow10(9) == 1000000000
  {
    assert Pow10(4) == 10000 && Pow10(6) == 1000000;
  }

  lemma UnitValues()
    ensures HalfUnit(2) == 0.005 && HalfUnit(8) == 0.000000005
  {
    PowerValues();
    hide Pow10;
    assert 0.5 / 100.0 == 0.005 && 0.5 / 100000000.0 == 0.000000005;
  }

  lemma ReplacementKinds(cast: Cast, t: Table)
    requires cast in Casts(t)
    ensures Replacement(cast) == 0.0
            || (cast.places == 2 && Replacement(cast) == STARTING_BALANCE)
            || (cast.places == 8 && Replacement(cast) == 0.02)
  {}

  /** A replaced NULL outweighs the rounding of two million rows. */
  lemma DefaultOutweighs(rows: nat, nulls: nat, cast: Cast, t: Table)
    requires cast in Casts(t) && rows < 2000000
    ensures Replaced(nulls, cast) == 0.0 || Replaced(nulls, cast) > 2.0 * HalfUnits(rows, cast.places)
  {
    hide Casts, HalfUnits, HalfUnit;
    ReplacementKinds(cast, t);
    HalfUnitsProduct(rows, cast.places);
    UnitValues();
    assert nulls > 0 ==> nulls as real >= 1.0;
  }

  /** Up to two million rows, the plain bound holds if and only if no NULL of the column was replaced
      by a default other than zero. */
  lemma PlainDriftExact(src: Source, enforced: bool, runs: seq<Run>, t: Table, c: nat)
    requires KeyedSource(src) && c < |Casts(t)|
    ensures var d := DriftOf(src, enforced, runs, t, c);
            var half := HalfUnits(d.rows, Casts(t)[c].places);
            d.rows < 2000000 ==>
              (-half <= d.total <= half <==> d.nulls == 0 || Replacement(Casts(t)[c]) == 0.0)
  {
    hide DriftOf, HalfUnits, Casts;
    var d := DriftOf(src, enforced, runs, t, c);
    PlainDriftBound(src, enforced, runs, t, c);
    if d.rows < 2000000 {
      DefaultOutweighs(d.rows, d.nulls, Casts(t)[c], t);
      assert Replaced(d.nulls, Casts(t)[c]) == 0.0 <==> d.nulls == 0 || Replacement(Casts(t)[c]) == 0.0;
    }
  }

  lemma DividesBack(v: real, d: real, c: real)
    requires d > 0.0 && Times(v, d) == c
    ensures c / d == v
  {}

  lemma WholeQuantum(v: real, p: nat, coefficient: int)
    requires Times(v, Scale(p)) == coefficient as real && -1000000000 < coefficient < 1000000000
    ensures CastDecimal(Number(v), p) == Some(Some(v))
  {
    Pow10Rises(9, CONTEXT_PRECISION);
    PowerValues();
    HalfEvenFixesIntegers(coefficient);
    DividesBack(v, Scale(p), coefficient as real);
    hide Pow10, Times, Scale, HalfEven;
  }

  /** The column defaults are stored as they are: an account without balances and risk limit migrates
      with one million of each balance and two percent. */
  lemma NullTakesTheDefault()
    ensures CastCell(Null, Casts(Accounts)[0]) == CastCell(Null, Casts(Accounts)[1]) == Some(Some(STARTING_BALANCE))
    ensures CastCell(Null, Casts(Accounts)[2]) == Some(Some(0.02))
    ensures CastCell(Null, Casts(Positions)[2]) == Some(Some(0.0))
  {
    PowerValues();
    hide CastDecimal, Pow10;
    WholeQuantum(STARTING_BALANCE, 2, 100000000);
    WholeQuantum(0.02, 8, 2000000);
    WholeQuantum(0.0, 8, 0);
  }
}
