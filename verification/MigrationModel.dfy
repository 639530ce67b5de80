/**
 The data of the SQLite to PostgreSQL migration: five tables, the row conversion,
 the `SELECT ... WHERE id > pk ORDER BY id ASC` of every table loop, the target
 tables with their checkpoints, and one commit.
 */
module MigrationModel {
  import opened Options
  import opened Decimals

  datatype Table = Accounts | Orders | Positions | Transactions | TradeHistory

  /** One value for each of the five tables. */
  datatype PerTable<T> = PerTable(accounts: T, orders: T, positions: T, transactions: T, history: T) {
    function Get(t: Table): T {
      match t
      case Accounts => accounts
      case Orders => orders
      case Positions => positions
      case Transactions => transactions
      case TradeHistory => history
    }

    function Set(t: Table, x: T): (r: PerTable<T>)
      ensures r.Get(t) == x
      ensures forall u: Table :: u != t ==> r.Get(u) == Get(u)
    {
      match t
      case Accounts => this.(accounts := x)
      case Orders => this.(orders := x)
      case Positions => this.(positions := x)
      case Transactions => this.(transactions := x)
      case TradeHistory => this.(history := x)
    }
  }

  /** A SQLite row: the columns passed through cast_decimal and the text of the others. `restReads`:
      the row constructor can read the others; localize_utc raises on a date stored as a number or
      a blob. `restFits`: they fit their target columns (types, lengths, NOT NULL). `key`: the row's
      entry in a further unique index, the idempotency key of an order or account and symbol of an
      open position. `accountId` means nothing for an account row. */
  datatype SourceRow =
    SourceRow(id: int, accountId: int, amounts: seq<Cell>, rest: string, restReads: bool, restFits: bool, key: Option<string>)

  datatype TargetRow =
    TargetRow(id: int, accountId: int, amounts: seq<Option<real>>, rest: string, restFits: bool, key: Option<string>)

  type Source = PerTable<seq<SourceRow>>

  // ---------------------------------------------------------------- conversion

  /** How one column is cast: its places, what is stored for a NULL, and whether the target column
      accepts NULL. The replacement is the `or 0.0` of the script, or the default of the mapped
      column: the mapper leaves an attribute that is None out of the INSERT and applies the default. */
  datatype Cast = Cast(places: nat, whenNull: Option<real>, nullable: bool)

  /** The cast columns of each table, in the order the row constructor names them. */
  function Casts(t: Table): seq<Cast> {
    var price, priceOrNull, money := Cast(8, None, false), Cast(8, None, true), Cast(2, None, false);
    var balance, risk := Cast(2, Some(STARTING_BALANCE), false), Cast(8, Some(0.02), false);
    var current, pnl := Cast(8, Some(0.0), false), Cast(2, Some(0.0), false);
    match t
    case Accounts => [balance, balance, risk]
    case Orders => [price] + seq(9, _ => priceOrNull)
    case Positions => [price, price, current, pnl, pnl, priceOrNull, priceOrNull, priceOrNull, priceOrNull]
    case Transactions => []
    case TradeHistory => [price, price, price, money, money, priceOrNull, priceOrNull]
  }

  const STARTING_BALANCE := 1000000.0

  /** The value a cell stands for; a column that get_row does not find, and an empty text before
      `or 0.0`, count as NULL. */
  function Filled(cell: Cell, cast: Cast): Cell {
    if cell.Null? && cast.whenNull.Some? then Number(cast.whenNull.value) else cell
  }

  function CastCell(cell: Cell, cast: Cast): Option<Option<real>> {
    CastDecimal(Filled(cell, cast), cast.places)
  }

  /** Casting cell by cell; None stands for the exception of a missing column or a refused value. */
  function CastCells(cells: seq<Cell>, casts: seq<Cast>): Option<seq<Option<real>>> {
    if casts == [] then Some([])
    else if cells == [] then None
    else
      match (CastCell(cells[0], casts[0]), CastCells(cells[1..], casts[1..]))
      case (Some(first), Some(others)) => Some([first] + others)
      case _ => None
  }

  /** Casting succeeds exactly when every named column is there and each cell can be cast. */
  lemma {:induction false} CastCellsPointwise(cells: seq<Cell>, casts: seq<Cast>)
    ensures CastCells(cells, casts).Some? <==>
            |casts| <= |cells| && forall i :: 0 <= i < |casts| ==> CastCell(cells[i], casts[i]).Some?
    ensures CastCells(cells, casts).Some? ==>
              var out := CastCells(cells, casts).value;
              && |out| == |casts|
              && forall i :: 0 <= i < |casts| ==> CastCell(cells[i], casts[i]) == Some(out[i])
  {
    hide CastCell;
    if casts != [] && cells != [] {
      CastCellsPointwise(cells[1..], casts[1..]);
      assert forall i :: 0 < i < |casts| ==> casts[i] == casts[1..][i - 1];
      assert forall i :: 0 < i < |cells| ==> cells[i] == cells[1..][i - 1];
      if |casts| <= |cells| && CastCells(cells, casts).None? && CastCell(cells[0], casts[0]).Some? {
        var j :| 0 <= j < |casts| - 1 && CastCell(cells[1..][j], casts[1..][j]).None?;
        assert CastCell(cells[j + 1], casts[j + 1]).None?;
      }
    }
  }

  function ConvertRow(t: Table, row: SourceRow): Option<TargetRow> {
    if !row.restReads then None
    else
      match CastCells(row.amounts, Casts(t))
      case Some(amounts) => Some(TargetRow(row.id, row.accountId, amounts, row.rest, row.restFits, row.key))
      case None => None
  }

  /** Exactly when the row constructor does not raise, and what it builds. */
  lemma ConvertsExactly(t: Table, row: SourceRow)
    ensures ConvertRow(t, row).Some? <==>
            && row.restReads && |Casts(t)| <= |row.amounts|
            && forall i :: 0 <= i < |Casts(t)| ==> CastCell(row.amounts[i], Casts(t)[i]).Some?
    ensures ConvertRow(t, row).Some? ==>
              var built := ConvertRow(t, row).value;
              && built.id == row.id && built.accountId == row.accountId && built.rest == row.rest
              && |built.amounts| == |Casts(t)| <= |row.amounts|
              && forall i :: 0 <= i < |Casts(t)| ==> CastCell(row.amounts[i], Casts(t)[i]) == Some(built.amounts[i])
  {
    hide CastCell, CastCells, Casts;
    CastCellsPointwise(row.amounts, Casts(t));
  }

  /** The columns kept to cents; every other decimal column keeps eight places. */
  const CENTS: set<(Table, nat)> := {
    (Accounts, 0), (Accounts, 1), (Positions, 3), (Positions, 4), (TradeHistory, 3), (TradeHistory, 4)
  }

  /** How many decimal columns each table has, their places, which accept NULL, and which replace it. */
  lemma ColumnsExactly(t: Table, i: nat)
    ensures |Casts(Accounts)| == 3 && |Casts(Orders)| == 10 && |Casts(Positions)| == 9
            && |Casts(Transactions)| == 0 && |Casts(TradeHistory)| == 7
    ensures i < |Casts(t)| ==> Casts(t)[i].places == if (t, i) in CENTS then 2 else 8
    ensures i < |Casts(t)| ==> (Casts(t)[i].nullable <==> (t == Orders && i > 0) || (t in {Positions, TradeHistory} && i >= 5))
    ensures i < |Casts(t)| ==> (Casts(t)[i].whenNull.Some? <==> t == Accounts || (t == Positions && i in {2, 3, 4}))
  {}

  /** One cell cast: a NULL becomes its replacement or stays NULL, and a number goes to its nearest
      multiple. */
  ghost predicate CellConverted(cell: Cell, cast: Cast, places: nat, out: Option<real>) {
    match cell
    case Malformed => false
    case Null => if cast.whenNull.None? then out.None? else out.Some? && Rounded(cast.whenNull.value, places, out.value)
    case Number(v) => out.Some? && Rounded(v, places, out.value)
  }

  lemma CellExactly(cell: Cell, cast: Cast, out: Option<real>)
    requires CastCell(cell, cast) == Some(out)
    ensures CellConverted(cell, cast, cast.places, out)
  {
    hide CastDecimal;
    CastDecimalExactly(Filled(cell, cast), cast.places, out);
  }

  /** What the conversion makes of each decimal column. */
  lemma ConvertedCells(t: Table, row: SourceRow, i: nat)
    requires ConvertRow(t, row).Some? && i < |Casts(t)|
    ensures i < |row.amounts| && i < |ConvertRow(t, row).value.amounts|
    ensures CellConverted(row.amounts[i], Casts(t)[i], if (t, i) in CENTS then 2 else 8, ConvertRow(t, row).value.amounts[i])
  {
    ConvertsExactly(t, row);
    ColumnsExactly(t, i);
    hide CastCell, Casts, ConvertRow, CellConverted;
    CellExactly(row.amounts[i], Casts(t)[i], ConvertRow(t, row).value.amounts[i]);
  }

  /** q is v at its nearest multiple of 10^-places. */
  ghost predicate Rounded(v: real, places: nat, q: real) {
    exists n: int :: Nearest(v, places, n) && q * Scale(places) == n as real
  }

  /** The rows added to the session before the first one whose conversion raises. */
  function Staged(t: Table, rows: seq<SourceRow>): seq<TargetRow> {
    if rows == [] || ConvertRow(t, rows[0]).None? then []
    else [ConvertRow(t, rows[0]).value] + Staged(t, rows[1..])
  }

  lemma {:induction false} StagedPrefix(t: Table, rows: seq<SourceRow>)
    ensures |Staged(t, rows)| <= |rows|
    ensures forall i :: 0 <= i < |Staged(t, rows)| ==>
              ConvertRow(t, rows[i]) == Some(Staged(t, rows)[i]) && Staged(t, rows)[i].id == rows[i].id
                && Staged(t, rows)[i].accountId == rows[i].accountId && Staged(t, rows)[i].key == rows[i].key
    ensures |Staged(t, rows)| < |rows| ==> ConvertRow(t, rows[|Staged(t, rows)|]).None?
  {
    hide CastCells;
    if rows != [] && ConvertRow(t, rows[0]).Some? {
      StagedPrefix(t, rows[1..]);
    }
  }

  lemma {:induction false} StagedConcat(t: Table, xs: seq<SourceRow>, ys: seq<SourceRow>)
    requires |Staged(t, xs)| == |xs|
    ensures Staged(t, xs + ys) == Staged(t, xs) + Staged(t, ys)
  {
    hide ConvertRow;
    if xs == [] {
      assert xs + ys == ys;
    } else {
      assert (xs + ys)[0] == xs[0] && (xs + ys)[1..] == xs[1..] + ys;
      StagedConcat(t, xs[1..], ys);
    }
  }

  // ---------------------------------------------------------------- the ordered read

  function IdAbove(rows: seq<SourceRow>, pk: int): seq<SourceRow> {
    if rows == [] then []
    else (if rows[0].id > pk then [rows[0]] else []) + IdAbove(rows[1..], pk)
  }

  function InsertById(row: SourceRow, sorted: seq<SourceRow>): seq<SourceRow> {
    if sorted == [] || row.id <= sorted[0].id then [row] + sorted
    else [sorted[0]] + InsertById(row, sorted[1..])
  }

  function OrderById(rows: seq<SourceRow>): seq<SourceRow> {
    if rows == [] then [] else InsertById(rows[0], OrderById(rows[1..]))
  }

  /** What the table loop reads: rows beyond the checkpoint, in id order. */
  function SelectAfter(rows: seq<SourceRow>, pk: int): seq<SourceRow> {
    OrderById(IdAbove(rows, pk))
  }

  /** id is the primary key of every source table. */
  predicate UniqueIds(rows: seq<SourceRow>) {
    forall i, j :: 0 <= i < j < |rows| ==> rows[i].id != rows[j].id
  }

  predicate Ascending(rows: seq<SourceRow>) {
    forall i, j :: 0 <= i < j < |rows| ==> rows[i].id < rows[j].id
  }

  lemma {:induction false} InsertByIdSorted(row: SourceRow, sorted: seq<SourceRow>)
    requires Ascending(sorted) && forall r :: r in sorted ==> r.id != row.id
    ensures Ascending(InsertById(row, sorted))
    ensures forall r :: r in InsertById(row, sorted) <==> r == row || r in sorted
  {
    if sorted != [] && row.id > sorted[0].id {
      var rest := InsertById(row, sorted[1..]);
      TailMembers(sorted);
      InsertByIdSorted(row, sorted[1..]);
      hide InsertById;
      PrependAscending(sorted[0], rest);
    }
  }

  lemma PrependAscending(first: SourceRow, rest: seq<SourceRow>)
    requires Ascending(rest) && forall r :: r in rest ==> r.id > first.id
    ensures Ascending([first] + rest)
  {
    assert forall i :: 0 <= i < |rest| ==> rest[i] in rest;
  }

  lemma TailMembers(xs: seq<SourceRow>)
    requires xs != [] && Ascending(xs)
    ensures Ascending(xs[1..]) && forall r :: r in xs[1..] <==> r in xs && r != xs[0]
    ensures forall r :: r in xs[1..] ==> r.id > xs[0].id
  {}

  lemma {:induction false} OrderByIdSorted(rows: seq<SourceRow>)
    requires UniqueIds(rows)
    ensures Ascending(OrderById(rows))
    ensures forall r :: r in OrderById(rows) <==> r in rows
  {
    if rows != [] {
      OrderByIdSorted(rows[1..]);
      assert forall r :: r in rows <==> r == rows[0] || r in rows[1..];
      InsertByIdSorted(rows[0], OrderById(rows[1..]));
    }
  }

  lemma {:induction false} IdAboveMembers(rows: seq<SourceRow>, pk: int)
    ensures forall r :: r in IdAbove(rows, pk) <==> r in rows && r.id > pk
    ensures UniqueIds(rows) ==> UniqueIds(IdAbove(rows, pk))
  {
    if rows != [] {
      IdAboveMembers(rows[1..], pk);
      assert forall r :: r in rows <==> r == rows[0] || r in rows[1..];
    }
  }

  /** The read is ascending and holds exactly the rows above pk. */
  lemma SelectAfterSorted(rows: seq<SourceRow>, pk: int)
    requires UniqueIds(rows)
    ensures Ascending(SelectAfter(rows, pk))
    ensures forall r :: r in SelectAfter(rows, pk) <==> r in rows && r.id > pk
  {
    IdAboveMembers(rows, pk);
    OrderByIdSorted(IdAbove(rows, pk));
  }

  /** Two ascending sequences with the same members are the same sequence. */
  lemma {:induction false} AscendingUnique(xs: seq<SourceRow>, ys: seq<SourceRow>)
    requires Ascending(xs) && Ascending(ys)
    requires forall r :: r in xs <==> r in ys
    ensures xs == ys
  {
    assert forall i :: 0 <= i < |ys| ==> ys[i] in xs;
    assert forall i :: 0 <= i < |xs| ==> xs[i] in ys;
    if xs != [] {
      assert xs[0] == ys[0];
      TailMembers(xs);
      TailMembers(ys);
      AscendingUnique(xs[1..], ys[1..]);
    }
  }

  /** The checkpoint value after the first k rows of the whole read. */
  function PkAt(all: seq<SourceRow>, k: nat): int
    requires k <= |all|
  {
    if k == 0 then 0 else all[k - 1].id
  }

  lemma BeyondPk(all: seq<SourceRow>, k: nat, r: SourceRow)
    requires Ascending(all) && k <= |all| && forall x :: x in all ==> x.id > 0
    ensures r in all[k..] <==> r in all && r.id > PkAt(all, k)
  {
    if r in all {
      var i :| 0 <= i < |all| && all[i] == r;
      if i >= k {
        assert all[k..][i - k] == r;
      }
    }
  }

  /** Reading from the checkpoint after k rows resumes with row k: nothing skipped, nothing read twice. */
  lemma ResumeExactly(rows: seq<SourceRow>, k: nat)
    requires UniqueIds(rows) && k <= |SelectAfter(rows, 0)|
    ensures PkAt(SelectAfter(rows, 0), k) >= 0
    ensures SelectAfter(rows, PkAt(SelectAfter(rows, 0), k)) == SelectAfter(rows, 0)[k..]
  {
    hide SelectAfter, UniqueIds;
    var all := SelectAfter(rows, 0);
    SelectAfterSorted(rows, 0);
    var pk := PkAt(all, k);
    assert k > 0 ==> all[k - 1] in all;
    SelectAfterSorted(rows, pk);
    forall r
      ensures r in all[k..] <==> r in SelectAfter(rows, pk)
    {
      BeyondPk(all, k, r);
    }
    AscendingUnique(SelectAfter(rows, pk), all[k..]);
  }

  // ---------------------------------------------------------------- the target

  datatype Checkpoint = Checkpoint(lastPk: int, lastChunk: nat, rowsMigrated: nat)

  /** get_checkpoint's answer for a table without a checkpoint row. */
  const FRESH_CHECKPOINT := Checkpoint(0, 0, 0)

  datatype TableState = TableState(rows: seq<TargetRow>, checkpoint: Option<Checkpoint>) {
    function Position(): Checkpoint {
      if checkpoint.Some? then checkpoint.value else FRESH_CHECKPOINT
    }

    function Ids(): set<int> {
      set r | r in rows :: r.id
    }
  }

  /** The committed target: tables with checkpoints, the next id of each sequence, and whether the
      target enforces the account foreign key of the four child tables. */
  datatype Db = Db(tables: PerTable<TableState>, nextIds: PerTable<int>, enforced: bool) {
    function At(t: Table): TableState {
      tables.Get(t)
    }

    function Put(t: Table, s: TableState): (r: Db)
      ensures r.At(t) == s && r.nextIds == nextIds && r.enforced == enforced
      ensures forall u: Table :: u != t ==> r.At(u) == At(u)
    {
      this.(tables := tables.Set(t, s))
    }
  }

  function EmptyDb(enforced: bool): Db {
    var none := TableState([], None);
    Db(PerTable(none, none, none, none, none), PerTable(1, 1, 1, 1, 1), enforced)
  }

  predicate DistinctIds(rows: seq<TargetRow>) {
    forall i, j :: 0 <= i < j < |rows| ==> rows[i].id != rows[j].id
  }

  /** The target columns are NUMERIC(18, places), most of them NOT NULL. */
  predicate FitsColumns(t: Table, row: TargetRow) {
    && row.restFits && |row.amounts| == |Casts(t)|
    && forall i :: 0 <= i < |row.amounts| ==>
         match row.amounts[i]
         case None => Casts(t)[i].nullable
         case Some(v) => Casts(t)[i].places <= 18 &&
                         -Scale(18 - Casts(t)[i].places) < v < Scale(18 - Casts(t)[i].places)
  }

  predicate Clash(a: Option<string>, b: Option<string>) {
    a.Some? && a == b
  }

  /** The unique index over the keys of the rows that have one. */
  predicate NewKeys(held: seq<TargetRow>, rows: seq<TargetRow>) {
    && (forall i, j :: 0 <= i < j < |rows| ==> !Clash(rows[i].key, rows[j].key))
    && (forall h, i :: h in held && 0 <= i < |rows| ==> !Clash(h.key, rows[i].key))
  }

  /** The constraints of the target: primary key, unique index, account foreign key if enforced,
      column types. */
  predicate Admits(db: Db, t: Table, rows: seq<TargetRow>) {
    && DistinctIds(rows) && NewKeys(db.At(t).rows, rows)
    && (forall r :: r in rows ==> r.id !in db.At(t).Ids())
    && (db.enforced && t != Accounts ==> forall r :: r in rows ==> r.accountId in db.At(Accounts).Ids())
    && (forall r :: r in rows ==> FitsColumns(t, r))
  }

  /** One commit: flush the pending rows, together with the checkpoint if the loop wrote one. */
  function Commit(db: Db, t: Table, rows: seq<TargetRow>, checkpoint: Option<Checkpoint>): Option<Db> {
    if !Admits(db, t, rows) then None
    else
      Some(db.Put(t, TableState(db.At(t).rows + rows,
                                if checkpoint.Some? then checkpoint else db.At(t).checkpoint)))
  }

  /** The upsert of update_checkpoint: rows_migrated accumulates, the rest is replaced. */
  function Advance(prior: Option<Checkpoint>, pk: int, chunk: nat, count: nat): Checkpoint {
    Checkpoint(pk, chunk, count + if prior.Some? then prior.value.rowsMigrated else 0)
  }
}
