/**
 The candle copy: rows in fixed-size chunks, one INSERT ... ON CONFLICT DO NOTHING and one commit a
 chunk, no checkpoint. A rerun starts over; the result is the same.
 */
module Candles {
  import opened Options

  /** `time` is the parsed date: None when the source date is NULL or unreadable. */
  datatype Row = Row(symbol: string, resolution: string, time: Option<int>, quote: string)

  datatype Key = Key(symbol: string, resolution: string, time: int)

  /** The target table: per key the quote stored for it. */
  type Table = map<Key, string>

  const CHUNK_SIZE: nat := 1000

  function KeyOf(row: Row): Key
    requires row.time.Some?
  {
    Key(row.symbol, row.resolution, row.time.value)
  }

  predicate AllDated(rows: seq<Row>) {
    forall i :: 0 <= i < |rows| ==> rows[i].time.Some?
  }

  /** The primary key rejects a NULL date. `accepts` is what else the table asks of a row: its
      partition exists, its values fit the columns. */
  predicate AllInsertable(rows: seq<Row>, accepts: Row -> bool) {
    AllDated(rows) && forall i :: 0 <= i < |rows| ==> accepts(rows[i])
  }

  /** ON CONFLICT DO NOTHING, row by row. */
  function InsertNew(table: Table, rows: seq<Row>): Table
    requires AllDated(rows)
  {
    if rows == [] then table
    else
      var before := InsertNew(table, rows[..|rows| - 1]);
      var row := rows[|rows| - 1];
      if KeyOf(row) in before then before else before[KeyOf(row) := row.quote]
  }

  /** One chunk: a row the table cannot take fails the whole statement. */
  function CommitChunk(table: Table, chunk: seq<Row>, accepts: Row -> bool): Option<Table> {
    if AllInsertable(chunk, accepts) then Some(InsertNew(table, chunk)) else None
  }

  /** One run that dies, or is stopped by an error, after at most `limit` chunks (no limit: None):
      the table and whether every chunk was committed. */
  function CopyFrom(table: Table, rows: seq<Row>, accepts: Row -> bool, size: nat, limit: Option<nat>): (Table, bool)
    requires size > 0
    decreases |rows|
  {
    if rows == [] then (table, true)
    else if limit == Some(0) then (table, false)
    else
      var n := if size < |rows| then size else |rows|;
      match CommitChunk(table, rows[..n], accepts)
      case None => (table, false)
      case Some(next) => CopyFrom(next, rows[n..], accepts, size, if limit.None? then None else Some(limit.value - 1))
  }

  /** The script's loop over chunks. */
  method MigrateCandles(table: Table, rows: seq<Row>, accepts: Row -> bool) returns (result: Table, complete: bool)
    ensures (result, complete) == CopyFrom(table, rows, accepts, 1000, None)
  {
    result := table;
    var i := 0;
    assert rows[0..] == rows;
    while i < |rows|
      invariant 0 <= i <= |rows|
      invariant CopyFrom(table, rows, accepts, CHUNK_SIZE, None) == CopyFrom(result, rows[i..], accepts, CHUNK_SIZE, None)
    {
      var n := if CHUNK_SIZE < |rows| - i then CHUNK_SIZE else |rows| - i;
      var chunk := rows[i..i + n];
      assert rows[i..][..n] == chunk && rows[i..][n..] == rows[i + n..];
      match CommitChunk(result, chunk, accepts)
      case None =>
        return result, false;
      case Some(next) =>
        result := next;
      i := i + n;
    }
    complete := true;
  }

  // ---------------------------------------------------------------- the declarative result

  /** The quote of the first row with this key. */
  function FirstQuote(rows: seq<Row>, key: Key): Option<string>
    requires AllDated(rows)
  {
    if rows == [] then None
    else if KeyOf(rows[0]) == key then Some(rows[0].quote)
    else FirstQuote(rows[1..], key)
  }

  /** For every key: what the old table held, and otherwise the first row that has it. */
  ghost predicate IsMerge(table: Table, rows: seq<Row>, result: Table)
    requires AllDated(rows)
  {
    forall key :: Stored(result, key) == if key in table then Some(table[key]) else FirstQuote(rows, key)
  }

  function Stored(table: Table, key: Key): Option<string> {
    if key in table then Some(table[key]) else None
  }

  lemma {:induction false} FirstQuoteAppend(rows: seq<Row>, row: Row, key: Key)
    requires AllDated(rows) && row.time.Some?
    ensures AllDated(rows + [row])
    ensures FirstQuote(rows + [row], key) ==
            if FirstQuote(rows, key).Some? then FirstQuote(rows, key)
            else if KeyOf(row) == key then Some(row.quote) else None
  {
    if rows != [] {
      assert (rows + [row])[1..] == rows[1..] + [row];
      FirstQuoteAppend(rows[1..], row, key);
    }
  }

  lemma {:induction false} InsertNewMerges(table: Table, rows: seq<Row>)
    requires AllDated(rows)
    ensures IsMerge(table, rows, InsertNew(table, rows))
  {
    if rows != [] {
      var n := |rows| - 1;
      InsertNewMerges(table, rows[..n]);
      assert rows == rows[..n] + [rows[n]];
      forall key
        ensures Stored(InsertNew(table, rows), key) == if key in table then Some(table[key]) else FirstQuote(rows, key)
      {
        FirstQuoteAppend(rows[..n], rows[n], key);
        assert Stored(InsertNew(table, rows[..n]), key)
               == if key in table then Some(table[key]) else FirstQuote(rows[..n], key);
      }
    }
  }

  /** A key is found exactly when some row has it. */
  lemma {:induction false} FirstQuoteFinds(rows: seq<Row>, k: nat)
    requires AllDated(rows) && k < |rows|
    ensures FirstQuote(rows, KeyOf(rows[k])).Some?
  {
    if k > 0 {
      FirstQuoteFinds(rows[1..], k - 1);
    }
  }

  lemma {:induction false} InsertInTwo(table: Table, xs: seq<Row>, ys: seq<Row>)
    requires AllDated(xs) && AllDated(ys)
    ensures AllDated(xs + ys)
    ensures InsertNew(table, xs + ys) == InsertNew(InsertNew(table, xs), ys)
    decreases |ys|
  {
    if ys == [] {
      assert xs + ys == xs;
    } else {
      var n := |ys| - 1;
      InsertInTwo(table, xs, ys[..n]);
      assert (xs + ys)[..|xs + ys| - 1] == xs + ys[..n];
    }
  }

  lemma {:induction false} InsertPresent(table: Table, rows: seq<Row>)
    requires AllDated(rows) && forall k :: 0 <= k < |rows| ==> KeyOf(rows[k]) in table
    ensures InsertNew(table, rows) == table
  {
    if rows != [] {
      InsertPresent(table, rows[..|rows| - 1]);
    }
  }

  /** Inserting a shorter prefix again adds nothing; a longer one adds the missing rows. */
  lemma PrefixAgain(table: Table, rows: seq<Row>, m: nat, n: nat)
    requires m <= |rows| && n <= |rows| && AllDated(rows[..m]) && AllDated(rows[..n])
    ensures InsertNew(InsertNew(table, rows[..m]), rows[..n]) == InsertNew(table, rows[..if m <= n then n else m])
  {
    var once := InsertNew(table, rows[..m]);
    InsertNewMerges(table, rows[..m]);
    forall k | 0 <= k < m
      ensures rows[..m][k] == rows[k] && KeyOf(rows[k]) in once
    {
      FirstQuoteFinds(rows[..m], k);
      assert Stored(once, KeyOf(rows[k])).Some?;
    }
    if n <= m {
      InsertPresent(once, rows[..n]);
    } else {
      assert rows[..n] == rows[..m] + rows[m..n];
      InsertInTwo(table, rows[..m], rows[m..n]);
      InsertInTwo(once, rows[..m], rows[m..n]);
      InsertPresent(once, rows[..m]);
    }
  }

  /** How far one run gets: whole chunks, up to the first with a row the table does not take. */
  function Reached(rows: seq<Row>, accepts: Row -> bool, size: nat, limit: Option<nat>): (n: nat)
    requires size > 0
    ensures n <= |rows| && AllDated(rows[..n]) && AllInsertable(rows[..n], accepts)
    decreases |rows|
  {
    var n := if size < |rows| then size else |rows|;
    if rows == [] || limit == Some(0) || !AllInsertable(rows[..n], accepts) then 0
    else
      var more := Reached(rows[n..], accepts, size, if limit.None? then None else Some(limit.value - 1));
      assert rows[..n + more] == rows[..n] + rows[n..][..more];
      n + more
  }

  /** n rows are committed by whole chunks of acceptable rows, and the run stops there because the rows
      or its life are at an end, or because the table refuses a row of the next chunk. */
  predicate StopsAt(rows: seq<Row>, accepts: Row -> bool, size: nat, limit: Option<nat>, n: nat)
    requires size > 0
  {
    && n <= |rows| && AllInsertable(rows[..n], accepts)
    && (n == |rows| || n % size == 0)
    && (limit.Some? ==> n <= limit.value * size)
    && (n < |rows| ==>
          || (limit.Some? && n == limit.value * size)
          || !AllInsertable(rows[n..if size < |rows| - n then n + size else |rows|], accepts))
  }

  lemma OneChunkMore(limit: nat, size: nat, k: nat)
    requires size > 0 && limit > 0
    ensures (limit - 1) * size + size == limit * size
    ensures (k + size) % size == k % size
  {
    var q := k / size;
    assert k == q * size + k % size;
    assert k + size == (q + 1) * size + k % size;
    QuotientUnique(k + size, size, q + 1, k % size);
  }

  lemma QuotientUnique(x: nat, size: nat, q: nat, r: nat)
    requires size > 0 && r < size && x == q * size + r
    ensures x % size == r
  {
    var d := x / size - q;
    assert d * size == r - x % size;
    MultipleIsLarge(d, size);
  }

  lemma MultipleIsLarge(d: int, size: nat)
    ensures d >= 1 ==> d * size >= size
    ensures d <= -1 ==> d * size <= -(size as int)
  {}

  /** Exactly how far one run gets. */
  lemma {:induction false} ReachedExactly(rows: seq<Row>, accepts: Row -> bool, size: nat, limit: Option<nat>)
    requires size > 0
    ensures StopsAt(rows, accepts, size, limit, Reached(rows, accepts, size, limit))
    decreases |rows|
  {
    hide AllInsertable, AllDated;
    var n := if size < |rows| then size else |rows|;
    if rows == [] {
    } else if limit == Some(0) || !AllInsertable(rows[..n], accepts) {
      assert rows[..0] == [] && rows[0..n] == rows[..n];
      NothingRefused(accepts);
    } else {
      var less := if limit.None? then None else Some(limit.value - 1);
      ReachedExactly(rows[n..], accepts, size, less);
      ChunkThenStops(rows, accepts, size, limit, Reached(rows[n..], accepts, size, less));
    }
  }

  lemma ChunkThenStops(rows: seq<Row>, accepts: Row -> bool, size: nat, limit: Option<nat>, more: nat)
    requires size > 0 && limit != Some(0)
    requires var n := if size < |rows| then size else |rows|;
             && AllInsertable(rows[..n], accepts)
             && StopsAt(rows[n..], accepts, size, if limit.None? then None else Some(limit.value - 1), more)
    ensures StopsAt(rows, accepts, size, limit, (if size < |rows| then size else |rows|) + more)
  {
    var n := if size < |rows| then size else |rows|;
    InsertableInTwo(rows, n, more, accepts);
    hide AllInsertable;
    if limit.Some? {
      OneChunkMore(limit.value, size, more);
    } else {
      OneChunkMore(1, size, more);
    }
    ChunkAhead(rows, n, more, size);
  }

  lemma InsertableInTwo(rows: seq<Row>, n: nat, more: nat, accepts: Row -> bool)
    requires n <= n + more <= |rows| && AllInsertable(rows[..n], accepts) && AllInsertable(rows[n..][..more], accepts)
    ensures AllInsertable(rows[..n + more], accepts)
  {
    assert rows[..n + more] == rows[..n] + rows[n..][..more];
  }

  lemma NothingRefused(accepts: Row -> bool)
    ensures AllInsertable([], accepts)
  {}

  lemma ChunkAhead(rows: seq<Row>, n: nat, more: nat, size: nat)
    requires n <= n + more <= |rows|
    ensures rows[n..][more..if size < |rows| - n - more then more + size else |rows| - n]
            == rows[n + more..if size < |rows| - n - more then n + more + size else |rows|]
  {}

  lemma {:induction false} CopyIsInsert(table: Table, rows: seq<Row>, accepts: Row -> bool, size: nat, limit: Option<nat>)
    requires size > 0
    ensures var n := Reached(rows, accepts, size, limit);
            CopyFrom(table, rows, accepts, size, limit) == (InsertNew(table, rows[..n]), n == |rows|)
    decreases |rows|
  {
    hide InsertNew, AllDated;
    var n := if size < |rows| then size else |rows|;
    if rows == [] || limit == Some(0) || !AllInsertable(rows[..n], accepts) {
      assert rows[..0] == [];
      NothingInserted(table);
    } else {
      var less := if limit.None? then None else Some(limit.value - 1);
      CopyIsInsert(InsertNew(table, rows[..n]), rows[n..], accepts, size, less);
      InsertSplit(table, rows, n, Reached(rows[n..], accepts, size, less));
    }
  }

  lemma InsertSplit(table: Table, rows: seq<Row>, n: nat, more: nat)
    requires n <= n + more <= |rows| && AllDated(rows[..n]) && AllDated(rows[n..][..more])
    ensures AllDated(rows[..n + more])
    ensures InsertNew(InsertNew(table, rows[..n]), rows[n..][..more]) == InsertNew(table, rows[..n + more])
  {
    assert rows[..n + more] == rows[..n] + rows[n..][..more];
    InsertInTwo(table, rows[..n], rows[n..][..more]);
  }

  lemma NothingInserted(table: Table)
    ensures InsertNew(table, []) == table
  {}

  lemma {:induction false} FullRunReachesAll(rows: seq<Row>, accepts: Row -> bool, size: nat)
    requires size > 0
    ensures Reached(rows, accepts, size, None) == |rows| <==> AllInsertable(rows, accepts)
    decreases |rows|
  {
    var n := if size < |rows| then size else |rows|;
    if rows != [] && AllInsertable(rows[..n], accepts) {
      FullRunReachesAll(rows[n..], accepts, size);
      assert rows == rows[..n] + rows[n..];
    }
  }

  /** A run that stops early gets no further than one that does not. */
  lemma {:induction false} NoLimitIsFurthest(rows: seq<Row>, accepts: Row -> bool, size: nat, limit: Option<nat>)
    requires size > 0
    ensures Reached(rows, accepts, size, limit) <= Reached(rows, accepts, size, None)
    decreases |rows|
  {
    hide AllInsertable;
    var n := if size < |rows| then size else |rows|;
    if rows != [] && limit != Some(0) && AllInsertable(rows[..n], accepts) {
      NoLimitIsFurthest(rows[n..], accepts, size, if limit.None? then None else Some(limit.value - 1));
    }
  }

  // ---------------------------------------------------------------- histories of runs

  /** A run with some chunk size that may stop early. */
  datatype Run = Run(size: nat, limit: Option<nat>)

  predicate Sized(runs: seq<Run>) {
    forall k :: 0 <= k < |runs| ==> runs[k].size > 0
  }

  function After(table: Table, rows: seq<Row>, accepts: Row -> bool, runs: seq<Run>): Table
    requires Sized(runs)
  {
    if runs == [] then table
    else
      var last := runs[|runs| - 1];
      CopyFrom(After(table, rows, accepts, runs[..|runs| - 1]), rows, accepts, last.size, last.limit).0
  }

  /** How far any of the runs got. */
  function Furthest(rows: seq<Row>, accepts: Row -> bool, runs: seq<Run>): (n: nat)
    requires Sized(runs)
    ensures n <= |rows| && AllDated(rows[..n])
  {
    if runs == [] then 0
    else
      var last := runs[|runs| - 1];
      var m, k := Furthest(rows, accepts, runs[..|runs| - 1]), Reached(rows, accepts, last.size, last.limit);
      if m <= k then k else m
  }

  /** Any history of runs over any source, with any chunk sizes and any early ends, leaves the table
      merged with the rows up to where the furthest run got. */
  lemma {:induction false} HistoryIsPrefix(table: Table, rows: seq<Row>, accepts: Row -> bool, runs: seq<Run>)
    requires Sized(runs)
    ensures After(table, rows, accepts, runs) == InsertNew(table, rows[..Furthest(rows, accepts, runs)])
  {
    hide InsertNew, Reached, AllDated, CopyFrom;
    if runs == [] {
      NothingInserted(table);
      assert rows[..0] == [];
    } else {
      var last, before := runs[|runs| - 1], runs[..|runs| - 1];
      HistoryIsPrefix(table, rows, accepts, before);
      CopyIsInsert(After(table, rows, accepts, before), rows, accepts, last.size, last.limit);
      PrefixAgain(table, rows, Furthest(rows, accepts, before), Reached(rows, accepts, last.size, last.limit));
    }
  }

  /** Runs of one chunk size all stop at the latest where an uninterrupted one does. */
  lemma {:induction false} SameSizeFurthest(rows: seq<Row>, accepts: Row -> bool, runs: seq<Run>, size: nat)
    requires size > 0 && forall k :: 0 <= k < |runs| ==> runs[k].size == size
    ensures Furthest(rows, accepts, runs) <= Reached(rows, accepts, size, None)
  {
    hide Reached, AllDated;
    if runs != [] {
      SameSizeFurthest(rows, accepts, runs[..|runs| - 1], size);
      NoLimitIsFurthest(rows, accepts, size, runs[|runs| - 1].limit);
    }
  }

  /** The copy does not depend on crashes and reruns: after any history of runs with the same chunk
      size, one run to its end gives the merge of the old table and the rows before the first chunk
      the table refuses, and running it once more changes nothing. */
  lemma CopyIsIndependent(table: Table, rows: seq<Row>, accepts: Row -> bool, runs: seq<Run>, size: nat)
    requires size > 0 && forall k :: 0 <= k < |runs| ==> runs[k].size == size
    ensures var n := Reached(rows, accepts, size, None);
            var (result, complete) := CopyFrom(After(table, rows, accepts, runs), rows, accepts, size, None);
            && IsMerge(table, rows[..n], result)
            && (complete <==> AllInsertable(rows, accepts)) && (complete ==> n == |rows|)
            && CopyFrom(result, rows, accepts, size, None) == (result, complete)
  {
    hide InsertNew, Reached, AllDated, AllInsertable, CopyFrom, After, Furthest, IsMerge;
    var n := Reached(rows, accepts, size, None);
    HistoryIsPrefix(table, rows, accepts, runs);
    SameSizeFurthest(rows, accepts, runs, size);
    FullRunReachesAll(rows, accepts, size);
    CopyIsInsert(After(table, rows, accepts, runs), rows, accepts, size, None);
    PrefixAgain(table, rows, Furthest(rows, accepts, runs), n);
    InsertNewMerges(table, rows[..n]);
    CopyIsInsert(InsertNew(table, rows[..n]), rows, accepts, size, None);
    PrefixAgain(table, rows, n, n);
  }

  /** For a source the table takes as a whole it does not depend on the chunk sizes either. */
  lemma CopyIgnoresChunking(table: Table, rows: seq<Row>, accepts: Row -> bool, runs: seq<Run>, size: nat)
    requires AllInsertable(rows, accepts) && size > 0 && Sized(runs)
    ensures var result := CopyFrom(After(table, rows, accepts, runs), rows, accepts, size, None);
            result.1 && IsMerge(table, rows, result.0)
  {
    hide InsertNew, Reached, AllDated, CopyFrom, After, Furthest, IsMerge;
    HistoryIsPrefix(table, rows, accepts, runs);
    FullRunReachesAll(rows, accepts, size);
    CopyIsInsert(After(table, rows, accepts, runs), rows, accepts, size, None);
    assert rows[..|rows|] == rows;
    PrefixAgain(table, rows, Furthest(rows, accepts, runs), |rows|);
    InsertNewMerges(table, rows);
  }

  /** A run to the end completes if and only if the table takes every row: dates read, partitions
      there; otherwise every rerun stops at the same chunk. */
  lemma CompletesIffTaken(table: Table, rows: seq<Row>, accepts: Row -> bool)
    ensures CopyFrom(table, rows, accepts, CHUNK_SIZE, None).1 <==> AllInsertable(rows, accepts)
  {
    FullRunReachesAll(rows, accepts, CHUNK_SIZE);
    CopyIsInsert(table, rows, accepts, CHUNK_SIZE, None);
  }
}
