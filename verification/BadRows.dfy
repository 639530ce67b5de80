/**
 What one table loop does when the process survives: it finishes, or it meets a row whose
 conversion raises. The closing `commit()` of the run then writes the rows staged before it,
 without a checkpoint and in dry runs too, so the outcome depends on where the row sits in its chunk.
 */
module BadRows {
  import opened Options
  import opened Decimals
  import opened MigrationModel
  import opened TableCopy

  /** The account ids a child row may refer to; None when the target does not check. */
  function AccountRefs(db: Db): Option<set<int>> {
    if db.enforced then Some(db.At(Accounts).Ids()) else None
  }

  /** The target takes this row, once converted: column types and the account foreign key. */
  predicate Acceptable(refs: Option<set<int>>, t: Table, row: SourceRow) {
    match ConvertRow(t, row)
    case None => true
    case Some(converted) =>
      FitsColumns(t, converted) && (t != Accounts && refs.Some? ==> row.accountId in refs.value)
  }

  /** The key of row i is neither in the table nor in the rows before it, from row `from` on. */
  predicate NewKey(held: seq<TargetRow>, rows: seq<SourceRow>, from: int, i: nat)
    requires 0 <= from && i < |rows|
  {
    && (forall h :: h in held ==> !Clash(h.key, rows[i].key))
    && forall j :: from <= j < i ==> !Clash(rows[j].key, rows[i].key)
  }

  /** The target, holding `held`, takes these rows together. */
  predicate Takes(refs: Option<set<int>>, t: Table, held: seq<TargetRow>, rows: seq<SourceRow>, from: int, to: int)
    requires 0 <= from && to <= |rows|
  {
    forall i :: from <= i < to ==> Acceptable(refs, t, rows[i]) && NewKey(held, rows, from, i)
  }

  /** Rows of the last, unfinished chunk that stand before position `bad`. */
  function TailLength(size: int, bad: nat): (n: nat)
    ensures n <= bad
  {
    if size > 0 then bad % size else bad
  }

  /** The loop over these rows ends by itself: all convert and, in a live run, the target takes all. */
  predicate Finishes(refs: Option<set<int>>, t: Table, held: seq<TargetRow>, rows: seq<SourceRow>, dry: bool) {
    |Staged(t, rows)| >= |rows| && (dry || Takes(refs, t, held, rows, 0, |rows|))
  }

  /** Some row does not convert, the first such row is not the first of its chunk, and the target
      takes the rows before it: all of them in a live run, those of its chunk in a dry run. */
  predicate Spoils(refs: Option<set<int>>, t: Table, held: seq<TargetRow>, rows: seq<SourceRow>, size: int, dry: bool) {
    var bad := |Staged(t, rows)|;
    var tail := TailLength(size, bad);
    bad < |rows| && tail > 0 && Takes(refs, t, held, rows, if dry then bad - tail else 0, bad)
  }

  /** The target refuses some of the rows a commit offers it: of all before the first that does not
      convert in a live run, of those of its chunk in a dry run, which commits only after raising. */
  predicate Refuses(refs: Option<set<int>>, t: Table, held: seq<TargetRow>, rows: seq<SourceRow>, size: int, dry: bool) {
    var bad := |Staged(t, rows)|;
    bad <= |rows| && (dry ==> bad < |rows|)
    && !Takes(refs, t, held, rows, if dry then bad - TailLength(size, bad) else 0, bad)
  }

  lemma CheckpointCovers(all: seq<SourceRow>, t: Table, s: TableState)
    requires OrderedRead(all) && Consistent(all, t, s)
    ensures forall r :: r in s.rows ==> r.id <= s.Position().lastPk
  {
    hide Staged;
    StagedPrefix(t, all[..|s.rows|]);
    forall r | r in s.rows
      ensures r.id <= s.Position().lastPk
    {
      var i :| 0 <= i < |s.rows| && s.rows[i] == r;
      assert r.id == all[i].id;
    }
  }

  /** The next rows to read have new ids, so the target takes them if and only if it takes each of
      them and their keys are new. */
  lemma NextRowsAdmitted(all: seq<SourceRow>, t: Table, db: Db, part: seq<SourceRow>, j: nat)
    requires OrderedRead(all) && Consistent(all, t, db.At(t))
    requires |db.At(t).rows| <= j <= j + |part| <= |all| && part == all[j..j + |part|]
    ensures |Staged(t, part)| <= |part|
    ensures Admits(db, t, Staged(t, part)) <==> Takes(AccountRefs(db), t, db.At(t).rows, part, 0, |Staged(t, part)|)
  {
    hide Staged, FitsColumns, ConvertRow, Clash, NewKeys, NewKey, Consistent, OrderedRead;
    var s, staged := db.At(t), Staged(t, part);
    StagedPrefix(t, part);
    NewIds(all, t, s, part, j);
    KeysCarryOver(s.rows, staged, part);
    assert forall i :: 0 <= i < |staged| ==> staged[i] in staged;
  }

  lemma KeysCarryOver(held: seq<TargetRow>, staged: seq<TargetRow>, part: seq<SourceRow>)
    requires |staged| <= |part| && forall i :: 0 <= i < |staged| ==> staged[i].key == part[i].key
    ensures NewKeys(held, staged) <==> forall i :: 0 <= i < |staged| ==> NewKey(held, part, 0, i)
  {
    hide Clash;
    if forall i :: 0 <= i < |staged| ==> NewKey(held, part, 0, i) {
      forall i, j | 0 <= i < j < |staged|
        ensures !Clash(staged[i].key, staged[j].key)
      {
        assert NewKey(held, part, 0, j);
      }
      forall h, i | h in held && 0 <= i < |staged|
        ensures !Clash(h.key, staged[i].key)
      {
        assert NewKey(held, part, 0, i);
      }
    }
  }

  lemma NewIds(all: seq<SourceRow>, t: Table, s: TableState, part: seq<SourceRow>, j: nat)
    requires OrderedRead(all) && Consistent(all, t, s)
    requires |s.rows| <= j <= j + |part| <= |all| && part == all[j..j + |part|]
    ensures DistinctIds(Staged(t, part)) && forall r :: r in Staged(t, part) ==> r.id !in s.Ids()
  {
    hide Staged, ConvertRow;
    var staged := Staged(t, part);
    StagedPrefix(t, part);
    StagedPrefix(t, all[..|s.rows|]);
    forall i | 0 <= i < |staged|
      ensures staged[i].id == all[j + i].id && staged[i].id !in s.Ids()
    {
      forall held | held in s.rows
        ensures held.id != staged[i].id
      {
        var h :| 0 <= h < |s.rows| && s.rows[h] == held;
        assert held.id == all[h].id;
      }
    }
  }

  lemma SameTakes(db: Db, db': Db, t: Table, held: seq<TargetRow>, rows: seq<SourceRow>, to: nat)
    requires SameElsewhere(db, db', t) && to <= |rows|
    ensures Takes(AccountRefs(db), t, held, rows, 0, to) <==> Takes(AccountRefs(db'), t, held, rows, 0, to)
  {
    hide ConvertRow, FitsColumns, NewKey;
    forall i | 0 <= i < to
      ensures Acceptable(AccountRefs(db), t, rows[i]) <==> Acceptable(AccountRefs(db'), t, rows[i])
    {
      if t != Accounts {
        assert AccountRefs(db) == AccountRefs(db');
      }
    }
  }

  /** The next chunk is admitted exactly when the target takes its rows. */
  lemma ChunkAdmitted(all: seq<SourceRow>, job: Job, start: Db, loop: Loop, part: seq<SourceRow>)
    requires OrderedRead(all) && LoopInvariant(all, job, start, loop)
    requires |part| <= |loop.rest| && part == loop.rest[..|part|]
    ensures |Staged(job.table, part)| <= |part|
    ensures Admits(loop.db, job.table, Staged(job.table, part)) <==>
            Takes(AccountRefs(start), job.table, loop.db.At(job.table).rows, loop.rest, 0, |Staged(job.table, part)|)
  {
    var j, held := |all| - |loop.rest|, loop.db.At(job.table).rows;
    assert part == all[j..j + |part|];
    assert Consistent(all, job.table, loop.db.At(job.table)) && SameElsewhere(start, loop.db, job.table);
    assert |held| <= j;
    hide *;
    NextRowsAdmitted(all, job.table, loop.db, part, j);
    SameTakes(start, loop.db, job.table, held, part, |Staged(job.table, part)|);
    SamePrefix(AccountRefs(start), job.table, held, part, loop.rest, |Staged(job.table, part)|);
  }

  /** The first raising row lies in the next chunk or in what follows. */
  lemma FirstRaising(t: Table, rows: seq<SourceRow>, n: nat)
    requires n <= |rows|
    ensures var staged, bad := Staged(t, rows[..n]), |Staged(t, rows)|;
            && |staged| <= n
            && (|staged| < n ==> bad == |staged|)
            && (|staged| == n ==> bad == n + |Staged(t, rows[n..])|)
  {
    hide Staged;
    StagedPrefix(t, rows[..n]);
    assert rows == rows[..n] + rows[n..];
    StagedSplit(t, rows[..n], rows[n..]);
  }

  lemma SamePrefix(refs: Option<set<int>>, t: Table, held: seq<TargetRow>, part: seq<SourceRow>, rows: seq<SourceRow>, to: nat)
    requires to <= |part| <= |rows| && part == rows[..|part|]
    ensures Takes(refs, t, held, part, 0, to) <==> Takes(refs, t, held, rows, 0, to)
  {
    hide Acceptable, Clash;
    assert forall i :: 0 <= i < to ==> part[i] == rows[i];
    assert forall i :: 0 <= i < to ==> (NewKey(held, part, 0, i) <==> NewKey(held, rows, 0, i));
  }

  /** A dry run forgets the first n rows. */
  lemma TakesLater(refs: Option<set<int>>, t: Table, held: seq<TargetRow>, rows: seq<SourceRow>, n: nat, from: nat, to: nat)
    requires n <= |rows| && from <= to <= |rows| - n
    ensures Takes(refs, t, held, rows[n..], from, to) <==> Takes(refs, t, held, rows, n + from, n + to)
  {
    hide Acceptable, Clash;
    var rest := rows[n..];
    assert forall i :: 0 <= i < |rest| ==> rest[i] == rows[n + i];
    forall i | from <= i < to
      ensures NewKey(held, rest, from, i) <==> NewKey(held, rows, n + from, n + i)
    {
      if NewKey(held, rest, from, i) {
        forall j | n + from <= j < n + i
          ensures !Clash(rows[j].key, rows[n + i].key)
        {
          assert rows[j] == rest[j - n];
        }
      }
    }
    hide NewKey;
    if Takes(refs, t, held, rest, from, to) {
      forall i | n + from <= i < n + to
        ensures Acceptable(refs, t, rows[i]) && NewKey(held, rows, n + from, i)
      {
        assert rest[i - n] == rows[i] && NewKey(held, rest, from, i - n);
      }
    }
  }

  lemma NewKeyAfter(t: Table, held: seq<TargetRow>, rows: seq<SourceRow>, n: nat, i: nat)
    requires n <= n + i < |rows| && |Staged(t, rows[..n])| == n
    ensures NewKey(held + Staged(t, rows[..n]), rows[n..], 0, i) <==> NewKey(held, rows, 0, n + i)
  {
    hide Clash, Staged;
    var rest, more := rows[n..], Staged(t, rows[..n]);
    StagedPrefix(t, rows[..n]);
    if NewKey(held + more, rest, 0, i) {
      forall j | 0 <= j < n + i
        ensures !Clash(rows[j].key, rows[n + i].key)
      {
        if j < n {
          assert more[j] in held + more;
        } else {
          assert rows[j] == rest[j - n];
        }
      }
      assert forall h :: h in held ==> h in held + more;
    }
    if NewKey(held, rows, 0, n + i) {
      assert forall h :: h in held + more ==> h in held || exists k :: 0 <= k < n && more[k] == h;
    }
  }

  /** A live run adds the first n rows to the table. */
  lemma TakesAfter(refs: Option<set<int>>, t: Table, held: seq<TargetRow>, rows: seq<SourceRow>, n: nat, to: nat)
    requires n <= n + to <= |rows| && Takes(refs, t, held, rows, 0, n) && |Staged(t, rows[..n])| == n
    ensures Takes(refs, t, held + Staged(t, rows[..n]), rows[n..], 0, to) <==> Takes(refs, t, held, rows, 0, n + to)
  {
    hide Acceptable, Staged, NewKey;
    var rest, held' := rows[n..], held + Staged(t, rows[..n]);
    forall i | 0 <= i < to
      ensures rest[i] == rows[n + i] && (NewKey(held', rest, 0, i) <==> NewKey(held, rows, 0, n + i))
    {
      NewKeyAfter(t, held, rows, n, i);
    }
    if Takes(refs, t, held', rest, 0, to) {
      forall i | 0 <= i < n + to
        ensures Acceptable(refs, t, rows[i]) && NewKey(held, rows, 0, i)
      {
        if i >= n {
          assert rest[i - n] == rows[i] && NewKey(held', rest, 0, i - n);
        }
      }
    }
  }

  /** Looking past the first n rows: the later rows decide once the first n are out of the way. */
  lemma VerdictAfter(refs: Option<set<int>>, t: Table, held: seq<TargetRow>, rows: seq<SourceRow>, n: nat, size: int, dry: bool)
    requires n == ChunkLength(size, |rows|) > 0 && |Staged(t, rows[..n])| == n
    requires |Staged(t, rows)| == n + |Staged(t, rows[n..])| <= |rows|
    requires dry || Takes(refs, t, held, rows, 0, n)
    ensures var held' := if dry then held else held + Staged(t, rows[..n]);
            && (Finishes(refs, t, held, rows, dry) <==> Finishes(refs, t, held', rows[n..], dry))
            && (Spoils(refs, t, held, rows, size, dry) <==> Spoils(refs, t, held', rows[n..], size, dry))
            && (Refuses(refs, t, held, rows, size, dry) <==> Refuses(refs, t, held', rows[n..], size, dry))
    ensures |Staged(t, rows)| < |rows| ==> TailLength(size, |Staged(t, rows)|) == TailLength(size, |Staged(t, rows[n..])|)
  {
    hide Staged, Acceptable, TailLength, Takes;
    var bad := |Staged(t, rows)|;
    TailStep(size, |rows|, bad);
    if dry {
      if bad < |rows| {
        TakesLater(refs, t, held, rows, n, bad - n - TailLength(size, bad), bad - n);
      }
    } else {
      TakesAfter(refs, t, held, rows, n, bad - n);
    }
  }

  /** A surviving loop finishes or raises exactly as the rows say, and leaves rows behind that the
      closing commit then writes exactly when they spoil the table. */
  lemma {:induction false} SurvivingLoop(all: seq<SourceRow>, job: Job, start: Db, loop: Loop)
    requires OrderedRead(all) && LoopInvariant(all, job, start, loop) && loop.life == Immortal
    ensures var r := Copy(job, loop);
            var refs, held, bad := AccountRefs(start), loop.db.At(job.table).rows, |Staged(job.table, loop.rest)|;
            && r.life == Immortal && !r.outcome.Killed?
            && (r.outcome.Finished? <==> Finishes(refs, job.table, held, loop.rest, job.dry))
            && (r.pending != [] && Admits(r.db, job.table, r.pending) <==>
                Spoils(refs, job.table, held, loop.rest, job.size, job.dry))
            && (r.outcome.Refused? || (r.pending != [] && !Admits(r.db, job.table, r.pending)) <==>
                Refuses(refs, job.table, held, loop.rest, job.size, job.dry))
            && (Spoils(refs, job.table, held, loop.rest, job.size, job.dry) ==> |r.pending| == TailLength(job.size, bad))
            && (Spoils(refs, job.table, held, loop.rest, job.size, job.dry) && !job.dry ==>
                  |r.db.At(job.table).rows| + |r.pending| == |loop.db.At(job.table).rows| + bad)
    decreases |loop.rest|
  {
    hide Staged, Admits, OrderedRead, Acceptable, Takes, TailLength, MaxId, Consistent, Progressed, AccountRefs, Finishes, Clash;
    StagedPrefix(job.table, loop.rest);
    if loop.rest != [] {
      var n := ChunkLength(job.size, |loop.rest|);
      var part := loop.rest[..n];
      ChunkAdmitted(all, job, start, loop, part);
      FirstRaising(job.table, loop.rest, n);
      if |Staged(job.table, part)| < n {
        RaisesHere(AccountRefs(start), job.table, loop.db.At(job.table).rows, loop.rest, n, job.size, job.dry);
      } else if job.dry || Admits(loop.db, job.table, Staged(job.table, part)) {
        StepKeepsInvariant(all, job, start, loop);
        VerdictAfter(AccountRefs(start), job.table, loop.db.At(job.table).rows, loop.rest, n, job.size, job.dry);
        SurvivingLoop(all, job, start, ChunkStep(job, loop).loop);
      } else {
        RefusedHere(AccountRefs(start), job.table, loop.db.At(job.table).rows, loop.rest, n, job.size);
      }
    } else {
      NothingToDo(AccountRefs(start), job.table, loop.db.At(job.table).rows, job.size, job.dry);
    }
  }

  /** Staging two parts one after the other: the second counts only if the first is complete. */
  lemma {:induction false} StagedSplit(t: Table, xs: seq<SourceRow>, ys: seq<SourceRow>)
    ensures |Staged(t, xs)| == |xs| ==> |Staged(t, xs + ys)| == |xs| + |Staged(t, ys)|
    ensures |Staged(t, xs)| < |xs| ==> Staged(t, xs + ys) == Staged(t, xs)
  {
    hide ConvertRow;
    StagedPrefix(t, xs);
    if |Staged(t, xs)| == |xs| {
      StagedConcat(t, xs, ys);
    } else if ConvertRow(t, xs[0]).Some? {
      assert (xs + ys)[1..] == xs[1..] + ys;
      StagedSplit(t, xs[1..], ys);
    }
  }

  lemma TailStep(size: int, left: nat, bad: nat)
    requires left > 0 && ChunkLength(size, left) <= bad <= left
    ensures bad < left ==> TailLength(size, bad) == TailLength(size, bad - ChunkLength(size, left))
  {
    if bad < left {
      assert ChunkLength(size, left) == size;
      assert bad == (bad - size) + 1 * size;
      ModStep(bad - size, size);
    }
  }

  lemma ModStep(x: nat, n: nat)
    requires n > 0
    ensures (x + n) % n == x % n
  {
    var d := (x + n) / n - x / n - 1;
    assert d * n == x % n - (x + n) % n;
    MultipleIsFar(d, n);
  }

  lemma MultipleIsFar(d: int, n: nat)
    ensures d >= 1 ==> d * n >= n
    ensures d <= -1 ==> d * n <= -(n as int)
  {}

  lemma TailInChunk(size: int, left: nat, bad: nat)
    requires bad < ChunkLength(size, left)
    ensures TailLength(size, bad) == bad
  {
    if size > 0 {
      assert bad / size == 0;
    }
  }

  lemma NothingToDo(refs: Option<set<int>>, t: Table, held: seq<TargetRow>, size: int, dry: bool)
    ensures Finishes(refs, t, held, [], dry)
    ensures !Spoils(refs, t, held, [], size, dry) && !Refuses(refs, t, held, [], size, dry)
  {}

  lemma RaisesHere(refs: Option<set<int>>, t: Table, held: seq<TargetRow>, rows: seq<SourceRow>, n: nat, size: int, dry: bool)
    requires n == ChunkLength(size, |rows|) && |Staged(t, rows)| < n
    ensures var bad := |Staged(t, rows)|;
            && !Finishes(refs, t, held, rows, dry) && TailLength(size, bad) == bad
            && (Spoils(refs, t, held, rows, size, dry) <==> bad > 0 && Takes(refs, t, held, rows, 0, bad))
            && (Refuses(refs, t, held, rows, size, dry) <==> bad > 0 && !Takes(refs, t, held, rows, 0, bad))
  {
    hide Staged, Acceptable;
    TailInChunk(size, |rows|, |Staged(t, rows)|);
  }

  lemma RefusedHere(refs: Option<set<int>>, t: Table, held: seq<TargetRow>, rows: seq<SourceRow>, n: nat, size: int)
    requires n <= |Staged(t, rows)| <= |rows| && !Takes(refs, t, held, rows, 0, n)
    ensures !Finishes(refs, t, held, rows, false)
    ensures !Spoils(refs, t, held, rows, size, false) && Refuses(refs, t, held, rows, size, false)
  {
    hide Staged, Acceptable, NewKey;
  }

  /** The rows a table loop has still to read. */
  function Unread(rows: seq<SourceRow>, db: Db, t: Table): seq<SourceRow> {
    SelectAfter(rows, db.At(t).Position().lastPk)
  }

  /** Exactly when a row that cannot be converted does harm. From a consistent table, whatever rows
      the target would refuse, a surviving loop and its closing commit leave the table inconsistent
      (a dry one: change it) if and only if the unread rows spoil it. */
  lemma BadRowVerdict(rows: seq<SourceRow>, db: Db, t: Table, size: int, dry: bool)
    requires UniqueIds(rows) && Consistent(SelectAfter(rows, 0), t, db.At(t))
    ensures var r := CopyTable(rows, db, t, size, dry, Immortal);
            var after, rest, refs := CloseSession(r, t), Unread(rows, db, t), AccountRefs(db);
            var spoils, bad := Spoils(refs, t, db.At(t).rows, rest, size, dry), |Staged(t, rest)|;
            && r.life == Immortal && !r.outcome.Killed?
            && (r.outcome.Finished? <==> Finishes(refs, t, db.At(t).rows, rest, dry))
            && (r.outcome.Refused? || (r.pending != [] && !Admits(r.db, t, r.pending)) <==>
                Refuses(refs, t, db.At(t).rows, rest, size, dry))
            && (Consistent(SelectAfter(rows, 0), t, after.At(t)) <==> !spoils)
            && (dry ==> (after == db <==> !spoils))
            && (spoils ==> r.outcome.Raised?
                           && |after.At(t).rows| == |db.At(t).rows| + if dry then TailLength(size, bad) else bad)
  {
    hide Staged, Admits, Copy, ChunkStep, OrderById, IdAbove, Finishes, Spoils, Refuses, TailLength, Consistent, AccountRefs;
    var all := SelectAfter(rows, 0);
    StartsInvariant(rows, db, t, size, dry);
    CopyTableOutcome(rows, db, t, size, dry, Immortal);
    SurvivingLoop(all, StartJob(db, t, size, dry), db, StartLoop(rows, db, t, Immortal));
    var r := CopyTable(rows, db, t, size, dry, Immortal);
    var after := CloseSession(r, t);
    if Spoils(AccountRefs(db), t, db.At(t).rows, Unread(rows, db, t), size, dry) {
      assert |after.At(t).rows| == |r.db.At(t).rows| + |r.pending|;
    }
    WholeReadOrdered(rows);
    NotBoth(all, t, after.At(t));
  }

  lemma StartsInvariant(rows: seq<SourceRow>, db: Db, t: Table, size: int, dry: bool)
    requires UniqueIds(rows) && Consistent(SelectAfter(rows, 0), t, db.At(t))
    ensures OrderedRead(SelectAfter(rows, 0))
    ensures LoopInvariant(SelectAfter(rows, 0), StartJob(db, t, size, dry), db, StartLoop(rows, db, t, Immortal))
  {
    hide Staged, OrderById, IdAbove;
    WholeReadOrdered(rows);
    ResumeExactly(rows, |db.At(t).rows|);
  }

  /** A table is not consistent and stuck at once. */
  lemma NotBoth(all: seq<SourceRow>, t: Table, s: TableState)
    requires OrderedRead(all)
    ensures !(Consistent(all, t, s) && Stuck(all, s))
  {
    hide Consistent;
    if Consistent(all, t, s) {
      CheckpointCovers(all, t, s);
    }
  }

  /** The death of the process only cuts a loop short. */
  lemma {:induction false} LifeOnlyKills(job: Job, loop: Loop)
    ensures var r, full := Copy(job, loop), Copy(job, loop.(life := Immortal));
            !r.outcome.Killed? ==> r == full.(life := r.life)
    decreases |loop.rest|
  {
    hide Commit, Staged;
    match ChunkStep(job, loop)
    case Stop(_) =>
    case Next(next) => LifeOnlyKills(job, next);
  }

  lemma ZeroCell(cast: Cast)
    ensures CastCell(Number(0.0), cast) == Some(Some(0.0))
  {
    assert Coefficient(0.0, cast.places) == 0;
  }

  lemma ZeroConverts(id: int)
    ensures var row := SourceRow(id, 0, [Number(0.0), Number(0.0), Number(0.0)], "", true, true, None);
            ConvertRow(Accounts, row).Some? && forall refs :: Acceptable(refs, Accounts, row)
  {
    var casts := Casts(Accounts);
    var cells := [Number(0.0), Number(0.0), Number(0.0)];
    forall i | 0 <= i < 3
      ensures CastCell(cells[i], casts[i]) == Some(Some(0.0))
    {
      ZeroCell(casts[i]);
    }
    hide CastCell, CastCells;
    CastCellsPointwise(cells, casts);
  }

  lemma TwoRows(t: Table, x: SourceRow, y: SourceRow)
    requires 0 < x.id < y.id
    ensures SelectAfter([x, y], 0) == [x, y] && UniqueIds([x, y])
    ensures ConvertRow(t, x).Some? && ConvertRow(t, y).None? ==> |Staged(t, [x, y])| == 1
  {
    hide ConvertRow;
    assert [x, y][1..] == [y] && [y][1..] == [];
    assert IdAbove([y], 0) == [y] && IdAbove([x, y], 0) == [x, y];
    assert OrderById([y]) == [y];
    assert OrderById([x, y]) == InsertById(x, [y]) == [x, y];
    if ConvertRow(t, y).None? {
      assert Staged(t, [y]) == [];
    }
  }

  const GOOD := SourceRow(1, 0, [Number(0.0), Number(0.0), Number(0.0)], "", true, true, None)
  const BAD := SourceRow(2, 0, [Malformed, Number(0.0), Number(0.0)], "", true, true, None)

  /** The smallest case, with the script's default chunk size: two accounts, the second with text in
      its balance, spoil the accounts table. */
  lemma TwoRowsSpoil(refs: Option<set<int>>, dry: bool)
    ensures UniqueIds([GOOD, BAD]) && SelectAfter([GOOD, BAD], 0) == [GOOD, BAD]
    ensures Spoils(refs, Accounts, [], [GOOD, BAD], 500, dry) && |Staged(Accounts, [GOOD, BAD])| == 1
  {
    ZeroConverts(1);
    assert ConvertRow(Accounts, BAD).None?;
    hide ConvertRow, SelectAfter, Staged, UniqueIds, Acceptable;
    TwoRows(Accounts, GOOD, BAD);
  }

  /** A dry run over them writes the first one to the target. */
  lemma DryRunCanWrite(enforced: bool)
    ensures var r := CopyTable([GOOD, BAD], EmptyDb(enforced), Accounts, 500, true, Immortal);
            r.outcome.Raised? && |CloseSession(r, Accounts).At(Accounts).rows| == 1
  {
    TwoRowsSpoil(AccountRefs(EmptyDb(enforced)), true);
    EmptyIsConsistent([GOOD, BAD], Accounts, enforced);
    assert TailLength(500, 1) == 1;
    hide SelectAfter, Staged, UniqueIds, CopyTable, CloseSession, Consistent, Acceptable;
    BadRowVerdict([GOOD, BAD], EmptyDb(enforced), Accounts, 500, true);
  }

  lemma EmptyIsConsistent(rows: seq<SourceRow>, t: Table, enforced: bool)
    ensures Consistent(SelectAfter(rows, 0), t, EmptyDb(enforced).At(t))
    ensures EmptyDb(enforced).At(t).rows == [] && Unread(rows, EmptyDb(enforced), t) == SelectAfter(rows, 0)
  {
    hide SelectAfter;
  }

  const TRADE := SourceRow(1, 1, [], "", true, true, None)
  const NUMERIC_DATE := SourceRow(2, 1, [], "", false, true, None)

  /** A date stored as a number spoils a table that has no decimal column at all. */
  lemma NumericDateSpoils(refs: Option<set<int>>, dry: bool)
    requires refs.Some? ==> 1 in refs.value
    ensures Spoils(refs, Transactions, [], SelectAfter([TRADE, NUMERIC_DATE], 0), 500, dry)
  {
    assert ConvertRow(Transactions, TRADE).Some? && ConvertRow(Transactions, NUMERIC_DATE).None?;
    assert Acceptable(refs, Transactions, TRADE);
    hide ConvertRow, SelectAfter, Staged, UniqueIds, Acceptable;
    TwoRows(Transactions, TRADE, NUMERIC_DATE);
  }
}
