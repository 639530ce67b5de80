/**
 The snapshot fetched when the dashboard mounts, beside the scans it starts. The backend stamps scans
 as it completes them and answers the fetch with the newest one it then holds; the page writes the
 answer to the screen whenever it arrives.
 */
module ScanSnapshot {
  import opened Options
  import opened ScanRuns

  /** The mount fetch: sent, answered by the backend (None: nothing to show, or an error) but not
      received, received. It is sent once. */
  datatype Fetch = Asked | Answered(stamp: Option<nat>) | Settled

  /** The page; per scan of the page its stamp once the backend completed it; the stamp of the newest
      scan the backend holds (0: none); the mount fetch. */
  datatype Visit = Visit(page: State, stamps: seq<Option<nat>>, clock: nat, fetch: Fetch)

  datatype Happening =
    | Begin
    | Complete(scan: nat)
    | CompleteElsewhere
    | Deliver(scan: nat)
    | Break(scan: nat)
    | Leave
    | Answer
    | NoAnswer
    | Settle

  function Opened(held: nat): Visit {
    Visit(MOUNTED, [], held, Asked)
  }

  function Happen(v: Visit, h: Happening): Visit {
    match h
    case Begin => v.(page := Step(v.page, Start), stamps := v.stamps + if v.page.mounted then [None] else [])
    case Complete(k) =>
      if k < |v.stamps| && v.stamps[k].None?
      then v.(clock := v.clock + 1, stamps := v.stamps[k := Some(v.clock + 1)]) else v
    case CompleteElsewhere => v.(clock := v.clock + 1)
    case Deliver(k) =>
      if k < |v.stamps| && v.stamps[k].Some? then v.(page := Step(v.page, Succeed(k, v.stamps[k].value))) else v
    case Break(k) => v.(page := Step(v.page, Fail(k)))
    case Leave => v.(page := Step(v.page, Unmount))
    case Answer => if v.fetch.Asked? then v.(fetch := Answered(if v.clock > 0 then Some(v.clock) else None)) else v
    case NoAnswer => if v.fetch.Asked? then v.(fetch := Answered(None)) else v
    case Settle =>
      match v.fetch
      case Answered(Some(stamp)) => v.(fetch := Settled, page := Step(v.page, Restored(stamp)))
      case Answered(None) => v.(fetch := Settled)
      case _ => v
  }

  function After(v: Visit, hs: seq<Happening>): Visit
    decreases |hs|
  {
    if hs == [] then v else After(Happen(v, hs[0]), hs[1..])
  }

  /** The snapshot replaces a newer scan on the screen. */
  predicate Overwrites(v: Visit, h: Happening) {
    h == Settle && v.page.shown.Some? &&
    var after := Happen(v, h).page.shown; after.Some? && after.value < v.page.shown.value
  }

  /** It never does while these happen. */
  predicate Spared(v: Visit, hs: seq<Happening>)
    decreases |hs|
  {
    hs != [] ==> !Overwrites(v, hs[0]) && Spared(Happen(v, hs[0]), hs[1..])
  }

  // ---------------------------------------------------------------- every reached visit

  /** Stamps are those of completed scans, on screen too: where the backend holds nothing, nothing is
      shown. */
  predicate Reachable(v: Visit) {
    && OnlyNewestLive(v.page) && |v.stamps| == |v.page.aborted|
    && (forall k :: 0 <= k < |v.stamps| && v.stamps[k].Some? ==> 1 <= v.stamps[k].value <= v.clock)
    && (v.page.shown.Some? ==> 1 <= v.page.shown.value <= v.clock)
    && (v.fetch.Answered? && v.fetch.stamp.Some? ==> 1 <= v.fetch.stamp.value <= v.clock)
  }

  lemma HappenKeepsReachable(v: Visit, h: Happening)
    requires Reachable(v)
    ensures Reachable(Happen(v, h))
  {
    StepKeepsLive(v.page, Start);
    StepKeepsLive(v.page, Unmount);
    hide OnlyNewestLive;
    match h
    case Deliver(k) =>
      if k < |v.stamps| && v.stamps[k].Some? {
        StepKeepsLive(v.page, Succeed(k, v.stamps[k].value));
      }
    case Break(k) => StepKeepsLive(v.page, Fail(k));
    case Settle =>
      if v.fetch.Answered? && v.fetch.stamp.Some? {
        StepKeepsLive(v.page, Restored(v.fetch.stamp.value));
      }
    case _ =>
  }

  lemma {:induction false} AfterReachable(v: Visit, hs: seq<Happening>)
    requires Reachable(v)
    ensures Reachable(After(v, hs))
    decreases |hs|
  {
    hide Reachable;
    if hs != [] {
      HappenKeepsReachable(v, hs[0]);
      AfterReachable(Happen(v, hs[0]), hs[1..]);
    }
  }

  lemma OpenedReachable(held: nat)
    ensures Reachable(Opened(held))
  {}

  // ---------------------------------------------------------------- when it never can

  /** The fetch can no longer write: settled, without an answer, or the page is gone. */
  predicate Spent(v: Visit) {
    v.fetch.Settled? || v.fetch == Answered(None) || !v.page.mounted
  }

  lemma SpentStays(v: Visit, h: Happening)
    requires Spent(v)
    ensures Spent(Happen(v, h)) && !Overwrites(v, h)
  {}

  lemma {:induction false} SpentSpares(v: Visit, hs: seq<Happening>)
    requires Spent(v)
    ensures Spared(v, hs)
    decreases |hs|
  {
    hide Spent;
    if hs != [] {
      SpentStays(v, hs[0]);
      SpentSpares(Happen(v, hs[0]), hs[1..]);
    }
  }

  /** The scan that can still store a result: the newest, neither aborted nor settled. */
  predicate Live(v: Visit, k: nat) {
    k < |v.page.aborted| && k < |v.page.settled| && k < |v.stamps| && !v.page.aborted[k] && !v.page.settled[k]
  }

  /** What the snapshot shows, or will show at least. */
  function Floor(v: Visit): nat {
    if v.fetch.Answered? && v.fetch.stamp.Some? then v.fetch.stamp.value else v.clock
  }

  /** The scan under way overtakes an older answer. */
  lemma LiveOvertaken(v: Visit, k: nat)
    requires Reachable(v) && v.page.mounted && v.fetch.Answered? && v.fetch.stamp.Some?
    requires Live(v, k) && (v.stamps[k].None? || v.stamps[k].value > Floor(v))
    ensures var v1 := Happen(v, Complete(k)); Overwrites(Happen(v1, Deliver(k)), Settle)
  {
    hide OnlyNewestLive;
    var v1 := Happen(v, Complete(k));
    assert v1.stamps[k].Some? && v1.stamps[k].value > Floor(v) && v1.page == v.page;
    assert Happen(v1, Deliver(k)).page.shown == v1.stamps[k];
  }

  /** A scan started now does too. */
  lemma NewScanOvertaken(v: Visit, stamp: nat)
    requires Reachable(v) && v.page.mounted && v.fetch == Answered(Some(stamp))
    ensures var n := |v.stamps|; !Spared(v, [Begin, Complete(n), Deliver(n), Settle])
  {
    var n := |v.stamps|;
    var v1 := Happen(v, Begin);
    var v2 := Happen(v1, Complete(n));
    var v3 := Happen(v2, Deliver(n));
    BeginIsLive(v);
    HappenKeepsReachable(v, Begin);
    hide Happen, Reachable, Overwrites, Live, Floor;
    LiveOvertaken(v1, n);
    assert !Spared(v3, [Settle]);
    UnsparedLater(v2, Deliver(n), [Settle]);
    UnsparedLater(v1, Complete(n), [Deliver(n), Settle]);
    UnsparedLater(v, Begin, [Complete(n), Deliver(n), Settle]);
    assert [Begin] + ([Complete(n)] + ([Deliver(n)] + [Settle])) == [Begin, Complete(n), Deliver(n), Settle];
  }

  lemma BeginIsLive(v: Visit)
    requires Reachable(v) && v.page.mounted
    ensures var v1 := Happen(v, Begin);
            Live(v1, |v.stamps|) && v1.stamps[|v.stamps|].None? && v1.page.mounted && v1.fetch == v.fetch
  {}

  lemma UnsparedLater(v: Visit, h: Happening, hs: seq<Happening>)
    requires !Spared(Happen(v, h), hs)
    ensures !Spared(v, [h] + hs)
  {
    assert ([h] + hs)[1..] == hs;
  }

  /** The snapshot can never replace a newer scan, whatever happens from here on, if and only if the
      fetch has settled, came back empty, or the page is gone: while it is under way, a scan started
      now can finish before it arrives. */
  lemma SnapshotCondition(held: nat, past: seq<Happening>)
    ensures var v := After(Opened(held), past);
            (forall later :: Spared(v, later)) <==> Spent(v)
  {
    var v := After(Opened(held), past);
    OpenedReachable(held);
    AfterReachable(Opened(held), past);
    hide Spared, Reachable, After, Opened;
    if Spent(v) {
      forall later
        ensures Spared(v, later)
      {
        SpentSpares(v, later);
      }
    } else if v.fetch.Asked? {
      var v1 := Happen(v, CompleteElsewhere);
      var v2 := Happen(v1, Answer);
      HappenKeepsReachable(v, CompleteElsewhere);
      HappenKeepsReachable(v1, Answer);
      NewScanOvertaken(v2, v2.clock);
      var n := |v2.stamps|;
      UnsparedLater(v1, Answer, [Begin, Complete(n), Deliver(n), Settle]);
      UnsparedLater(v, CompleteElsewhere, [Answer] + [Begin, Complete(n), Deliver(n), Settle]);
    } else {
      NewScanOvertaken(v, v.fetch.stamp.value);
    }
  }

  // ---------------------------------------------------------------- without a further start

  /** The snapshot is at least as new as what is on screen and as the scan under way. */
  predicate NewEnough(v: Visit) {
    && (v.page.shown.Some? ==> v.page.shown.value <= Floor(v))
    && forall k :: 0 <= k < |v.stamps| && Live(v, k) ==> v.stamps[k].Some? && v.stamps[k].value <= Floor(v)
  }

  lemma QuietStays(v: Visit, h: Happening)
    requires Reachable(v) && (Spent(v) || NewEnough(v)) && h != Begin
    ensures var v' := Happen(v, h);
            !Overwrites(v, h) && (Spent(v') || NewEnough(v'))
  {
    if !Spent(v) {
      var v' := Happen(v, h);
      forall k: nat | Live(v', k)
        ensures Live(v, k) && v'.stamps[k] == v.stamps[k]
      {}
    }
  }

  lemma {:induction false} QuietSpares(v: Visit, hs: seq<Happening>)
    requires Reachable(v) && (Spent(v) || NewEnough(v)) && Begin !in hs
    ensures Spared(v, hs)
    decreases |hs|
  {
    hide Reachable, Spent, NewEnough;
    if hs != [] {
      QuietStays(v, hs[0]);
      HappenKeepsReachable(v, hs[0]);
      QuietSpares(Happen(v, hs[0]), hs[1..]);
    }
  }

  /** If no further scan is started, the snapshot can never replace a newer scan if and only if it is
      spent or at least as new as what is on screen and as the scan under way. */
  lemma QuietSnapshotCondition(held: nat, past: seq<Happening>)
    ensures var v := After(Opened(held), past);
            (forall later :: Begin !in later ==> Spared(v, later)) <==> Spent(v) || NewEnough(v)
  {
    var v := After(Opened(held), past);
    OpenedReachable(held);
    AfterReachable(Opened(held), past);
    hide Spared, After, Opened;
    if Spent(v) || NewEnough(v) {
      forall later | Begin !in later
        ensures Spared(v, later)
      {
        QuietSpares(v, later);
      }
    } else {
      var later := QuietCounterexample(v);
    }
  }

  lemma QuietCounterexample(v: Visit) returns (later: seq<Happening>)
    requires Reachable(v) && !Spent(v) && !NewEnough(v)
    ensures Begin !in later && !Spared(v, later)
  {
    if v.fetch.Answered? {
      later := AnsweredCounterexample(v);
    } else {
      var v1 := Happen(v, CompleteElsewhere);
      var v2 := Happen(v1, Answer);
      var k :| 0 <= k < |v.stamps| && Live(v, k) && v.stamps[k].None?;
      assert v2.stamps == v.stamps && v2.page == v.page;
      assert Live(v2, k);
      HappenKeepsReachable(v, CompleteElsewhere);
      HappenKeepsReachable(v1, Answer);
      hide Spared, Reachable;
      later := AnsweredCounterexample(v2);
      UnsparedLater(v1, Answer, later);
      UnsparedLater(v, CompleteElsewhere, [Answer] + later);
      later := [CompleteElsewhere] + ([Answer] + later);
    }
  }

  lemma AnsweredCounterexample(v: Visit) returns (later: seq<Happening>)
    requires Reachable(v) && v.page.mounted && v.fetch.Answered? && v.fetch.stamp.Some? && !NewEnough(v)
    ensures Begin !in later && !Spared(v, later)
  {
    if v.page.shown.Some? && v.page.shown.value > Floor(v) {
      later := [Settle];
    } else {
      var k :| 0 <= k < |v.stamps| && Live(v, k) && (v.stamps[k].None? || v.stamps[k].value > Floor(v));
      LiveOvertaken(v, k);
      var v1 := Happen(v, Complete(k));
      var v2 := Happen(v1, Deliver(k));
      hide Reachable, Happen, Overwrites;
      assert !Spared(v2, [Settle]);
      UnsparedLater(v1, Deliver(k), [Settle]);
      UnsparedLater(v, Complete(k), [Deliver(k)] + [Settle]);
      later := [Complete(k)] + ([Deliver(k)] + [Settle]);
    }
  }
}
