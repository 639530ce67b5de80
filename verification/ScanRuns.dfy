/**
 Overlapping scans on the dashboard: every start aborts the scan before it, and a scan that settles
 writes only if its own controller is not aborted. Handlers run to completion between awaits, so any
 sequence of events is an interleaving. The snapshot fetched on mount is written without such a check;
 ScanSnapshot says what follows.
 */
module ScanRuns {
  import opened Options

  /** A result, and the snapshot fetched on mount, carry the stamp of the scan they show. */
  datatype Event = Start | Succeed(scan: nat, stamp: nat) | Fail(scan: nat) | Unmount | Restored(stamp: nat)

  /** Per scan its aborted and settled flags; the controller in scanAbortRef; the scans that stored a
      result, and those that stored a result or an error, in order; the stamp of the scan on screen;
      and whether the page is still there to start scans and show anything. */
  datatype State = State(aborted: seq<bool>, settled: seq<bool>, current: Option<nat>,
                         results: seq<nat>, writes: seq<nat>, shown: Option<nat>, mounted: bool)

  const MOUNTED := State([], [], None, [], [], None, true)

  function AbortCurrent(s: State): seq<bool> {
    if s.current.Some? && s.current.value < |s.aborted| then s.aborted[s.current.value := true] else s.aborted
  }

  /** A promise settles once; an event for a scan that is not pending cannot happen. */
  predicate Pending(s: State, scan: nat) {
    scan < |s.settled| && scan < |s.aborted| && !s.settled[scan]
  }

  function Step(s: State, e: Event): State {
    match e
    case Start =>
      if !s.mounted then s
      else s.(aborted := AbortCurrent(s) + [false], settled := s.settled + [false], current := Some(|s.aborted|))
    case Unmount => s.(aborted := AbortCurrent(s), mounted := false)
    case Restored(stamp) => if s.mounted then s.(shown := Some(stamp)) else s
    case Succeed(k, stamp) =>
      if !Pending(s, k) then s
      else if s.aborted[k] then s.(settled := s.settled[k := true])
      else s.(settled := s.settled[k := true], results := s.results + [k], writes := s.writes + [k], shown := Some(stamp))
    case Fail(k) =>
      if !Pending(s, k) then s
      else if s.aborted[k] then s.(settled := s.settled[k := true])
      else s.(settled := s.settled[k := true], writes := s.writes + [k])
  }

  function Run(events: seq<Event>): State {
    if events == [] then MOUNTED else Step(Run(events[..|events| - 1]), events[|events| - 1])
  }

  /** The component's handlers on its own mutable references. */
  class Dashboard {
    var aborted: seq<bool>
    var settled: seq<bool>
    var controller: Option<nat>
    var results: seq<nat>
    var writes: seq<nat>
    var shown: Option<nat>
    var mounted: bool

    ghost function View(): State
      reads this
    {
      State(aborted, settled, controller, results, writes, shown, mounted)
    }

    predicate Valid()
      reads this
    {
      |aborted| == |settled| && (controller.Some? ==> controller.value < |aborted|)
    }

    constructor ()
      ensures Valid() && View() == MOUNTED
    {
      aborted, settled, controller, results, writes, shown, mounted := [], [], None, [], [], None, true;
    }

    method Abort()
      requires Valid()
      modifies this`aborted
      ensures Valid() && aborted == old(AbortCurrent(View()))
    {
      if controller.Some? {
        aborted := aborted[controller.value := true];
      }
    }

    method HandleRunScanner() returns (scan: nat)
      requires Valid() && mounted
      modifies this
      ensures Valid() && View() == Step(old(View()), Start) && scan == old(|aborted|)
    {
      Abort();
      scan := |aborted|;
      aborted, settled, controller := aborted + [false], settled + [false], Some(scan);
    }

    /** `stamp`: the stamp of the response, None when the scan failed. */
    method OnSettled(scan: nat, stamp: Option<nat>)
      requires Valid() && scan < |settled| && !settled[scan]
      modifies this
      ensures Valid() && View() == Step(old(View()), if stamp.Some? then Succeed(scan, stamp.value) else Fail(scan))
    {
      settled := settled[scan := true];
      if aborted[scan] {
        return;
      }
      writes := writes + [scan];
      if stamp.Some? {
        results, shown := results + [scan], stamp;
      }
    }

    method OnUnmount()
      requires Valid()
      modifies this
      ensures Valid() && View() == Step(old(View()), Unmount)
    {
      Abort();
      mounted := false;
    }

    method OnSnapshotLoaded(stamp: nat)
      requires Valid()
      modifies this`shown
      ensures Valid() && View() == Step(old(View()), Restored(stamp))
    {
      if mounted {
        shown := Some(stamp);
      }
    }
  }

  // ---------------------------------------------------------------- latest run wins

  predicate Increasing(xs: seq<nat>) {
    forall i, j :: 0 <= i < j < |xs| ==> xs[i] < xs[j]
  }

  /** Every scan but the newest is aborted, and scanAbortRef holds the newest. */
  predicate OnlyNewestLive(s: State) {
    && |s.aborted| == |s.settled|
    && (s.current == if s.aborted == [] then None else Some(|s.aborted| - 1))
    && (forall k :: 0 <= k < |s.aborted| - 1 ==> s.aborted[k])
  }

  /** Written scans have settled, in strictly increasing start order; results are among them. */
  predicate OrderedWrites(s: State) {
    && Increasing(s.writes) && Increasing(s.results)
    && (forall i :: 0 <= i < |s.writes| ==> s.writes[i] < |s.settled| && s.settled[s.writes[i]])
    && (s.results != [] ==> s.writes != [] && s.results[|s.results| - 1] <= s.writes[|s.writes| - 1])
  }

  /** A scan that settled unaborted is the last to have written. */
  predicate LiveWroteLast(s: State) {
    |s.aborted| == |s.settled|
    && forall k :: 0 <= k < |s.aborted| && !s.aborted[k] && s.settled[k] ==>
         s.writes != [] && s.writes[|s.writes| - 1] == k
  }

  predicate Invariant(s: State) {
    OnlyNewestLive(s) && OrderedWrites(s) && LiveWroteLast(s)
  }

  lemma WritesAreOlder(s: State, k: nat)
    requires OnlyNewestLive(s) && OrderedWrites(s) && Pending(s, k) && !s.aborted[k]
    ensures k == |s.aborted| - 1
    ensures forall i :: 0 <= i < |s.writes| ==> s.writes[i] < k
    ensures forall i :: 0 <= i < |s.results| ==> s.results[i] < k
  {
    if s.results != [] {
      var last := |s.results| - 1;
      assert forall i :: 0 <= i < |s.results| ==> s.results[i] <= s.results[last];
    }
  }

  lemma IncreasingAppend(xs: seq<nat>, k: nat)
    requires Increasing(xs) && forall i :: 0 <= i < |xs| ==> xs[i] < k
    ensures Increasing(xs + [k])
  {}

  lemma StepKeepsOrder(s: State, e: Event)
    requires OnlyNewestLive(s) && OrderedWrites(s)
    ensures OrderedWrites(Step(s, e))
  {
    if (e.Succeed? || e.Fail?) && Pending(s, e.scan) && !s.aborted[e.scan] {
      WritesAreOlder(s, e.scan);
      IncreasingAppend(s.writes, e.scan);
      IncreasingAppend(s.results, e.scan);
      hide Increasing;
    }
  }

  lemma StepKeepsLive(s: State, e: Event)
    requires OnlyNewestLive(s)
    ensures OnlyNewestLive(Step(s, e))
  {}

  lemma StepKeepsLast(s: State, e: Event)
    requires OnlyNewestLive(s) && LiveWroteLast(s)
    ensures LiveWroteLast(Step(s, e))
  {
    var s' := Step(s, e);
    forall k | 0 <= k < |s'.aborted| && !s'.aborted[k] && s'.settled[k]
      ensures s'.writes != [] && s'.writes[|s'.writes| - 1] == k
    {
      if k < |s.aborted| {
        assert !s.aborted[k] && k == |s.aborted| - 1;
      }
    }
  }

  lemma StepKeepsInvariant(s: State, e: Event)
    requires Invariant(s)
    ensures Invariant(Step(s, e))
  {
    hide OrderedWrites, OnlyNewestLive, LiveWroteLast, Step;
    StepKeepsLive(s, e);
    StepKeepsOrder(s, e);
    StepKeepsLast(s, e);
  }

  /** For every interleaving: at most one scan, the newest, is unaborted; results and errors are
      written in strictly increasing start order; and an unaborted scan that has settled is the
      last one to have written. */
  lemma {:induction false} LatestRunWins(events: seq<Event>)
    ensures Invariant(Run(events))
  {
    if events != [] {
      LatestRunWins(events[..|events| - 1]);
      StepKeepsInvariant(Run(events[..|events| - 1]), events[|events| - 1]);
    }
  }

  lemma AbortedStep(s: State, event: Event, scan: nat)
    requires scan < |s.aborted| && s.aborted[scan]
    ensures var after := Step(s, event);
            && scan < |after.aborted| && after.aborted[scan]
            && (scan in after.writes <==> scan in s.writes)
            && (scan in after.results <==> scan in s.results)
  {}

  lemma RunSnoc(events: seq<Event>)
    requires events != []
    ensures Run(events) == Step(Run(events[..|events| - 1]), events[|events| - 1])
  {
    hide Step;
  }

  /** An aborted scan never writes: whatever happens later, what it has written so far is all. */
  lemma {:induction false} AbortedNeverWrites(events: seq<Event>, later: seq<Event>, scan: nat)
    requires scan < |Run(events).aborted| && Run(events).aborted[scan]
    ensures var s := Run(events + later);
            && scan < |s.aborted| && s.aborted[scan]
            && (scan in s.writes <==> scan in Run(events).writes)
            && (scan in s.results <==> scan in Run(events).results)
    decreases |later|
  {
    hide *;
    if later == [] {
      assert events + later == events;
    } else {
      var before := later[..|later| - 1];
      assert (events + later)[..|events + later| - 1] == events + before;
      AbortedNeverWrites(events, before, scan);
      RunSnoc(events + later);
      AbortedStep(Run(events + before), later[|later| - 1], scan);
    }
  }
}
