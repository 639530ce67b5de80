/**
 Which scans store a result or an error, and what is on screen, in terms of the events alone: the
 starts, the answers and the unmount, in the order in which they happened.
 */
module ScanEvents {
  import opened Options
  import opened ScanRuns

  predicate Gone(events: seq<Event>) {
    Unmount in events
  }

  /** Scans started: starts before the unmount. */
  function Started(events: seq<Event>): nat {
    if events == [] then 0
    else
      var n := |events| - 1;
      Started(events[..n]) + if events[n] == Start && !Gone(events[..n]) then 1 else 0
  }

  predicate Answers(e: Event, k: nat) {
    (e.Succeed? || e.Fail?) && e.scan == k
  }

  /** Scan k was answered after its start, among the first n events. */
  predicate Answered(events: seq<Event>, n: nat, k: nat)
    requires n <= |events|
  {
    exists m :: 0 <= m < n && Answers(events[m], k) && k < Started(events[..m])
  }

  /** Event n is the first answer of scan k, no scan was started after it, and the page is still there. */
  predicate Writes(events: seq<Event>, n: nat, k: nat)
    requires n < |events|
  {
    Answers(events[n], k) && Started(events[..n]) == k + 1 && !Gone(events[..n]) && !Answered(events, n, k)
  }

  predicate Stores(events: seq<Event>, n: nat, k: nat)
    requires n < |events|
  {
    Writes(events, n, k) && events[n].Succeed?
  }

  /** The stamp that event n puts on screen. */
  function ShownBy(events: seq<Event>, n: nat): Option<nat>
    requires n < |events|
  {
    match events[n]
    case Succeed(k, stamp) => if Stores(events, n, k) then Some(stamp) else None
    case Restored(stamp) => if Gone(events[..n]) then None else Some(stamp)
    case _ => None
  }

  // ---------------------------------------------------------------- the state, read off the events

  /** The flags of the state after the events. */
  predicate FlagsMatch(events: seq<Event>, s: State) {
    && |s.aborted| == |s.settled| == Started(events)
    && (s.mounted <==> !Gone(events))
    && (forall k :: 0 <= k < |s.aborted| ==> (s.aborted[k] <==> k < Started(events) - 1 || Gone(events)))
    && (forall k :: 0 <= k < |s.settled| ==> (s.settled[k] <==> Answered(events, |events|, k)))
  }

  lemma AnsweredNext(before: seq<Event>, e: Event, k: nat)
    ensures Answered(before + [e], |before| + 1, k) <==>
            Answered(before, |before|, k) || (Answers(e, k) && k < Started(before))
    ensures Answered(before + [e], |before|, k) <==> Answered(before, |before|, k)
  {
    hide Started;
    var events := before + [e];
    assert events[..|before|] == before && events[|before|] == e;
    assert forall m :: 0 <= m < |before| ==> events[..m] == before[..m] && events[m] == before[m];
  }

  lemma StartedNext(before: seq<Event>, e: Event)
    ensures Started(before + [e]) == Started(before) + if e == Start && !Gone(before) then 1 else 0
    ensures Gone(before + [e]) <==> Gone(before) || e == Unmount
  {
    assert (before + [e])[..|before|] == before;
  }

  lemma NotYetAnswered(events: seq<Event>, k: nat)
    requires k >= Started(events)
    ensures !Answered(events, |events|, k)
  {
    forall m | 0 <= m < |events|
      ensures Started(events[..m]) <= Started(events)
    {
      StartsGrow(events, m);
    }
  }

  lemma {:induction false} StartsGrow(events: seq<Event>, m: nat)
    requires m <= |events|
    ensures Started(events[..m]) <= Started(events)
    decreases |events|
  {
    if m == |events| {
      assert events[..m] == events;
    } else {
      StartsGrow(events[..|events| - 1], m);
      assert events[..|events| - 1][..m] == events[..m];
    }
  }

  /** What one event does to the flags. */
  lemma StepFlags(s: State, e: Event)
    requires |s.aborted| == |s.settled| && OnlyNewestLive(s)
    ensures var s' := Step(s, e);
            var more := if e == Start && s.mounted then 1 else 0;
            && |s'.aborted| == |s'.settled| == |s.aborted| + more
            && (s'.mounted <==> s.mounted && e != Unmount)
            && (forall k :: 0 <= k < |s.aborted| ==>
                  (s'.aborted[k] <==> s.aborted[k] || (k == |s.aborted| - 1 && (more == 1 || e == Unmount))))
            && (more == 1 ==> !s'.aborted[|s.aborted|] && !s'.settled[|s.aborted|])
            && (forall k :: 0 <= k < |s.settled| ==> (s'.settled[k] <==> s.settled[k] || Answers(e, k)))
  {}

  lemma StepMatches(before: seq<Event>, s: State, e: Event)
    requires FlagsMatch(before, s) && OnlyNewestLive(s)
    ensures FlagsMatch(before + [e], Step(s, e))
  {
    StepFlags(s, e);
    StartedNext(before, e);
    NotYetAnswered(before, Started(before));
    forall k: nat
      ensures Answered(before + [e], |before| + 1, k) <==>
              Answered(before, |before|, k) || (Answers(e, k) && k < Started(before))
    {
      AnsweredNext(before, e, k);
    }
    hide Answered, Started, Gone, Step, OnlyNewestLive;
  }

  lemma {:induction false} FlagsExactly(events: seq<Event>)
    ensures FlagsMatch(events, Run(events)) && OnlyNewestLive(Run(events))
  {
    if events != [] {
      var n := |events| - 1;
      FlagsExactly(events[..n]);
      RunSnoc(events);
      assert events == events[..n] + [events[n]];
      StepKeepsLive(Run(events[..n]), events[n]);
      hide Step, FlagsMatch, OnlyNewestLive;
      StepMatches(events[..n], Run(events[..n]), events[n]);
    }
  }

  // ---------------------------------------------------------------- who writes

  /** Scan k may still write. */
  predicate MayWrite(s: State, k: nat) {
    Pending(s, k) && !s.aborted[k]
  }

  lemma StepWrites(s: State, e: Event, k: nat)
    ensures var s' := Step(s, e);
            && (k in s'.writes <==> k in s.writes || (Answers(e, k) && MayWrite(s, k)))
            && (k in s'.results <==> k in s.results || (e.Succeed? && e.scan == k && MayWrite(s, k)))
            && s'.shown == (match e
                            case Succeed(j, stamp) => if MayWrite(s, j) then Some(stamp) else s.shown
                            case Restored(stamp) => if s.mounted then Some(stamp) else s.shown
                            case _ => s.shown)
  {}

  lemma MayWriteExactly(before: seq<Event>, s: State, e: Event, k: nat)
    requires FlagsMatch(before, s) && Answers(e, k)
    ensures MayWrite(s, k) <==> Writes(before + [e], |before|, k)
  {
    AnsweredNext(before, e, k);
    assert (before + [e])[..|before|] == before;
    hide Answered, Started, Gone;
  }

  /** What the last event stores. */
  lemma LastEvent(events: seq<Event>, k: nat)
    requires events != []
    ensures var n := |events| - 1;
            var before, s := Run(events[..n]), Run(events);
            && (k in s.writes <==> k in before.writes || Writes(events, n, k))
            && (k in s.results <==> k in before.results || Stores(events, n, k))
  {
    var n := |events| - 1;
    FlagsExactly(events[..n]);
    RunSnoc(events);
    StepWrites(Run(events[..n]), events[n], k);
    assert events == events[..n] + [events[n]];
    if Answers(events[n], k) {
      MayWriteExactly(events[..n], Run(events[..n]), events[n], k);
    }
    hide FlagsMatch, Run, Step, MayWrite, OnlyNewestLive, Answered, Started, Gone;
  }

  lemma SameEarlier(events: seq<Event>, n: nat, k: nat)
    requires n < |events| - 1
    ensures Writes(events[..|events| - 1], n, k) <==> Writes(events, n, k)
    ensures Stores(events[..|events| - 1], n, k) <==> Stores(events, n, k)
  {
    hide Started;
    var before := events[..|events| - 1];
    assert before[..n] == events[..n] && before[n] == events[n];
    assert forall m :: 0 <= m < n ==> before[..m] == events[..m] && before[m] == events[m];
  }

  /** A scan stores something exactly when its first answer finds it the newest on a page that is still
      there, and it stores a result exactly when that answer is a success. */
  lemma {:induction false} WritesExactly(events: seq<Event>, k: nat)
    ensures k in Run(events).writes <==> exists n :: 0 <= n < |events| && Writes(events, n, k)
    ensures k in Run(events).results <==> exists n :: 0 <= n < |events| && Stores(events, n, k)
  {
    hide Writes;
    if events != [] {
      var last := |events| - 1;
      WritesExactly(events[..last], k);
      LastEvent(events, k);
      forall n | 0 <= n < last
        ensures Writes(events[..last], n, k) <==> Writes(events, n, k)
        ensures Stores(events[..last], n, k) <==> Stores(events, n, k)
      {
        SameEarlier(events, n, k);
      }
      hide Run, Stores;
      assert (exists n :: 0 <= n < last && Writes(events[..last], n, k)) <==> exists n :: 0 <= n < last && Writes(events, n, k);
      assert (exists n :: 0 <= n < last && Stores(events[..last], n, k)) <==> exists n :: 0 <= n < last && Stores(events, n, k);
    }
  }

  /** Event n is the last to put something on screen, and puts this stamp there. */
  predicate ShownLast(events: seq<Event>, n: nat, stamp: nat) {
    && n < |events| && ShownBy(events, n) == Some(stamp)
    && forall m :: n < m < |events| ==> ShownBy(events, m).None?
  }

  lemma LastShown(events: seq<Event>)
    requires events != []
    ensures var n := |events| - 1;
            Run(events).shown == if ShownBy(events, n).Some? then ShownBy(events, n) else Run(events[..n]).shown
  {
    var n := |events| - 1;
    FlagsExactly(events[..n]);
    RunSnoc(events);
    StepWrites(Run(events[..n]), events[n], 0);
    assert events == events[..n] + [events[n]];
    if events[n].Succeed? {
      MayWriteExactly(events[..n], Run(events[..n]), events[n], events[n].scan);
    }
    hide Run, Step, MayWrite, OnlyNewestLive, Answered, Started, Writes;
  }

  lemma SameShown(events: seq<Event>, n: nat)
    requires n < |events| - 1
    ensures ShownBy(events[..|events| - 1], n) == ShownBy(events, n)
  {
    hide Started, Writes;
    var before := events[..|events| - 1];
    assert before[n] == events[n] && before[..n] == events[..n];
    if events[n].Succeed? {
      SameEarlier(events, n, events[n].scan);
    }
  }

  /** The screen shows exactly what the last event that put something there did. */
  lemma {:induction false} ScreenExactly(events: seq<Event>, stamp: nat)
    ensures Run(events).shown == Some(stamp) <==> exists n: nat :: ShownLast(events, n, stamp)
  {
    hide ShownBy;
    if events != [] {
      var last := |events| - 1;
      ScreenExactly(events[..last], stamp);
      LastShown(events);
      forall n | 0 <= n < last
        ensures ShownBy(events[..last], n) == ShownBy(events, n)
      {
        SameShown(events, n);
      }
      hide Run;
      if ShownBy(events, last) == Some(stamp) {
        assert ShownLast(events, last, stamp);
      } else if ShownBy(events, last).None? {
        forall n: nat
          ensures ShownLast(events, n, stamp) <==> ShownLast(events[..last], n, stamp)
        {}
      }
    }
  }
}
