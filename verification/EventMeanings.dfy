/**
 What the reader's calls and outcome are in terms of the fields of the events, without its
 dispatcher: which event ends it and with what error, which payload it returns, and which progress
 calls it makes.
 */
module EventMeanings {
  import opened Options
  import opened EventStream

  // ---------------------------------------------------------------- reading one event

  predicate Comment(event: string) {
    Trim(event) != "" && Trim(event)[0] == ':'
  }

  /** The parsed data line, if the event is no comment and has one that is not blank. */
  function Content<P>(engine: Engine<P>, event: string): Option<Parsed<P>> {
    if Trim(event) == "" || Comment(event) then None
    else
      match engine.dataField(event)
      case None => None
      case Some(field) => if Trim(field) == "" then None else Some(engine.parse(Trim(field)))
  }

  predicate Named<P>(engine: Engine<P>, event: string, name: string) {
    engine.eventField(event).Some? && Trim(engine.eventField(event).value) == name
  }

  /** An event of this name with parsed data. */
  predicate Carries<P>(engine: Engine<P>, event: string, name: string) {
    Named(engine, event, name) && Content(engine, event).Some? && Content(engine, event).value.Parsed?
  }

  /** The result of an event that completes the scan; the inner None is a missing result. */
  function Completion<P>(engine: Engine<P>, event: string): Option<Option<P>> {
    if Carries(engine, event, "result") then
      var data := Content(engine, event).value.data;
      if data.Data? && data.status == "complete" then Some(data.result) else None
    else None
  }

  function ResultError<P>(data: Data<P>): Option<Error> {
    match data
    case NullData => Some(NULL_READ)
    case Data(_, _, _, status, code, message, _) =>
      if status != "error" then None
      else if code == "scan_in_progress" then Some(Error(if message != "" then message else "SCAN_IN_PROGRESS", true))
      else Some(Error(if message != "" then message else "Scanner encountered an internal error", false))
  }

  /** What the event throws, unless the catch clause swallows it. */
  function ErrorIn<P>(engine: Engine<P>, event: string): Option<Error> {
    match Content(engine, event)
    case None => None
    case Some(Refused(message)) => Some(Error(message, false))
    case Some(Parsed(data)) =>
      if Named(engine, event, "result") then ResultError(data)
      else if Named(engine, event, "progress") && engine.listening && data.NullData? then Some(NULL_READ)
      else None
  }

  predicate Throws<P>(engine: Engine<P>, event: string) {
    ErrorIn(engine, event).Some? && ErrorIn(engine, event).value.message != TRUNCATED_JSON
  }

  predicate ProgressSeen<P>(engine: Engine<P>, events: seq<string>) {
    exists i :: 0 <= i < |events| && Carries(engine, events[i], "progress")
  }

  /** The progress calls of one event after the events `before`. */
  function CallsOf<P>(engine: Engine<P>, before: seq<string>, event: string): seq<Progress> {
    if !engine.listening then []
    else if Comment(event) then
      if ProgressSeen(engine, before) then [] else [Progress("Waiting for broker response...", 5.0, "")]
    else if Completion(engine, event).Some? then [Progress("Completed", 100.0, "")]
    else if Carries(engine, event, "progress") then
      match Content(engine, event).value.data
      case NullData => []
      case Data(stage, progress, details, _, _, _, _) =>
        [Progress(if stage != "" then stage else "Scanning...", if progress.Some? then progress.value else 0.0, details)]
    else []
  }

  function Calls<P>(engine: Engine<P>, events: seq<string>): seq<Progress> {
    if events == [] then []
    else
      var n := |events| - 1;
      Calls(engine, events[..n]) + CallsOf(engine, events[..n], events[n])
  }

  /** The result of the last completing event. */
  function LastResult<P>(engine: Engine<P>, events: seq<string>): Option<P> {
    if events == [] then None
    else
      var n := |events| - 1;
      match Completion(engine, events[n])
      case Some(result) => result
      case None => LastResult(engine, events[..n])
  }

  predicate Quiet<P>(engine: Engine<P>, events: seq<string>) {
    forall i :: 0 <= i < |events| ==> !Throws(engine, events[i])
  }

  // ---------------------------------------------------------------- the dispatcher does just that

  /** What `after` is if the event did to `st` what its fields say. */
  ghost predicate Meant<P>(engine: Engine<P>, st: State<P>, before: seq<string>, event: string, after: State<P>) {
    && after.calls == st.calls + CallsOf(engine, before, event)
    && after.thrown == (if Throws(engine, event) then ErrorIn(engine, event) else None)
    && after.payload == (match Completion(engine, event) case Some(result) => result case None => st.payload)
    && (after.sawRealProgress <==> st.sawRealProgress || Carries(engine, event, "progress"))
  }

  lemma DispatchMeans<P>(engine: Engine<P>, st: State<P>, before: seq<string>, event: string)
    requires st.thrown.None? && (st.sawRealProgress <==> ProgressSeen(engine, before))
    ensures Meant(engine, st, before, event, Dispatch(engine, st, event))
  {
    hide Trim, ProgressSeen;
    match Content(engine, event)
    case None =>
    case Some(Refused(_)) =>
    case Some(Parsed(_)) =>
      if Named(engine, event, "progress") {
      } else if Named(engine, event, "result") {
      }
  }

  lemma SeenNext<P>(engine: Engine<P>, events: seq<string>, event: string)
    ensures ProgressSeen(engine, events + [event]) <==> ProgressSeen(engine, events) || Carries(engine, event, "progress")
  {
    hide Carries;
    var more := events + [event];
    assert more[|events|] == event;
    if ProgressSeen(engine, events) {
      var i :| 0 <= i < |events| && Carries(engine, events[i], "progress");
      assert more[i] == events[i];
    }
    if i :| 0 <= i < |more| && Carries(engine, more[i], "progress") {
      assert i < |events| ==> more[i] == events[i];
    }
  }

  lemma OneMore<P>(engine: Engine<P>, events: seq<string>, event: string)
    requires DispatchAll(engine, Start(), events).thrown.None?
    ensures DispatchAll(engine, Start(), events + [event]) == Dispatch(engine, DispatchAll(engine, Start(), events), event)
  {
    hide Dispatch;
    DispatchConcat(engine, Start<P>(), events, [event]);
    assert [event][1..] == [];
  }

  lemma {:induction false} QuietMeans<P>(engine: Engine<P>, events: seq<string>)
    requires Quiet(engine, events)
    ensures DispatchAll(engine, Start(), events) ==
            State(LastResult(engine, events), ProgressSeen(engine, events), Calls(engine, events), None)
  {
    hide Dispatch, Throws, Completion, CallsOf, Carries;
    if events != [] {
      var n := |events| - 1;
      QuietMeans(engine, events[..n]);
      var st := DispatchAll(engine, Start<P>(), events[..n]);
      assert events == events[..n] + [events[n]];
      OneMore(engine, events[..n], events[n]);
      DispatchMeans(engine, st, events[..n], events[n]);
      SeenNext(engine, events[..n], events[n]);
    }
  }

  lemma {:induction false} StopsAtThrow<P>(engine: Engine<P>, st: State<P>, events: seq<string>)
    requires st.thrown.Some?
    ensures DispatchAll(engine, st, events) == st
  {}

  // ---------------------------------------------------------------- what a text comes to

  /** The k-th event is the first to throw. */
  predicate FirstThrow<P>(engine: Engine<P>, events: seq<string>, k: nat) {
    k < |events| && Throws(engine, events[k]) && Quiet(engine, events[..k])
  }

  /** The first event that throws decides: its error is the outcome, and the calls are those of the
      events before it. */
  lemma FailureExactly<P>(engine: Engine<P>, text: string, k: nat)
    requires FirstThrow(engine, Events(text), k)
    ensures WholeText(engine, text) ==
            (Calls(engine, Events(text)[..k]), Failure(ErrorIn(engine, Events(text)[k]).value))
  {
    hide Dispatch, Events, CallsOf, Completion, Throws, ErrorIn;
    var events := Events(text);
    QuietMeans(engine, events[..k]);
    OneMore(engine, events[..k], events[k]);
    DispatchMeans(engine, DispatchAll(engine, Start<P>(), events[..k]), events[..k], events[k]);
    ThrowMakesNoCall(engine, events[..k], events[k]);
    assert Calls(engine, events[..k]) + [] == Calls(engine, events[..k]);
    assert events == events[..k] + [events[k]] + events[k + 1..];
    DispatchConcat(engine, Start<P>(), events[..k] + [events[k]], events[k + 1..]);
    StopsAtThrow(engine, DispatchAll(engine, Start<P>(), events[..k] + [events[k]]), events[k + 1..]);
  }

  lemma ThrowMakesNoCall<P>(engine: Engine<P>, before: seq<string>, event: string)
    requires Throws(engine, event)
    ensures ErrorIn(engine, event).Some? && CallsOf(engine, before, event) == []
  {
    hide Trim;
  }

  /** No event throws: the calls are those of all events, the payload is the result of the last
      completing event, and without such a result the reader fails. */
  lemma QuietExactly<P>(engine: Engine<P>, text: string)
    requires Quiet(engine, Events(text))
    ensures var result := LastResult(engine, Events(text));
            WholeText(engine, text) ==
            (Calls(engine, Events(text)), if result.Some? then Payload(result.value) else Failure(NO_RESULT))
  {
    hide Dispatch, Events;
    QuietMeans(engine, Events(text));
  }

  /** The last completing event and its result. */
  ghost predicate CompletesLast<P>(engine: Engine<P>, events: seq<string>, j: nat, result: Option<P>) {
    && j < |events| && Completion(engine, events[j]) == Some(result)
    && forall i :: j < i < |events| ==> Completion(engine, events[i]).None?
  }

  lemma {:induction false} LastResultIs<P>(engine: Engine<P>, events: seq<string>, p: P)
    ensures LastResult(engine, events) == Some(p) <==> exists j: nat :: CompletesLast(engine, events, j, Some(p))
  {
    hide Completion;
    if events != [] {
      var n := |events| - 1;
      LastResultIs(engine, events[..n], p);
      if Completion(engine, events[n]).Some? {
        if LastResult(engine, events) == Some(p) {
          assert CompletesLast(engine, events, n, Some(p));
        }
      } else if LastResult(engine, events) == Some(p) {
        var j: nat :| CompletesLast(engine, events[..n], j, Some(p));
        assert CompletesLast(engine, events, j, Some(p));
      } else if exists j: nat :: CompletesLast(engine, events, j, Some(p)) {
        var j: nat :| CompletesLast(engine, events, j, Some(p));
        assert CompletesLast(engine, events[..n], j, Some(p));
      }
    }
  }

  /** The reader returns a payload exactly when nothing throws and the last completing event has it. */
  lemma PayloadExactly<P>(engine: Engine<P>, text: string, p: P)
    ensures WholeText(engine, text).1 == Payload(p) <==>
            Quiet(engine, Events(text)) && exists j: nat :: CompletesLast(engine, Events(text), j, Some(p))
  {
    hide Dispatch, Events, CompletesLast, LastResult, Throws;
    var events := Events(text);
    LastResultIs(engine, events, p);
    if Quiet(engine, events) {
      QuietExactly(engine, text);
    } else {
      var k := FindThrow(engine, events);
      FailureExactly(engine, text, k);
    }
  }

  lemma {:induction false} FindThrow<P>(engine: Engine<P>, events: seq<string>) returns (k: nat)
    requires !Quiet(engine, events)
    ensures FirstThrow(engine, events, k)
  {
    hide Throws;
    k := 0;
    while !Throws(engine, events[k])
      invariant k < |events| && Quiet(engine, events[..k])
      invariant exists j :: k <= j < |events| && Throws(engine, events[j])
      decreases |events| - k
    {
      k := k + 1;
    }
  }

  /** The in-progress flag is raised exactly by an error event with that code. */
  lemma InProgressExactly<P>(engine: Engine<P>, event: string)
    ensures ErrorIn(engine, event).Some? && ErrorIn(engine, event).value.scanInProgress <==>
            && Carries(engine, event, "result")
            && var data := Content(engine, event).value.data;
               data.Data? && data.status == "error" && data.code == "scan_in_progress"
  {
    hide Trim;
  }

  // ---------------------------------------------------------------- trimming

  /** Trimming takes white space from both ends, and all of it. */
  lemma {:induction false} TrimExactly(s: string) returns (i: nat)
    ensures i + |Trim(s)| <= |s| && Trim(s) == s[i..i + |Trim(s)|]
    ensures forall k :: (0 <= k < i || i + |Trim(s)| <= k < |s|) ==> IsSpace(s[k])
    ensures Trim(s) != "" ==> !IsSpace(Trim(s)[0]) && !IsSpace(Trim(s)[|Trim(s)| - 1])
    decreases |s|
  {
    hide IsSpace;
    if s == "" {
      i := 0;
    } else if IsSpace(s[0]) {
      var j := TrimExactly(s[1..]);
      i := j + 1;
      assert forall k :: 0 <= k < |s| - 1 ==> s[1..][k] == s[k + 1];
      forall k | 0 <= k < i || i + |Trim(s)| <= k < |s|
        ensures IsSpace(s[k])
      {
        assert k > 0 ==> s[1..][k - 1] == s[k];
      }
    } else if IsSpace(s[|s| - 1]) {
      i := TrimExactly(s[..|s| - 1]);
    } else {
      i := 0;
    }
  }
}
