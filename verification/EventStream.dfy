/**
 The screener's event-stream reader: text arrives in chunks, is cut on blank lines and dispatched.
 It handles the subset of server-sent events (WHATWG HTML Living Standard, section 9.2.6
 "Interpreting an event stream") with "\n\n" separators and one data line per event.
 */
module EventStream {
  import opened Options

  // ---------------------------------------------------------------- cutting on blank lines

  /** The first place at or after i where two newlines stand together, or |s|. */
  function FindBreak(s: string, i: nat): (b: nat)
    requires i <= |s|
    ensures i <= b <= |s|
    ensures b < |s| ==> BreakAt(s, b)
    ensures forall j :: i <= j < b ==> !BreakAt(s, j)
    decreases |s| - i
  {
    if i == |s| || BreakAt(s, i) then i else FindBreak(s, i + 1)
  }

  predicate BreakAt(s: string, i: nat) {
    i + 1 < |s| && s[i] == '\n' && s[i + 1] == '\n'
  }

  /** `s.split("\n\n")`: leftmost, non-overlapping, never empty. */
  function Split(s: string): (parts: seq<string>)
    ensures parts != []
    decreases |s|
  {
    var b := FindBreak(s, 0);
    if b == |s| then [s] else [s[..b]] + Split(s[b + 2..])
  }

  function Join(parts: seq<string>): string
    requires parts != []
  {
    if |parts| == 1 then parts[0] else parts[0] + "\n\n" + Join(parts[1..])
  }

  /** The events of a text: every part but the last, which is still open. */
  function Events(s: string): seq<string> {
    AllButLast(Split(s))
  }

  function Fragment(s: string): string {
    Last(Split(s))
  }

  function AllButLast(parts: seq<string>): seq<string>
    requires parts != []
  {
    parts[..|parts| - 1]
  }

  function Last(parts: seq<string>): string
    requires parts != []
  {
    parts[|parts| - 1]
  }

  predicate Unbroken(s: string) {
    forall i :: 0 <= i < |s| ==> !BreakAt(s, i)
  }

  lemma BeforeFirstBreak(s: string)
    ensures Unbroken(s[..FindBreak(s, 0)])
  {
    var b := FindBreak(s, 0);
    forall i | 0 <= i < b
      ensures !BreakAt(s[..b], i)
    {
      assert !BreakAt(s, i);
    }
  }

  /** Splitting loses nothing and leaves no break inside a part. */
  lemma {:induction false} SplitSound(s: string)
    ensures Join(Split(s)) == s
    ensures forall p :: p in Split(s) ==> Unbroken(p)
    decreases |s|
  {
    hide Unbroken, Split, BreakAt;
    BeforeFirstBreak(s);
    SplitStep(s);
    var b := FindBreak(s, 0);
    if b == |s| {
      assert s[..b] == s;
    } else {
      var rest := Split(s[b + 2..]);
      SplitSound(s[b + 2..]);
      JoinCons(s[..b], rest);
      BreakText(s, b);
    }
  }

  lemma SplitParts(s: string)
    ensures var b := FindBreak(s, 0);
            if b == |s| then Split(s) == [s] else b + 2 <= |s| && Split(s) == [s[..b]] + Split(s[b + 2..])
  {
    var b := FindBreak(s, 0);
    assert b < |s| ==> BreakAt(s, b);
  }

  /** One step of the split. */
  lemma SplitStep(s: string)
    ensures var b := FindBreak(s, 0);
            if b == |s| then Split(s) == [s] && Fragment(s) == s && Events(s) == []
            else
              && b + 2 <= |s| && Split(s) == [s[..b]] + Split(s[b + 2..])
              && Fragment(s) == Fragment(s[b + 2..]) && Events(s) == [s[..b]] + Events(s[b + 2..])
  {
    SplitParts(s);
    OnlyPart(s);
    hide Split, FindBreak, BreakAt, AllButLast, Last;
    var b := FindBreak(s, 0);
    if b < |s| {
      MoreParts([s[..b]], Split(s[b + 2..]));
    }
  }

  lemma OnlyPart(s: string)
    ensures AllButLast([s]) == [] && Last([s]) == s
  {}

  lemma MoreParts(parts: seq<string>, more: seq<string>)
    requires more != []
    ensures AllButLast(parts + more) == parts + AllButLast(more) && Last(parts + more) == Last(more)
  {}

  lemma JoinCons(first: string, rest: seq<string>)
    requires rest != []
    ensures Join([first] + rest) == first + "\n\n" + Join(rest)
  {
    assert ([first] + rest)[1..] == rest;
  }

  lemma BreakText(s: string, b: nat)
    requires BreakAt(s, b)
    ensures s == s[..b] + "\n\n" + s[b + 2..]
  {}

  /** Texts that agree up to the end of the first break of one have the same first break. */
  lemma SameFirstBreak(s: string, t: string, b: nat)
    requires b == FindBreak(s, 0) < |s| && b + 2 <= |t| && t[..b + 2] == s[..b + 2]
    ensures FindBreak(t, 0) == b
  {
    assert forall i :: 0 <= i < b + 2 ==> t[i] == t[..b + 2][i] == s[..b + 2][i] == s[i];
    assert forall j :: 0 <= j < b ==> !BreakAt(s, j);
    forall j | 0 <= j < b
      ensures !BreakAt(t, j)
    {
      assert !BreakAt(s, j);
    }
    assert BreakAt(s, b) && BreakAt(t, b);
  }

  /** Text that arrives later only continues the last part: cutting what is there, keeping the
      fragment and cutting again is the same as cutting the whole. */
  lemma {:induction false} SplitIncremental(s: string, more: string)
    ensures Split(s + more) == Events(s) + Split(Fragment(s) + more)
    decreases |s|
  {
    hide Split;
    var b := FindBreak(s, 0);
    SplitStep(s);
    if b < |s| {
      SameFirstBreak(s, s + more, b);
      SplitStep(s + more);
      assert (s + more)[..b] == s[..b] && (s + more)[b + 2..] == s[b + 2..] + more;
      SplitIncremental(s[b + 2..], more);
    }
  }

  lemma EventsIncremental(s: string, more: string)
    ensures Events(s + more) == Events(s) + Events(Fragment(s) + more)
    ensures Fragment(s + more) == Fragment(Fragment(s) + more)
  {
    SplitIncremental(s, more);
    hide Split;
    MoreParts(Events(s), Split(Fragment(s) + more));
  }

  /** A text has the events of its part up to the open fragment, and no others. */
  lemma {:induction false} FragmentIgnored(s: string)
    ensures |Fragment(s)| <= |s|
    ensures Events(s[..|s| - |Fragment(s)|]) == Events(s)
    decreases |s|
  {
    hide Split;
    var b := FindBreak(s, 0);
    SplitStep(s);
    if b == |s| {
      assert s[..0] == "";
      SplitStep("");
    } else {
      var tail := s[b + 2..];
      FragmentIgnored(tail);
      var kept := s[..|s| - |Fragment(s)|];
      assert kept[b + 2..] == tail[..|tail| - |Fragment(tail)|] && kept[..b] == s[..b];
      assert kept[..b + 2] == s[..b + 2];
      SameFirstBreak(s, kept, b);
      SplitStep(kept);
    }
  }

  // ---------------------------------------------------------------- one event

  /** What the dispatcher reads from a parsed payload; "" and None stand for missing or falsy. */
  datatype Data<P> =
    | NullData
    | Data(stage: string, progress: Option<real>, details: string,
           status: string, code: string, message: string, result: Option<P>)

  datatype Parsed<P> = Parsed(data: Data<P>) | Refused(message: string)

  /** The engine: the two field patterns and JSON.parse, and whether a progress callback was given. */
  datatype Engine<!P> = Engine(eventField: string -> Option<string>, dataField: string -> Option<string>,
                               parse: string -> Parsed<P>, listening: bool)

  datatype Progress = Progress(stage: string, progress: real, details: string)

  datatype Error = Error(message: string, scanInProgress: bool)

  datatype State<P> = State(payload: Option<P>, sawRealProgress: bool, calls: seq<Progress>, thrown: Option<Error>)

  const TRUNCATED_JSON := "Unexpected end of JSON input"

  predicate IsSpace(c: char) {
    c in {' ', '\t', '\n', '\r', '\U{0B}', '\U{0C}', '\U{A0}', '\U{1680}',
          '\U{2028}', '\U{2029}', '\U{202F}', '\U{205F}', '\U{3000}', '\U{FEFF}'}
    || '\U{2000}' <= c <= '\U{200A}'
  }

  function Trim(s: string): string
    decreases |s|
  {
    if s == "" then s
    else if IsSpace(s[0]) then Trim(s[1..])
    else if IsSpace(s[|s| - 1]) then Trim(s[..|s| - 1])
    else s
  }

  function Or(s: string, default: string): string {
    if s == "" then default else s
  }

  function Report<P>(engine: Engine<P>, st: State<P>, call: Progress): State<P> {
    if engine.listening then st.(calls := st.calls + [call]) else st
  }

  /** A throw inside the try block; the catch clause swallows one particular message. */
  function Throw<P>(st: State<P>, error: Error): State<P> {
    if error.message == TRUNCATED_JSON then st else st.(thrown := Some(error))
  }

  const NULL_READ := Error("Cannot read properties of null", false)

  function OnProgress<P>(engine: Engine<P>, st: State<P>, data: Data<P>): State<P> {
    var seen := st.(sawRealProgress := true);
    if !engine.listening then seen
    else if data.NullData? then Throw(seen, NULL_READ)
    else
      var progress := match data.progress case Some(p) => p case None => 0.0;
      Report(engine, seen, Progress(Or(data.stage, "Scanning..."), progress, data.details))
  }

  function OnResult<P>(engine: Engine<P>, st: State<P>, data: Data<P>): State<P> {
    if data.NullData? then Throw(st, NULL_READ)
    else if data.status == "error" then
      if data.code == "scan_in_progress" then Throw(st, Error(Or(data.message, "SCAN_IN_PROGRESS"), true))
      else Throw(st, Error(Or(data.message, "Scanner encountered an internal error"), false))
    else if data.status == "complete" then
      Report(engine, st.(payload := data.result), Progress("Completed", 100.0, ""))
    else st
  }

  function Dispatch<P>(engine: Engine<P>, st: State<P>, event: string): State<P> {
    var text := Trim(event);
    if text == "" then st
    else if text[0] == ':' then
      if st.sawRealProgress then st else Report(engine, st, Progress("Waiting for broker response...", 5.0, ""))
    else
      var eventType := match engine.eventField(event) case Some(f) => Trim(f) case None => "message";
      var raw := match engine.dataField(event) case Some(f) => Trim(f) case None => "";
      if raw == "" then st
      else
        match engine.parse(raw)
        case Refused(message) => Throw(st, Error(message, false))
        case Parsed(data) =>
          if eventType == "progress" then OnProgress(engine, st, data)
          else if eventType == "result" then OnResult(engine, st, data)
          else st
  }

  /** Events in order, until one throws out of the reader. */
  function DispatchAll<P>(engine: Engine<P>, st: State<P>, events: seq<string>): State<P>
    decreases |events|
  {
    if events == [] || st.thrown.Some? then st
    else DispatchAll(engine, Dispatch(engine, st, events[0]), events[1..])
  }

  lemma {:induction false} DispatchConcat<P>(engine: Engine<P>, st: State<P>, xs: seq<string>, ys: seq<string>)
    ensures DispatchAll(engine, st, xs + ys) == DispatchAll(engine, DispatchAll(engine, st, xs), ys)
    decreases |xs|
  {
    hide Dispatch;
    if xs == [] {
      assert xs + ys == ys;
    } else if st.thrown.None? {
      assert (xs + ys)[0] == xs[0] && (xs + ys)[1..] == xs[1..] + ys;
      DispatchConcat(engine, Dispatch(engine, st, xs[0]), xs[1..], ys);
    }
  }

  // ---------------------------------------------------------------- the reader

  datatype Outcome<P> = Payload(payload: P) | Failure(error: Error)

  const NO_RESULT := Error("Stream closed without sending a result", false)

  function Start<P>(): State<P> {
    State(None, false, [], None)
  }

  /** Parsing a whole text at once: the calls made and the outcome. */
  function WholeText<P>(engine: Engine<P>, text: string): (seq<Progress>, Outcome<P>) {
    var st := DispatchAll(engine, Start(), Events(text));
    (st.calls, if st.thrown.Some? then Failure(st.thrown.value)
               else if st.payload.Some? then Payload(st.payload.value)
               else Failure(NO_RESULT))
  }

  function Concat(chunks: seq<string>): string {
    if chunks == [] then "" else Concat(chunks[..|chunks| - 1]) + chunks[|chunks| - 1]
  }

  lemma {:induction false} ConcatSplit(chunks: seq<string>, n: nat)
    requires n <= |chunks|
    ensures Concat(chunks) == Concat(chunks[..n]) + Concat(chunks[n..])
  {
    if n == |chunks| {
      assert chunks[..n] == chunks && chunks[n..] == [];
    } else {
      var m := |chunks| - 1;
      ConcatSplit(chunks[..m], n);
      assert chunks[..m][..n] == chunks[..n];
      assert chunks[..m][n..] == chunks[n..][..m - n];
      assert chunks[n..][m - n] == chunks[m];
    }
  }

  /** More text cannot change what was already thrown. */
  lemma ThrownIsFinal<P>(engine: Engine<P>, text: string, more: string)
    requires DispatchAll(engine, Start<P>(), Events(text)).thrown.Some?
    ensures WholeText<P>(engine, text + more) == WholeText<P>(engine, text)
  {
    hide Dispatch, Events;
    EventsIncremental(text, more);
    DispatchConcat(engine, Start<P>(), Events(text), Events(Fragment(text) + more));
  }

  /** Chunking does not matter: whatever the cuts, the reader makes the calls and reaches the outcome
      of parsing the concatenated text at once. */
  method Read<P(0)>(engine: Engine<P>, chunks: seq<string>) returns (calls: seq<Progress>, outcome: Outcome<P>)
    ensures (calls, outcome) == WholeText(engine, Concat(chunks))
  {
    hide Dispatch, Split, Events, Fragment;
    var buffer, st := "", Start<P>();
    SplitStep("");
    var n := 0;
    while n < |chunks|
      invariant 0 <= n <= |chunks| && st.thrown.None?
      invariant buffer == Fragment(Concat(chunks[..n]))
      invariant st == DispatchAll(engine, Start(), Events(Concat(chunks[..n])))
    {
      ghost var text := Concat(chunks[..n]);
      assert chunks[..n + 1][..n] == chunks[..n];
      EventsIncremental(text, chunks[n]);
      buffer := buffer + chunks[n];
      var events := Events(buffer);
      buffer := Fragment(buffer);
      DispatchConcat(engine, Start(), Events(text), events);
      n := n + 1;
      var k := 0;
      ghost var before := st;
      while k < |events|
        invariant 0 <= k <= |events| && st.thrown.None?
        invariant DispatchAll(engine, before, events) == DispatchAll(engine, st, events[k..])
      {
        st := Dispatch(engine, st, events[k]);
        k := k + 1;
        if st.thrown.Some? {
          ConcatSplit(chunks, n);
          ThrownIsFinal<P>(engine, Concat(chunks[..n]), Concat(chunks[n..]));
          return st.calls, Failure(st.thrown.value);
        }
      }
    }
    assert chunks[..n] == chunks;
    calls := st.calls;
    outcome := if st.payload.Some? then Payload(st.payload.value) else Failure(NO_RESULT);
  }
}
