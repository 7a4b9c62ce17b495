/**
 The lifecycle of an agent read from the tail of its session log (`classify_rollout_tail`,
 `call_can_need_approval` and `lifecycle_from` of `src-tauri/src/agent_lifecycle.rs`).
 */
module RolloutLog {
  import opened Common
  import CivilTime

  /** A JSON member that the reader only uses when it is a string. */
  datatype Field = Absent | NotText | Text(value: string)

  /** A line of the log: not JSON (the first line of a tail is usually cut), or a record. */
  datatype Line =
    | Unreadable
    | Record(top: Field, kind: Field, stamp: Option<CivilTime.Text>,
             callId: Field, name: Field, input: Field, arguments: Field)

  datatype Call = Call(id: string, name: string, startedMs: int, canNeedApproval: bool)

  datatype Event = TurnEnded | TurnStarted | Called(call: Call) | Returned(id: string) | Spoke | Other

  datatype LogState = Unknown | Idle | Thinking | PendingCall(name: string, startedMs: int, canNeedApproval: bool)

  datatype Lifecycle = Working | Waiting | AtRest | Unavailable

  function TextOr(f: Field, default: string): string {
    if f.Text? then f.value else default
  }

  predicate Contains(s: string, part: string) {
    exists k: nat | k <= |s| :: StandsAt(s, part, k)
  }

  predicate StandsAt(s: string, part: string, k: nat) {
    k + |part| <= |s| && s[k..k + |part|] == part
  }

  const RUNS_INSIDE: set<string> := {
    "wait", "sleep", "wait_agent", "send_message", "followup_task", "list_agents", "spawn_agent",
    "interrupt_agent", "request_user_input_async", "update_plan", "view_image", "web_search", "write_stdin"
  }

  predicate CallCanNeedApproval(name: string, input: string) {
    if name in RUNS_INSIDE then false
    else if name == "exec" then
      Contains(input, "tools.exec_command") || Contains(input, "tools.shell")
      || Contains(input, "tools.apply_patch") || Contains(input, "sandbox_permissions")
    else true
  }

  function CallOf(line: Line): Call
    requires line.Record?
  {
    var name := TextOr(line.name, TextOr(line.kind, ""));
    var input := TextOr(if line.input.Absent? then line.arguments else line.input, "");
    var started := if line.stamp.None? then None else CivilTime.ParseTimestamp(line.stamp.value);
    Call(TextOr(line.callId, ""), name, if started.None? then 0 else started.value, CallCanNeedApproval(name, input))
  }

  function EventOf(line: Line): Event {
    if line.Unreadable? then Other
    else
      var kind := TextOr(line.kind, "");
      if line.top == Text("event_msg") then
        if kind in {"task_complete", "turn_aborted"} then TurnEnded
        else if kind == "task_started" then TurnStarted
        else Other
      else if line.top == Text("response_item") then
        if kind in {"function_call", "custom_tool_call", "local_shell_call"} then Called(CallOf(line))
        else if kind in {"function_call_output", "custom_tool_call_output", "local_shell_call_output"} then
          Returned(TextOr(line.callId, ""))
        else if kind in {"reasoning", "message", "agent_message"} then Spoke
        else Other
      else Other
  }

  function Events(lines: seq<Line>): (r: seq<Event>)
    ensures |r| == |lines| && forall i | 0 <= i < |r| :: r[i] == EventOf(lines[i])
  {
    seq(|lines|, i requires 0 <= i < |lines| => EventOf(lines[i]))
  }

  // ----- what a log means --------------------------------------------------------------------

  predicate Boundary(e: Event) { e.TurnEnded? || e.TurnStarted? }

  /** Event `i` ended a turn and only results, or nothing of note, came after it. */
  predicate RestsAt(events: seq<Event>, i: nat) {
    i < |events| && events[i].TurnEnded? && forall j | i < j < |events| :: events[j].Returned? || events[j].Other?
  }

  predicate AtEnd(events: seq<Event>) { exists i: nat | i < |events| :: RestsAt(events, i) }

  /** Event `i` is a call of the current turn whose result has not come. */
  predicate Open(events: seq<Event>, i: nat) {
    i < |events| && events[i].Called? && forall j | i < j < |events| :: Leaves(events[j], events[i].call.id)
  }

  predicate Leaves(e: Event, id: string) { !Boundary(e) && e != Returned(id) }

  /** The open calls among the first `k` events, in arrival order. */
  function OpenCalls(events: seq<Event>, k: nat): seq<Call>
    requires k <= |events|
  {
    if k == 0 then []
    else OpenCalls(events, k - 1) + if Open(events, k - 1) then [events[k - 1].call] else []
  }

  predicate Active(events: seq<Event>) { exists i: nat | i < |events| :: Stirs(events[i]) }

  predicate Stirs(e: Event) { !e.TurnEnded? && !e.Other? }

  function Judged(idle: bool, open: seq<Call>, active: bool): LogState {
    if idle then Idle
    else if open != [] then
      var call := open[|open| - 1];
      PendingCall(call.name, call.startedMs, call.canNeedApproval)
    else if active then Thinking
    else Unknown
  }

  function Verdict(events: seq<Event>): LogState {
    Judged(AtEnd(events), OpenCalls(events, |events|), Active(events))
  }

  /** `i` is the newest open call. */
  ghost predicate NewestOpen(events: seq<Event>, i: nat) {
    Open(events, i) && forall j: nat | Open(events, j) :: j <= i
  }

  lemma {:induction false} NewestIsLast(events: seq<Event>, k: nat, i: nat)
    requires k <= |events|
    requires i < k && Open(events, i) && forall j: nat | j < k && Open(events, j) :: j <= i
    ensures OpenCalls(events, k) != [] && OpenCalls(events, k)[|OpenCalls(events, k)| - 1] == events[i].call
    decreases k
  {
    if i < k - 1 { NewestIsLast(events, k - 1, i); }
  }

  lemma {:induction false} FindNewest(events: seq<Event>, k: nat) returns (i: nat)
    requires k <= |events| && OpenCalls(events, k) != []
    ensures i < k && Open(events, i) && forall j: nat | j < k && Open(events, j) :: j <= i
    decreases k
  {
    if Open(events, k - 1) { i := k - 1; } else { i := FindNewest(events, k - 1); }
  }

  /** The state after a log, each outcome said without its scan. */
  lemma VerdictMeaning(events: seq<Event>)
    ensures Verdict(events).Idle? <==> AtEnd(events)
    ensures Verdict(events).Unknown? <==> forall i | 0 <= i < |events| :: events[i].Other?
    ensures Verdict(events).PendingCall? <==> exists i: nat | i < |events| :: Open(events, i)
    ensures forall i: nat | NewestOpen(events, i) ::
              var call := events[i].call;
              Verdict(events) == PendingCall(call.name, call.startedMs, call.canNeedApproval)
  {
    OpenNotIdle(events);
    forall i: nat | NewestOpen(events, i)
      ensures OpenCalls(events, |events|) != []
      ensures OpenCalls(events, |events|)[|OpenCalls(events, |events|)| - 1] == events[i].call
    {
      NewestIsLast(events, |events|, i);
    }
    if OpenCalls(events, |events|) != [] {
      var i := FindNewest(events, |events|);
      assert NewestOpen(events, i);
    }
    forall i: nat | Open(events, i) ensures OpenCalls(events, |events|) != [] { OpenListed(events, |events|, i); }
    if !AtEnd(events) && !Active(events) { QuietLog(events, |events|); }
  }

  /** An open call stands after the last end of a turn. */
  lemma OpenNotIdle(events: seq<Event>)
    ensures AtEnd(events) ==> forall i: nat :: !Open(events, i)
  {
  }

  lemma {:induction false} OpenListed(events: seq<Event>, k: nat, i: nat)
    requires k <= |events| && i < k && Open(events, i)
    ensures OpenCalls(events, k) != []
    decreases k
  {
    if i < k - 1 { OpenListed(events, k - 1, i); }
  }

  /** With no end of a turn still standing and nothing active, nothing was recorded at all. */
  lemma {:induction false} QuietLog(events: seq<Event>, k: nat)
    requires k <= |events| && !AtEnd(events) && !Active(events)
    ensures forall i | |events| - k <= i < |events| :: events[i].Other?
    decreases k
  {
    if k > 0 {
      QuietLog(events, k - 1);
      var i := |events| - k;
      assert !Stirs(events[i]);
      if events[i].TurnEnded? { assert RestsAt(events, i); }
    }
  }

  // ----- reading only the end of a log -----------------------------------------------------------

  /** The end of a log settles its state when it holds a turn boundary or an open call. */
  predicate Settles(tail: seq<Event>) {
    (exists i | 0 <= i < |tail| :: Boundary(tail[i])) || OpenCalls(tail, |tail|) != []
  }

  lemma OpenShift(head: seq<Event>, tail: seq<Event>, i: nat)
    requires i < |tail|
    ensures Open(head + tail, |head| + i) <==> Open(tail, i)
  {
    var all := head + tail;
    assert forall j | i < j < |tail| :: all[|head| + j] == tail[j];
    if Open(tail, i) {
      forall j | |head| + i < j < |all| ensures Leaves(all[j], all[|head| + i].call.id) {
        assert all[j] == tail[j - |head|];
      }
    }
  }

  lemma {:induction false} OpenCallsShift(head: seq<Event>, tail: seq<Event>, k: nat)
    requires k <= |tail|
    ensures OpenCalls(head + tail, |head| + k) == OpenCalls(head + tail, |head|) + OpenCalls(tail, k)
    decreases k
  {
    if k > 0 {
      OpenCallsShift(head, tail, k - 1);
      OpenShift(head, tail, k - 1);
      assert (head + tail)[|head| + k - 1] == tail[k - 1];
    }
  }

  /** A boundary closes every call before it. */
  lemma {:induction false} BoundaryCloses(events: seq<Event>, k: nat, b: nat)
    requires k <= b < |events| && Boundary(events[b])
    ensures OpenCalls(events, k) == []
    decreases k
  {
    if k > 0 {
      BoundaryCloses(events, k - 1, b);
      assert Open(events, k - 1) ==> Leaves(events[b], events[k - 1].call.id);
    }
  }

  lemma SettledBy(tail: seq<Event>) returns (i: nat)
    requires Settles(tail)
    ensures i < |tail| && (Boundary(tail[i]) || tail[i].Called?)
  {
    if OpenCalls(tail, |tail|) != [] {
      i := FindNewest(tail, |tail|);
    } else {
      i :| i < |tail| && Boundary(tail[i]);
    }
  }

  lemma RestShift(head: seq<Event>, tail: seq<Event>)
    requires Settles(tail)
    ensures AtEnd(head + tail) <==> AtEnd(tail)
  {
    var all := head + tail;
    var s := SettledBy(tail);
    assert all[|head| + s] == tail[s];
    if AtEnd(tail) {
      var e: nat :| e < |tail| && RestsAt(tail, e);
      assert RestsAt(all, |head| + e);
    }
    if AtEnd(all) {
      var e: nat :| e < |all| && RestsAt(all, e);
      assert |head| + s <= e;
      assert forall i | e - |head| < i < |tail| :: tail[i] == all[|head| + i];
      assert RestsAt(tail, e - |head|);
    }
  }

  /** Reading only such an end of the log is sound, whatever came before. */
  lemma SuffixSound(head: seq<Event>, tail: seq<Event>)
    requires Settles(tail)
    ensures Verdict(head + tail) == Verdict(tail)
  {
    hide AtEnd, Open;
    var all := head + tail;
    RestShift(head, tail);
    OpenCallsShift(head, tail, |tail|);
    assert |all| == |head| + |tail|;
    if OpenCalls(tail, |tail|) == [] {
      var b: nat :| b < |tail| && Boundary(tail[b]);
      BoundaryCloses(all, |head|, |head| + b);
      ActiveTail(head, tail);
    }
  }

  /** A tail that starts inside a line reads that line as unreadable; the state is that of the whole log. */
  lemma TailWindowSound(before: seq<Line>, cut: Line, tail: seq<Line>)
    requires Settles(Events(tail))
    ensures Verdict(Events([Unreadable] + tail)) == Verdict(Events(before + [cut] + tail))
  {
    hide Settles, Verdict, EventOf;
    SuffixSound(Events([Unreadable]), Events(tail));
    SuffixSound(Events(before + [cut]), Events(tail));
    EventsAppend([Unreadable], tail);
    EventsAppend(before + [cut], tail);
  }

  lemma EventsAppend(a: seq<Line>, b: seq<Line>)
    ensures Events(a + b) == Events(a) + Events(b)
  {
    hide EventOf;
  }

  /** After a boundary and with no end standing, something in the tail was active. */
  lemma ActiveTail(head: seq<Event>, tail: seq<Event>)
    requires exists i | 0 <= i < |tail| :: Boundary(tail[i])
    ensures AtEnd(tail) || (Active(tail) && Active(head + tail))
  {
    if !AtEnd(tail) {
      if !Active(tail) { QuietLog(tail, |tail|); }
      var i: nat :| i < |tail| && Stirs(tail[i]);
      assert Stirs((head + tail)[|head| + i]);
    }
  }

  /** A call id longer than every id returned in `events`. */
  lemma {:induction false} FreshId(events: seq<Event>) returns (id: string)
    ensures forall e | e in events && e.Returned? :: |e.id| < |id|
    decreases |events|
  {
    if events == [] {
      id := "x";
    } else {
      id := FreshId(events[1..]);
      if events[0].Returned? { id := id + events[0].id + "x"; }
      assert events == [events[0]] + events[1..];
    }
  }

  /** Any other end leaves the state open: some log ending in it has another state. */
  lemma SuffixUnsettled(tail: seq<Event>) returns (head: seq<Event>)
    requires !Settles(tail)
    ensures Verdict(head + tail) != Verdict(tail)
  {
    var id := FreshId(tail);
    head := [Called(Call(id, "", 0, true))];
    var all := head + tail;
    forall j | 0 < j < |all| ensures Leaves(all[j], id) { assert all[j] == tail[j - 1] && tail[j - 1] in tail; }
    assert Open(all, 0);
    VerdictMeaning(all);
    VerdictMeaning(tail);
    if Verdict(tail).PendingCall? {
      var i: nat :| i < |tail| && Open(tail, i);
      OpenListed(tail, |tail|, i);
    }
  }

  // ----- in terms of the records -----------------------------------------------------------------

  predicate IsRecord(line: Line, top: string, kinds: set<string>) {
    line.Record? && line.top == Text(top) && line.kind.Text? && line.kind.value in kinds
  }

  predicate Ends(line: Line) { IsRecord(line, "event_msg", {"task_complete", "turn_aborted"}) }

  predicate Starts(line: Line) { IsRecord(line, "event_msg", {"task_started"}) }

  predicate Calls(line: Line) {
    IsRecord(line, "response_item", {"function_call", "custom_tool_call", "local_shell_call"})
  }

  predicate Returns(line: Line) {
    IsRecord(line, "response_item",
             {"function_call_output", "custom_tool_call_output", "local_shell_call_output"})
  }

  predicate Speaks(line: Line) { IsRecord(line, "response_item", {"reasoning", "message", "agent_message"}) }

  lemma EventKinds(line: Line)
    ensures Ends(line) <==> EventOf(line).TurnEnded?
    ensures Starts(line) <==> EventOf(line).TurnStarted?
    ensures Calls(line) <==> EventOf(line).Called?
    ensures Returns(line) <==> EventOf(line).Returned?
    ensures Speaks(line) <==> EventOf(line).Spoke?
    ensures Calls(line) || Returns(line) ==>
              (if Calls(line) then EventOf(line).call.id else EventOf(line).id) == IdOf(line)
  {
    hide CallCanNeedApproval;
  }

  function IdOf(line: Line): string
    requires line.Record?
  {
    if line.callId.Text? then line.callId.value else ""
  }

  /** Line `i` calls, and no turn boundary and no result for it follows. */
  predicate WaitsAt(lines: seq<Line>, i: nat) {
    && i < |lines| && Calls(lines[i])
    && forall j | i < j < |lines| ::
         !Ends(lines[j]) && !Starts(lines[j]) && !(Returns(lines[j]) && IdOf(lines[j]) == IdOf(lines[i]))
  }

  /** Line `i` ends a turn, and nothing but results follows. */
  predicate EndsAt(lines: seq<Line>, i: nat) {
    && i < |lines| && Ends(lines[i])
    && forall j | i < j < |lines| ::
         !Ends(lines[j]) && !Starts(lines[j]) && !Calls(lines[j]) && !Speaks(lines[j])
  }

  lemma WaitsIsOpen(lines: seq<Line>, i: nat)
    ensures WaitsAt(lines, i) <==> Open(Events(lines), i)
    ensures EndsAt(lines, i) <==> RestsAt(Events(lines), i)
  {
    hide EventOf, Ends, Starts, Calls, Returns, Speaks;
    forall k | 0 <= k < |lines| { EventKinds(lines[k]); }
  }

  /** The state after a log, said of its lines. */
  lemma LogMeaning(lines: seq<Line>)
    ensures var state := Verdict(Events(lines));
            && (state.Idle? <==> exists i: nat | i < |lines| :: EndsAt(lines, i))
            && (state.PendingCall? <==> exists i: nat | i < |lines| :: WaitsAt(lines, i))
            && (state.Unknown? <==>
                  forall i | 0 <= i < |lines| ::
                    !Ends(lines[i]) && !Starts(lines[i]) && !Calls(lines[i]) && !Returns(lines[i]) && !Speaks(lines[i]))
  {
    VerdictMeaning(Events(lines));
    hide EventOf, Ends, Starts, Calls, Returns, Speaks, Verdict, WaitsAt, EndsAt, Open, RestsAt;
    forall i: nat { WaitsIsOpen(lines, i); }
    forall i | 0 <= i < |lines| { EventKinds(lines[i]); }
  }

  lemma ContainsIff(s: string, part: string)
    ensures Contains(s, part) <==> exists before: string, after: string :: s == before + part + after
  {
    if k: nat :| k <= |s| && StandsAt(s, part, k) { assert s == s[..k] + part + s[k + |part|..]; }
    if before: string, after: string :| s == before + part + after { assert StandsAt(s, part, |before|); }
  }

  /** The text of the input, or of the arguments when there is no input at all. */
  ghost predicate InputIs(line: Line, input: string)
    requires line.Record?
  {
    || line.input == Text(input) || (line.input.Absent? && line.arguments == Text(input))
    || (input == "" && (line.input.NotText? || (line.input.Absent? && !line.arguments.Text?)))
  }

  /** The tools that start a program or change files. */
  ghost predicate RunsTool(input: string) {
    exists tool, before: string, after: string ::
      tool in {"tools.exec_command", "tools.shell", "tools.apply_patch", "sandbox_permissions"}
      && input == before + tool + after
  }

  /** What is kept of a call. */
  lemma CallFields(line: Line, input: string)
    requires line.Record? && InputIs(line, input)
    ensures var call := CallOf(line);
            && call.id == IdOf(line)
            && (line.name.Text? ==> call.name == line.name.value)
            && (!line.name.Text? && line.kind.Text? ==> call.name == line.kind.value)
            && (line.stamp.None? ==> call.startedMs == 0)
            && (forall t | CivilTime.ValidInstant(t) && line.stamp == Some(CivilTime.Format(t)) ::
                  call.startedMs == CivilTime.EpochMillis(t))
            && (call.canNeedApproval <==>
                  call.name !in RUNS_INSIDE && (call.name == "exec" ==> RunsTool(input)))
  {
    hide CivilTime.ParseTimestamp, CivilTime.Format, CivilTime.EpochMillis, Contains;
    forall t | CivilTime.ValidInstant(t) && line.stamp == Some(CivilTime.Format(t))
      ensures CivilTime.ParseTimestamp(line.stamp.value) == Some(CivilTime.EpochMillis(t))
    {
      CivilTime.ParseFormat(t);
    }
    RunsToolIff(input);
  }

  lemma RunsToolIff(input: string)
    ensures RunsTool(input) <==>
            || Contains(input, "tools.exec_command") || Contains(input, "tools.shell")
            || Contains(input, "tools.apply_patch") || Contains(input, "sandbox_permissions")
  {
    hide Contains;
    ContainsIff(input, "tools.exec_command");
    ContainsIff(input, "tools.shell");
    ContainsIff(input, "tools.apply_patch");
    ContainsIff(input, "sandbox_permissions");
  }

  // ----- the scan ------------------------------------------------------------------------------

  function Without(calls: seq<Call>, id: string): seq<Call> {
    if calls == [] then []
    else Without(calls[..|calls| - 1], id) + if calls[|calls| - 1].id == id then [] else [calls[|calls| - 1]]
  }

  /** What one more event does to the calls before it. */
  lemma {:induction false} OneMore(events: seq<Event>, e: Event, k: nat)
    requires k <= |events|
    ensures Boundary(e) ==> OpenCalls(events + [e], k) == []
    ensures e.Returned? ==> OpenCalls(events + [e], k) == Without(OpenCalls(events, k), e.id)
    ensures !Boundary(e) && !e.Returned? ==> OpenCalls(events + [e], k) == OpenCalls(events, k)
    decreases k
  {
    if k > 0 {
      OneMore(events, e, k - 1);
      OpenOneMore(events, e, k - 1);
      assert (events + [e])[k - 1] == events[k - 1];
      var rest := OpenCalls(events, k - 1);
      if Open(events, k - 1) {
        assert (rest + [events[k - 1].call])[..|rest|] == rest;
      } else {
        assert OpenCalls(events, k) == rest;
      }
    }
  }

  lemma OpenOneMore(events: seq<Event>, e: Event, i: nat)
    requires i < |events|
    ensures Open(events + [e], i) <==> Open(events, i) && Leaves(e, events[i].call.id)
  {
    var all := events + [e];
    assert all[|events|] == e;
    assert forall j | i < j < |events| :: all[j] == events[j];
  }

  lemma RestOneMore(events: seq<Event>, e: Event)
    ensures AtEnd(events + [e]) <==> e.TurnEnded? || (AtEnd(events) && (e.Returned? || e.Other?))
    ensures Active(events + [e]) <==> Active(events) || Stirs(e)
  {
    var all := events + [e];
    var n := |events|;
    assert all[n] == e;
    if e.TurnEnded? { assert RestsAt(all, n); }
    if AtEnd(events) && (e.Returned? || e.Other?) {
      var i: nat :| i < n && RestsAt(events, i);
      assert RestsAt(all, i);
    }
    if AtEnd(all) && !e.TurnEnded? {
      var i: nat :| i < n && RestsAt(all, i);
      assert forall j | i < j < n :: all[j] == events[j];
      assert RestsAt(events, i);
    }
    if Active(events) {
      var i: nat :| i < n && Stirs(events[i]);
      assert Stirs(all[i]);
    }
  }

  method Retain(pending: seq<Call>, id: string) returns (kept: seq<Call>)
    ensures kept == Without(pending, id)
  {
    kept := [];
    for i := 0 to |pending|
      invariant kept == Without(pending[..i], id)
    {
      assert pending[..i + 1][..i] == pending[..i];
      if pending[i].id != id { kept := kept + [pending[i]]; }
    }
    assert pending[..|pending|] == pending;
  }

  /** One pass, oldest line first, keeping a flag for the end of a turn and the calls without a result. */
  method ClassifyTail(lines: seq<Line>) returns (state: LogState)
    ensures state == Verdict(Events(lines))
  {
    hide AtEnd, Open, Active;
    ghost var events := Events(lines);
    var idle, observed := false, false;
    var pending: seq<Call> := [];
    EmptyLog();
    for n := 0 to |lines|
      invariant idle == AtEnd(events[..n]) && observed == Active(events[..n])
      invariant pending == OpenCalls(events[..n], n)
    {
      var e := EventOf(lines[n]);
      assert events[..n + 1] == events[..n] + [e];
      OneMore(events[..n], e, n);
      RestOneMore(events[..n], e);
      NewestEvent(events[..n], e);
      match e {
        case TurnEnded => idle := true; pending := [];
        case TurnStarted => observed := true; idle := false; pending := [];
        case Called(call) => observed := true; idle := false; pending := pending + [call];
        case Returned(id) => observed := true; pending := Retain(pending, id);
        case Spoke => observed := true; idle := false;
        case Other =>
      }
    }
    assert events[..|lines|] == events;
    state := Judged(idle, pending, observed);
  }

  lemma EmptyLog()
    ensures !AtEnd([]) && !Active([])
  {
  }

  lemma NewestEvent(events: seq<Event>, e: Event)
    ensures Open(events + [e], |events|) <==> e.Called?
    ensures OpenCalls(events + [e], |events| + 1)
         == OpenCalls(events + [e], |events|) + if e.Called? then [e.call] else []
  {
  }

  // ----- with the process table ------------------------------------------------------------------

  function LifecycleFrom(log: LogState, childStartedAfter: int -> bool): Lifecycle {
    match log
    case Unknown => Unavailable
    case Idle => AtRest
    case Thinking => Working
    case PendingCall(name, startedMs, canNeedApproval) =>
      if name == "request_user_input" then Waiting
      else if !canNeedApproval then Working
      else if childStartedAfter(startedMs - 1000) then Working
      else Waiting
  }

  lemma PendingNewest(events: seq<Event>)
    ensures Verdict(events).PendingCall? <==> exists i: nat | i < |events| :: NewestOpen(events, i)
  {
    VerdictMeaning(events);
    if Verdict(events).PendingCall? {
      var i := FindNewest(events, |events|);
      assert NewestOpen(events, i);
    }
  }

  /** The badge waits exactly for the newest open call: one that asks the user, or one that may need
      approval and has no process younger than it. */
  lemma WaitingIff(events: seq<Event>, childStartedAfter: int -> bool)
    ensures LifecycleFrom(Verdict(events), childStartedAfter).Waiting? <==>
            exists i: nat | i < |events| && NewestOpen(events, i) :: Blocks(events[i].call, childStartedAfter)
    ensures LifecycleFrom(Verdict(events), childStartedAfter).AtRest? <==> AtEnd(events)
    ensures LifecycleFrom(Verdict(events), childStartedAfter).Unavailable? <==>
            forall i | 0 <= i < |events| :: events[i].Other?
  {
    VerdictMeaning(events);
    PendingNewest(events);
    hide Verdict, NewestOpen, AtEnd, Open;
  }

  predicate Blocks(call: Call, childStartedAfter: int -> bool) {
    call.name == "request_user_input" || (call.canNeedApproval && !childStartedAfter(call.startedMs - 1000))
  }
}
