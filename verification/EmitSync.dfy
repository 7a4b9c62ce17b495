/**
 Keeping the subscribers of a grid in step: `subscribe_diffs` and `emit_session_diff` of
 `src-tauri/src/vt_grid.rs`. Both release their locks half way, so each is two atomic steps here:
 a subscriber sends its baseline and later joins; the emitter captures a frame and later sends it.
 Any number of subscribers, mutations and emissions may interleave.
 */
module EmitSync {
  import opened Common
  import opened WireFormat
  import opened GridReader

  type Id = nat
  type Message = seq<u8>

  /**
   One session. `grid` is what a capture would return now. `inFlight` is the frame the emitter has
   captured and not yet sent, `joining` the baselines sent by subscribers that have not joined,
   and `received` every message each subscriber was handed.
   */
  datatype State = State(
    dirty: bool, grid: WireFrame, inFlight: Option<WireFrame>, prev: Option<WireFrame>,
    channels: seq<Id>, joining: map<Id, WireFrame>, received: map<Id, seq<Message>>)

  datatype Step =
    | Mutate(after: WireFrame)
    | SubscribeSend(id: Id)
    | Join(id: Id)
    | EmitCapture
    | EmitSend(accept: set<Id>)

  ghost predicate Init(s: State) {
    s.dirty && Presentable(s.grid) && s.inFlight.None? && s.prev.None?
    && s.channels == [] && s.joining == map[] && s.received == map[]
  }

  ghost predicate Inv(s: State) {
    && Presentable(s.grid)
    && (s.inFlight.Some? ==> Presentable(s.inFlight.value) && s.prev.Some?)
    && (s.prev.Some? ==> Presentable(s.prev.value))
    && (s.channels != [] ==> s.prev.Some?)
    && (!s.dirty ==> s.prev.Some? && s.grid == (if s.inFlight.Some? then s.inFlight else s.prev).value)
    && (forall id | id in s.channels :: id in s.received && id !in s.joining)
    && (forall i, j | 0 <= i < j < |s.channels| :: s.channels[i] != s.channels[j])
    && (forall id | id in s.joining :: id in s.received && Presentable(s.joining[id])
          && s.received[id] == [Encoded(s.joining[id], None)])
  }

  ghost predicate Enabled(s: State, step: Step) {
    match step
    case Mutate(after) => Presentable(after)
    case SubscribeSend(id) => id !in s.received && Presentable(s.grid)
    case Join(id) => id in s.joining
    case EmitCapture => s.inFlight.None? && s.channels != [] && s.dirty
    case EmitSend(_) => s.inFlight.Some? && Comparable(s.inFlight.value, s.prev)
  }

  /** The channels whose send succeeded, in order. */
  function Retain(channels: seq<Id>, accept: set<Id>): (kept: seq<Id>)
    ensures forall id :: id in kept <==> id in channels && id in accept
    ensures |kept| <= |channels|
  {
    if channels == [] then []
    else (if channels[0] in accept then [channels[0]] else []) + Retain(channels[1..], accept)
  }

  /** Does this step put a message on the wire? */
  predicate Publishes(s: State, step: Step) {
    step.EmitSend? && s.inFlight.Some? && DiffersFrom(s.inFlight.value, s.prev)
  }

  function Deliver(channels: seq<Id>, received: map<Id, seq<Message>>, msg: Message, accept: set<Id>)
    : map<Id, seq<Message>>
  {
    map id | id in received :: if id in channels && id in accept then received[id] + [msg] else received[id]
  }

  ghost function After(s: State, step: Step): State
    requires Enabled(s, step)
  {
    match step
    case Mutate(after) => s.(dirty := true, grid := after)
    case SubscribeSend(id) =>
      s.(joining := s.joining[id := s.grid], received := s.received[id := [Encoded(s.grid, None)]])
    case Join(id) =>
      s.(channels := s.channels + [id], joining := s.joining - {id},
         prev := if s.prev.None? then Some(s.joining[id]) else s.prev)
    case EmitCapture => s.(dirty := false, inFlight := Some(s.grid))
    case EmitSend(accept) =>
      var f := s.inFlight.value;
      if DiffersFrom(f, s.prev) then
        s.(inFlight := None, prev := Some(f), channels := Retain(s.channels, accept),
           received := Deliver(s.channels, s.received, Encoded(f, s.prev), accept))
      else s.(inFlight := None)
  }

  // ----- invariants --------------------------------------------------------------

  lemma {:induction false} RetainDistinct(channels: seq<Id>, accept: set<Id>)
    requires forall i, j | 0 <= i < j < |channels| :: channels[i] != channels[j]
    ensures var k := Retain(channels, accept); forall i, j | 0 <= i < j < |k| :: k[i] != k[j]
  {
    if channels != [] {
      RetainDistinct(channels[1..], accept);
      assert channels[0] !in Retain(channels[1..], accept);
    }
  }

  lemma InvKept(s: State, step: Step)
    requires Inv(s) && Enabled(s, step)
    ensures Inv(After(s, step))
  {
    hide Presentable, Comparable, Encoded, DiffersFrom;
    match step
    case Mutate(_) =>
    case SubscribeSend(_) =>
    case Join(id) => JoinKeepsInv(s, id);
    case EmitCapture =>
    case EmitSend(accept) => SendKeepsInv(s, accept);
  }

  lemma JoinKeepsInv(s: State, id: Id)
    requires Inv(s) && Enabled(s, Join(id))
    ensures Inv(After(s, Join(id)))
  {
    hide Presentable, Comparable, Encoded, DiffersFrom;
    var t := After(s, Join(id));
    assert t.channels[..|s.channels|] == s.channels;
    forall i, j | 0 <= i < j < |t.channels| ensures t.channels[i] != t.channels[j] {
      assert t.channels[i] == s.channels[i] && s.channels[i] in s.channels;
    }
  }

  lemma SendKeepsInv(s: State, accept: set<Id>)
    requires Inv(s) && Enabled(s, EmitSend(accept))
    ensures Inv(After(s, EmitSend(accept)))
  {
    hide Presentable, Comparable, Encoded, DiffersFrom, Retain;
    var t := After(s, EmitSend(accept));
    if DiffersFrom(s.inFlight.value, s.prev) {
      RetainDistinct(s.channels, accept);
      assert t.channels == Retain(s.channels, accept);
      assert forall id | id in t.channels :: id in t.received && id !in t.joining;
      assert forall id | id in t.joining :: id in t.received && t.received[id] == s.received[id];
      assert !t.dirty ==> t.prev.Some? && t.grid == t.prev.value;
      assert forall i, j | 0 <= i < j < |t.channels| :: t.channels[i] != t.channels[j];
      assert (t.channels != [] ==> t.prev.Some?);
      assert (t.prev.Some? ==> Presentable(t.prev.value));
    } else {
      assert s.prev == Some(s.prev.value);
      DiffersFromIsInequality(s.inFlight.value, s.prev.value);
    }
  }

  // ----- runs --------------------------------------------------------------------

  ghost predicate IsRun(run: seq<State>, steps: seq<Step>) {
    |run| == |steps| + 1 && Init(run[0])
    && forall i {:trigger steps[i]} | 0 <= i < |steps| ::
         Enabled(run[i], steps[i]) && run[i + 1] == After(run[i], steps[i])
  }

  lemma InitInv(s: State)
    requires Init(s)
    ensures Inv(s)
  {
  }

  lemma {:induction false} InvAlways(run: seq<State>, steps: seq<Step>, k: nat)
    requires IsRun(run, steps) && k < |run|
    ensures Inv(run[k])
    decreases k
  {
    hide After, Enabled, Inv, Init;
    if k == 0 {
      InitInv(run[0]);
    } else {
      InvAlways(run, steps, k - 1);
      InvKept(run[k - 1], steps[k - 1]);
    }
  }

  /** What the two proved facts say of a grid that is not dirty: its last frame is up to date. */
  lemma CleanMeansCurrent(run: seq<State>, steps: seq<Step>, k: nat)
    requires IsRun(run, steps) && k < |run| && !run[k].dirty && run[k].inFlight.None?
    ensures run[k].prev == Some(run[k].grid)
  {
    InvAlways(run, steps, k);
  }

  // ----- what a subscriber shows ---------------------------------------------------

  /** The screen after a list of messages. */
  function Replay(msgs: seq<Message>): (t: Screen)
    ensures |t.cells| == t.rows
  {
    if msgs == [] then EMPTY else ReceiveShape(Replay(msgs[..|msgs| - 1]), msgs[|msgs| - 1])
  }

  function ReceiveShape(s: Screen, b: Message): (t: Screen)
    requires |s.cells| == s.rows
    ensures |t.cells| == t.rows && t == Receive(s, b)
  {
    Receive(s, b)
  }

  lemma ReplaySnoc(msgs: seq<Message>, msg: Message)
    ensures Replay(msgs + [msg]) == Receive(Replay(msgs), msg)
  {
  }

  ghost predicate Follows(s: State, id: Id) {
    Inv(s) && id in s.channels
  }

  /** The subscriber shows exactly the last frame sent. */
  ghost predicate Shown(s: State, id: Id)
    requires Follows(s, id)
  {
    Replay(s.received[id]) == View(s.prev.value)
  }

  /** Row `r` of the last frame is what the subscriber would keep for it across a diff. */
  ghost predicate RowCurrent(s: State, id: Id, r: nat)
    requires Follows(s, id)
  {
    var p := s.prev.value;
    r < p.rows && Resized(Replay(s.received[id]), false, p.cols, p.rows)[r] == ShownRow(p, r)
  }

  /** The step sends row `r`, in a diff that changes it or in a full message. */
  ghost predicate Carries(s: State, step: Step, r: nat) {
    Publishes(s, step) && Comparable(s.inFlight.value, s.prev)
    && r < s.inFlight.value.rows && RowDirty(s.inFlight.value, s.prev, r)
  }

  /** Steps that publish nothing change neither a joined subscriber nor the last frame. */
  lemma QuietStep(s: State, step: Step, id: Id)
    requires Enabled(s, step) && Follows(s, id) && !Publishes(s, step)
    ensures var t := After(s, step);
            Follows(t, id) && t.prev == s.prev && t.received[id] == s.received[id]
  {
    InvKept(s, step);
  }

  /** A published message reaches each subscriber that stays, on top of what it had. */
  lemma PublishedStep(s: State, step: Step, id: Id)
    requires Enabled(s, step) && Follows(s, id) && Publishes(s, step) && id in After(s, step).channels
    ensures var t := After(s, step);
            Follows(t, id) && t.prev == s.inFlight
            && Replay(t.received[id]) == Receive(Replay(s.received[id]), Encoded(s.inFlight.value, s.prev))
  {
    InvKept(s, step);
    ReplaySnoc(s.received[id], Encoded(s.inFlight.value, s.prev));
  }

  /** A change of dimensions brings every subscriber into step, whatever it showed before. */
  lemma ResizeResyncs(s: State, step: Step, id: Id)
    requires Enabled(s, step) && Follows(s, id) && id in After(s, step).channels
    requires Publishes(s, step) && IsFull(s.inFlight.value, s.prev)
    ensures Follows(After(s, step), id) && Shown(After(s, step), id)
  {
    PublishedStep(s, step, id);
    RoundTrip(Replay(s.received[id]), s.inFlight.value, s.prev);
  }

  /** One row over one step: it is current afterwards iff it was carried or was current before. */
  lemma RowStep(s: State, step: Step, id: Id, r: nat)
    requires Enabled(s, step) && Follows(s, id) && id in After(s, step).channels
    requires r < After(s, step).prev.value.rows
    ensures Follows(After(s, step), id)
    ensures RowCurrent(After(s, step), id, r) <==> Carries(s, step, r) || RowCurrent(s, id, r)
  {
    if Publishes(s, step) {
      PublishedStep(s, step, id);
      ReceiveEncoded(Replay(s.received[id]), s.inFlight.value, s.prev);
    } else {
      QuietStep(s, step, id);
    }
  }

  /** After any message the header, and so the size, is that of the last frame. */
  ghost predicate HeaderCurrent(s: State, id: Id)
    requires Follows(s, id)
  {
    var t := Replay(s.received[id]);
    t == View(s.prev.value).(cells := t.cells)
  }

  lemma ShownIsAllRows(s: State, id: Id)
    requires Follows(s, id) && HeaderCurrent(s, id)
    ensures Shown(s, id) <==> forall r: nat | r < s.prev.value.rows :: RowCurrent(s, id, r)
  {
    var t, p := Replay(s.received[id]), s.prev.value;
    if forall r: nat | r < p.rows :: RowCurrent(s, id, r) {
      forall r | 0 <= r < p.rows ensures t.cells[r] == View(p).cells[r] { assert RowCurrent(s, id, r); }
      assert t.cells == View(p).cells;
    }
  }

  lemma HeaderKept(s: State, step: Step, id: Id)
    requires Enabled(s, step) && Follows(s, id) && id in After(s, step).channels
    requires HeaderCurrent(s, id) || Publishes(s, step)
    ensures Follows(After(s, step), id) && HeaderCurrent(After(s, step), id)
  {
    if Publishes(s, step) {
      PublishedStep(s, step, id);
      ReceiveEncoded(Replay(s.received[id]), s.inFlight.value, s.prev);
    } else {
      QuietStep(s, step, id);
    }
  }

  // ----- over whole runs -----------------------------------------------------------

  lemma RunStep(run: seq<State>, steps: seq<Step>, k: nat)
    requires IsRun(run, steps) && k < |steps|
    ensures |run| == |steps| + 1 && Inv(run[k]) && Enabled(run[k], steps[k])
    ensures run[k + 1] == After(run[k], steps[k]) && Inv(run[k + 1])
  {
    InvAlways(run, steps, k);
    InvKept(run[k], steps[k]);
  }

  /** A baseline stays recorded; who has joined does not go back to joining, nor join again. */
  lemma MembershipStep(s: State, step: Step, id: Id)
    requires Enabled(s, step)
    ensures var t := After(s, step);
            && (id in s.received ==> id in t.received)
            && (id in s.received && id !in s.joining ==> id !in t.joining)
            && (id in s.received && id !in s.joining && id in t.channels ==> id in s.channels)
            && (id in s.received && id in t.joining ==> id in s.joining && t.joining[id] == s.joining[id])
            && (step == Join(id) ==> id !in t.joining)
            && (!Publishes(s, step) && s.prev.Some? ==> t.prev == s.prev)
  {
  }

  /** A subscriber still attached at `k` has been attached ever since it joined. */
  lemma {:induction false} StillJoined(run: seq<State>, steps: seq<Step>, j: nat, k: nat, id: Id)
    requires IsRun(run, steps) && j < k < |run| && steps[j] == Join(id)
    ensures Inv(run[k - 1]) && Inv(run[k])
    ensures Enabled(run[k - 1], steps[k - 1]) && run[k] == After(run[k - 1], steps[k - 1])
    ensures id in run[k].received && id !in run[k].joining
    ensures id in run[k].channels ==> j + 1 == k || id in run[k - 1].channels
    decreases k
  {
    hide After, Inv, Enabled, Publishes;
    RunStep(run, steps, k - 1);
    MembershipStep(run[k - 1], steps[k - 1], id);
    if k > j + 1 { StillJoined(run, steps, j, k - 1, id); }
  }

  /**
   What the screen `t` needs for the pending frame `f` to set it right: when `f` is not worth
   sending it must show the last frame `p`, and otherwise every row is carried or is right already.
   A change of dimensions carries every row.
   */
  ghost predicate ScreenFits(t: Screen, f: WireFrame, p: WireFrame)
    requires Presentable(f) && Presentable(p) && |t.cells| == t.rows
  {
    if f == p then t == View(p)
    else forall r: nat | r < f.rows ::
           RowDirty(f, Some(p), r) || Resized(t, false, f.cols, f.rows)[r] == ShownRow(f, r)
  }

  /** A message worth sending brings a screen into step iff the screen fits it. */
  lemma FitsExactly(t: Screen, f: WireFrame, p: WireFrame)
    requires Presentable(f) && Presentable(p) && |t.cells| == t.rows && f != p
    ensures Receive(t, Encoded(f, Some(p))) == View(f) <==> ScreenFits(t, f, p)
  {
    ReceiveEncoded(t, f, Some(p));
    hide Receive, Encoded;
    var u := Receive(t, Encoded(f, Some(p)));
    if ScreenFits(t, f, p) {
      forall r | 0 <= r < f.rows ensures u.cells[r] == View(f).cells[r] {
        assert RowDirty(f, Some(p), r) || Resized(t, false, f.cols, f.rows)[r] == ShownRow(f, r);
      }
      assert u.cells == View(f).cells;
    }
  }

  /** In step: the subscriber shows the last frame, or will once the pending one has been dealt with. */
  ghost predicate InStep(s: State, id: Id)
    requires Follows(s, id)
  {
    if s.inFlight.None? then Shown(s, id)
    else ScreenFits(Replay(s.received[id]), s.inFlight.value, s.prev.value)
  }

  /** When the emitter has dealt with its frame, a subscriber shows it iff it was in step before. */
  lemma SentIff(s: State, accept: set<Id>, id: Id)
    requires Enabled(s, EmitSend(accept)) && Follows(s, id) && id in After(s, EmitSend(accept)).channels
    ensures Follows(After(s, EmitSend(accept)), id) && After(s, EmitSend(accept)).inFlight.None?
    ensures Shown(After(s, EmitSend(accept)), id) <==> InStep(s, id)
  {
    hide Receive, Encoded, View, ScreenFits;
    DiffersFromIsInequality(s.inFlight.value, s.prev.value);
    if Publishes(s, EmitSend(accept)) {
      PublishedStep(s, EmitSend(accept), id);
      FitsExactly(Replay(s.received[id]), s.inFlight.value, s.prev.value);
    } else {
      QuietStep(s, EmitSend(accept), id);
      UnchangedFits(Replay(s.received[id]), s.inFlight.value);
    }
  }

  lemma UnchangedFits(t: Screen, p: WireFrame)
    requires Presentable(p) && |t.cells| == t.rows
    ensures ScreenFits(t, p, p) <==> t == View(p)
  {
  }

  /** A screen that shows the last frame, or the pending one already, fits. */
  lemma ShownFits(f: WireFrame, p: WireFrame)
    requires Presentable(f) && Presentable(p)
    ensures ScreenFits(View(p), f, p) && ScreenFits(View(f), f, p)
  {
  }

  /** A subscriber that shows the last frame goes on showing it. */
  lemma ShownKept(s: State, step: Step, id: Id)
    requires Enabled(s, step) && Follows(s, id) && id in After(s, step).channels && Shown(s, id)
    ensures Follows(After(s, step), id) && Shown(After(s, step), id)
  {
    hide View, ScreenFits, After;
    if step.EmitSend? {
      ShownFits(s.inFlight.value, s.prev.value);
      SentIff(s, step.accept, id);
    } else {
      QuietStep(s, step, id);
    }
  }

  /** A subscriber that is ahead of the last frame loses nothing when the emitter catches up. */
  lemma AheadCatchesUp(s: State, accept: set<Id>, id: Id)
    requires Enabled(s, EmitSend(accept)) && Follows(s, id) && id in After(s, EmitSend(accept)).channels
    requires Replay(s.received[id]) == View(s.inFlight.value)
    ensures Follows(After(s, EmitSend(accept)), id) && Shown(After(s, EmitSend(accept)), id)
  {
    hide View, ScreenFits, Shown, After;
    ShownFits(s.inFlight.value, s.prev.value);
    SentIff(s, accept, id);
  }

  lemma InStepKept(s: State, step: Step, id: Id)
    requires Enabled(s, step) && Follows(s, id) && id in After(s, step).channels && InStep(s, id)
    ensures Follows(After(s, step), id) && InStep(After(s, step), id)
  {
    hide Receive, Encoded, View, Replay, ScreenFits, IsFull;
    if step.EmitSend? {
      SentIff(s, step.accept, id);
    } else {
      QuietStep(s, step, id);
      if step.EmitCapture? { ShownFits(s.grid, s.prev.value); }
    }
  }

  /**
   What a join needs: there is no last frame, the baseline shows it, or the baseline fits the frame
   that is pending.
   */
  ghost predicate JoinFits(s: State, id: Id)
    requires Inv(s) && id in s.joining
  {
    s.prev.Some? ==>
      if s.inFlight.None? then View(s.joining[id]) == View(s.prev.value)
      else ScreenFits(View(s.joining[id]), s.inFlight.value, s.prev.value)
  }

  lemma JoinIsInStep(s: State, id: Id)
    requires Inv(s) && Enabled(s, Join(id))
    ensures Follows(After(s, Join(id)), id)
    ensures InStep(After(s, Join(id)), id) <==> JoinFits(s, id)
  {
    hide Presentable, Comparable, Encoded, View, Receive, IsFull, Replay, ScreenFits;
    InvKept(s, Join(id));
    BaselineShows(s.joining[id]);
  }

  /**
   Subscribers that start in step stay in step: whatever mutations, joins, failed sends and
   emissions follow, every subscriber still attached is in step, and shows exactly the last frame
   sent whenever the emitter is idle.
   */
  lemma {:induction false} InSyncForever(run: seq<State>, steps: seq<Step>, j: nat, k: nat, id: Id)
    requires IsRun(run, steps) && j < k < |run| && steps[j] == Join(id) && id in run[k].channels
    requires Inv(run[j]) && id in run[j].joining && JoinFits(run[j], id)
    ensures Follows(run[k], id) && InStep(run[k], id)
    ensures run[k].inFlight.None? ==> Shown(run[k], id)
    decreases k
  {
    hide After, Shown, Inv, Enabled, JoinFits, ScreenFits;
    StillJoined(run, steps, j, k, id);
    if k == j + 1 {
      JoinIsInStep(run[j], id);
    } else {
      InSyncForever(run, steps, j, k - 1, id);
      InStepKept(run[k - 1], steps[k - 1], id);
    }
  }

  /**
   If the grid was clean when the baseline was sent, and no frame was captured before the join, the
   subscriber stays in step for ever. For a subscription that is not interrupted between its halves
   a clean grid is enough, and so is a session without a last frame.
   */
  lemma {:induction false} QuietJoinInSync(run: seq<State>, steps: seq<Step>, i: nat, j: nat, k: nat, id: Id)
    requires IsRun(run, steps) && i < j < k < |run| && steps[i] == SubscribeSend(id) && steps[j] == Join(id)
    requires !run[i].dirty || (run[i].prev.None? && j == i + 1)
    requires forall m | i < m < j :: !steps[m].EmitCapture?
    requires id in run[k].channels
    ensures Follows(run[k], id) && InStep(run[k], id)
    ensures run[k].inFlight.None? ==> Shown(run[k], id)
  {
    hide After, Inv, Enabled, JoinFits, Newest, InStep, Shown;
    RunStep(run, steps, i);
    RunStep(run, steps, j);
    Joins(run[j], id);
    if run[i].dirty {
      SentBaseline(run[i], id);
    } else {
      BaselineKept(run, steps, i, j, id);
    }
    Fits(run[j], id);
    InSyncForever(run, steps, j, k, id);
  }

  lemma Joins(s: State, id: Id)
    requires Enabled(s, Join(id))
    ensures id in s.joining
  {
  }

  lemma Fits(s: State, id: Id)
    requires Inv(s) && id in s.joining && (s.prev.None? || Newest(s, s.joining[id]))
    ensures JoinFits(s, id)
  {
    hide View, ScreenFits, Presentable;
    if s.inFlight.Some? && s.prev.Some? { ShownFits(s.inFlight.value, s.prev.value); }
  }

  lemma SentBaseline(s: State, id: Id)
    requires Enabled(s, SubscribeSend(id))
    ensures var t := After(s, SubscribeSend(id));
            && id in t.received && t.prev == s.prev && t.inFlight == s.inFlight
            && id in t.joining && t.joining[id] == s.grid
  {
  }

  /** The newest frame captured, sent or not, is `g`. */
  predicate Newest(s: State, g: WireFrame) { (if s.inFlight.Some? then s.inFlight else s.prev) == Some(g) }

  lemma NewestKept(s: State, step: Step, g: WireFrame)
    requires Inv(s) && Enabled(s, step) && !step.EmitCapture? && Newest(s, g)
    ensures Newest(After(s, step), g)
  {
    hide Presentable, Encoded, Deliver, Retain, DiffersFrom;
    if step.EmitSend? { DiffersFromIsInequality(s.inFlight.value, s.prev.value); }
  }

  lemma {:induction false} BaselineKept(run: seq<State>, steps: seq<Step>, i: nat, j: nat, id: Id)
    requires IsRun(run, steps) && i < j < |run| && steps[i] == SubscribeSend(id) && !run[i].dirty
    requires forall m | i < m < j :: !steps[m].EmitCapture?
    ensures id in run[j].received && Newest(run[j], run[i].grid)
    ensures id in run[j].joining ==> run[j].joining[id] == run[i].grid
    decreases j
  {
    hide After, Inv, Enabled, Newest;
    RunStep(run, steps, j - 1);
    if j > i + 1 {
      BaselineKept(run, steps, i, j - 1, id);
      MembershipStep(run[j - 1], steps[j - 1], id);
    } else {
      CleanIsNewest(run[i]);
      SentBaseline(run[i], id);
    }
    NewestKept(run[j - 1], steps[j - 1], run[i].grid);
  }

  lemma CleanIsNewest(s: State)
    requires Inv(s) && !s.dirty
    ensures Newest(s, s.grid)
  {
  }

  lemma BaselineShows(f: WireFrame)
    requires Presentable(f)
    ensures Replay([Encoded(f, None)]) == View(f)
  {
    hide View, Receive, Encoded;
    assert [Encoded(f, None)][..0] == [];
    RoundTrip(EMPTY, f, None);
  }

  /** Row `r` was current when the subscriber joined, or some message since has carried it. */
  ghost predicate Served(run: seq<State>, steps: seq<Step>, j: nat, k: nat, id: Id, r: nat)
    requires j < k < |run| <= |steps| + 1 && Follows(run[j + 1], id)
  {
    RowCurrent(run[j + 1], id, r) || exists m | j < m < k :: Carries(run[m], steps[m], r)
  }

  /**
   The exact law for any join, clean or not: row `r` of a subscriber is current iff it was current
   when it joined or some message since has carried it.
   */
  lemma {:induction false} RowLaw(run: seq<State>, steps: seq<Step>, j: nat, k: nat, id: Id, r: nat)
    requires IsRun(run, steps) && j < k < |run| && steps[j] == Join(id) && id in run[k].channels
    requires run[k].prev.Some? && r < run[k].prev.value.rows
    ensures Follows(run[k], id) && Follows(run[j + 1], id)
    ensures RowCurrent(run[k], id, r) <==> Served(run, steps, j, k, id, r)
    decreases k
  {
    hide After, Inv, Enabled, RowCurrent, Carries;
    StillJoined(run, steps, j, k, id);
    FollowsSince(run, steps, j, k, id);
    if k > j + 1 {
      var s, step := run[k - 1], steps[k - 1];
      PrevPresent(s, id);
      RowStep(s, step, id, r);
      if r < s.prev.value.rows {
        RowLaw(run, steps, j, k - 1, id, r);
      } else {
        NewRowCarried(s, step, id, r);
      }
    }
  }

  lemma PrevPresent(s: State, id: Id)
    requires Follows(s, id)
    ensures s.prev.Some?
  {
  }

  lemma NewRowCarried(s: State, step: Step, id: Id, r: nat)
    requires Enabled(s, step) && Follows(s, id) && id in After(s, step).channels
    requires After(s, step).prev.Some? && s.prev.value.rows <= r < After(s, step).prev.value.rows
    ensures Carries(s, step, r)
  {
    if !Publishes(s, step) { QuietStep(s, step, id); }
  }

  lemma {:induction false} FollowsSince(run: seq<State>, steps: seq<Step>, j: nat, k: nat, id: Id)
    requires IsRun(run, steps) && j < k < |run| && steps[j] == Join(id) && id in run[k].channels
    ensures Follows(run[k], id) && Follows(run[j + 1], id)
    decreases k
  {
    hide After, Inv, Enabled;
    StillJoined(run, steps, j, k, id);
    if k > j + 1 { FollowsSince(run, steps, j, k - 1, id); }
  }

  /**
   Put together: once a message has been published to a subscriber, it shows the last frame iff
   every row was current at the join or carried since.
   */
  lemma {:induction false} InSyncIff(run: seq<State>, steps: seq<Step>, j: nat, k: nat, p: nat, id: Id)
    requires IsRun(run, steps) && j < p < k < |run| && steps[j] == Join(id) && id in run[k].channels
    requires Publishes(run[p], steps[p])
    ensures Follows(run[k], id) && Follows(run[j + 1], id)
    ensures Shown(run[k], id) <==>
            forall r: nat | r < run[k].prev.value.rows :: Served(run, steps, j, k, id, r)
  {
    hide After, Inv, Enabled, RowCurrent, Carries, Shown, HeaderCurrent, Served;
    HeaderAfter(run, steps, j, k, p, id);
    FollowsSince(run, steps, j, k, id);
    PrevPresent(run[k], id);
    ShownIsAllRows(run[k], id);
    forall r: nat | r < run[k].prev.value.rows
      ensures RowCurrent(run[k], id, r) <==> Served(run, steps, j, k, id, r)
    {
      RowLaw(run, steps, j, k, id, r);
    }
  }

  lemma {:induction false} HeaderAfter(run: seq<State>, steps: seq<Step>, j: nat, k: nat, p: nat, id: Id)
    requires IsRun(run, steps) && j < p < k < |run| && steps[j] == Join(id) && id in run[k].channels
    requires Publishes(run[p], steps[p])
    ensures Follows(run[k], id) && HeaderCurrent(run[k], id)
    decreases k
  {
    hide After, Inv, Enabled, HeaderCurrent;
    StillJoined(run, steps, j, k, id);
    if k > p + 1 { HeaderAfter(run, steps, j, k - 1, p, id); }
    HeaderKept(run[k - 1], steps[k - 1], id);
  }

  // ----- exactly when a join is safe ------------------------------------------------------

  /** The steps, taken in order from `s`, end in `last`. */
  ghost predicate Leads(s: State, steps: seq<Step>, last: State)
    decreases |steps|
  {
    if steps == [] then s == last
    else Enabled(s, steps[0]) && Leads(After(s, steps[0]), steps[1..], last)
  }

  lemma LeadsStep(s: State, step: Step, next: State, rest: seq<Step>, last: State)
    requires Enabled(s, step) && next == After(s, step) && Leads(next, rest, last)
    ensures Leads(s, [step] + rest, last)
  {
  }

  lemma LeadsHead(s: State, steps: seq<Step>, last: State)
    requires Leads(s, steps, last)
    ensures if steps == [] then s == last
            else Enabled(s, steps[0]) && Leads(After(s, steps[0]), steps[1..], last)
  {
  }

  lemma Arrived(s: State)
    ensures Leads(s, [], s)
  {
  }

  /** The emitter has caught up with the grid. */
  predicate AtRest(s: State) { !s.dirty && s.inFlight.None? }

  /**
   In every continuation, a subscriber still attached shows the last frame whenever the emitter
   rests; the last frame is then the grid (`CleanMeansCurrent`).
   */
  ghost predicate NeverStale(s: State, id: Id) {
    forall steps, last | Leads(s, steps, last) && AtRest(last) && id in last.channels ::
      Follows(last, id) && Shown(last, id)
  }

  /** Who has left does not come back. */
  lemma {:induction false} StaysOut(s: State, steps: seq<Step>, last: State, id: Id)
    requires Leads(s, steps, last) && id in s.received && id !in s.joining && id !in s.channels
    ensures id !in last.channels
    decreases |steps|
  {
    hide After, Enabled, Leads;
    LeadsHead(s, steps, last);
    if steps != [] {
      MembershipStep(s, steps[0], id);
      StaysOut(After(s, steps[0]), steps[1..], last, id);
    }
  }

  lemma {:induction false} InStepLeads(s: State, steps: seq<Step>, last: State, id: Id)
    requires Leads(s, steps, last) && Follows(s, id) && InStep(s, id) && id in last.channels
    ensures Follows(last, id) && InStep(last, id)
    decreases |steps|
  {
    LeadsHead(s, steps, last);
    hide After, Enabled, Leads, InStep, Inv;
    if steps != [] {
      Attached(s, id);
      MembershipStep(s, steps[0], id);
      var t := After(s, steps[0]);
      if id !in t.channels { StaysOut(t, steps[1..], last, id); }
      InStepKept(s, steps[0], id);
      InStepLeads(t, steps[1..], last, id);
    }
  }

  lemma Attached(s: State, id: Id)
    requires Follows(s, id)
    ensures id in s.received && id !in s.joining && s.prev.Some? && Presentable(s.prev.value)
  {
  }

  /** An idle emitter that finds the last frame again sends nothing. */
  lemma BackToLast(s: State, p: WireFrame)
    requires Presentable(p) && s.inFlight.None? && s.prev == Some(p) && s.channels != []
    ensures Leads(s, [Mutate(p)] + ([EmitCapture] + ([EmitSend({})] + [])), s.(dirty := false, grid := p))
  {
    DiffersFromIsInequality(p, p);
    BothComparable(p, p);
    hide Presentable, Encoded, Comparable, DiffersFrom, Leads, Retain, Deliver;
    var last := s.(dirty := false, grid := p);
    var s1 := s.(dirty := true, grid := p);
    var s2 := last.(inFlight := Some(p));
    Arrived(last);
    LeadsStep(s2, EmitSend({}), last, [], last);
    LeadsStep(s1, EmitCapture, s2, [EmitSend({})] + [], last);
    LeadsStep(s, Mutate(p), s1, [EmitCapture] + ([EmitSend({})] + []), last);
  }

  /** So a subscriber that is out of step can stay so. */
  lemma StaleRun(s: State, id: Id) returns (last: State)
    requires Follows(s, id) && s.inFlight.None? && !Shown(s, id)
    ensures Leads(s, [Mutate(s.prev.value)] + ([EmitCapture] + ([EmitSend({})] + [])), last)
    ensures AtRest(last) && Follows(last, id) && !Shown(last, id)
  {
    hide Presentable, Leads, View, Replay;
    Attached(s, id);
    BackToLast(s, s.prev.value);
    last := s.(dirty := false, grid := s.prev.value);
  }

  /** With a frame pending it is sent first, and every send succeeds. */
  lemma StalePending(s: State, id: Id) returns (steps: seq<Step>, last: State)
    requires Follows(s, id) && !InStep(s, id)
    ensures Leads(s, steps, last) && AtRest(last) && Follows(last, id) && !Shown(last, id)
  {
    hide InStep, Leads, Shown, Encoded, DiffersFrom, Deliver;
    if s.inFlight.None? {
      IdleInStep(s, id);
      last := StaleRun(s, id);
      steps := [Mutate(s.prev.value)] + ([EmitCapture] + ([EmitSend({})] + []));
    } else {
      var send := EmitSend(set c | c in s.channels);
      BothComparable(s.inFlight.value, s.prev.value);
      var t := After(s, send);
      SentIff(s, send.accept, id);
      last := StaleRun(t, id);
      var rest := [Mutate(t.prev.value)] + ([EmitCapture] + ([EmitSend({})] + []));
      steps := [send] + rest;
      LeadsStep(s, send, t, rest, last);
    }
  }

  lemma IdleInStep(s: State, id: Id)
    requires Follows(s, id) && s.inFlight.None?
    ensures InStep(s, id) <==> Shown(s, id)
  {
  }

  /** The exact condition, in any state: a subscriber is safe from now on iff it is in step. */
  lemma NeverStaleIff(s: State, id: Id)
    requires Follows(s, id)
    ensures NeverStale(s, id) <==> InStep(s, id)
  {
    hide InStep, Leads, Shown, Inv;
    if InStep(s, id) {
      forall steps, last | Leads(s, steps, last) && AtRest(last) && id in last.channels
        ensures Follows(last, id) && Shown(last, id)
      {
        InStepLeads(s, steps, last, id);
        IdleInStep(last, id);
      }
    } else {
      var steps, last := StalePending(s, id);
    }
  }

  /**
   A join is safe in every continuation iff there is no last frame, or the baseline looks like the
   last frame, or, with a frame pending, every row is carried by that frame or equal to it.
   */
  lemma JoinSafeIff(s: State, id: Id)
    requires Inv(s) && Enabled(s, Join(id))
    ensures NeverStale(After(s, Join(id)), id) <==> JoinFits(s, id)
  {
    hide InStep, Inv, NeverStale, JoinFits, After;
    JoinIsInStep(s, id);
    NeverStaleIff(After(s, Join(id)), id);
  }

  /** The state after a subscription that nothing interrupts. */
  ghost function Subscribed(s: State, id: Id): State
    requires Inv(s) && id !in s.received
  {
    After(After(s, SubscribeSend(id)), Join(id))
  }

  /** What an uninterrupted subscription needs of the session it finds; a clean grid is enough. */
  ghost predicate SubscribeFits(s: State)
    requires Inv(s)
  {
    s.prev.Some? ==>
      if s.inFlight.None? then View(s.grid) == View(s.prev.value)
      else ScreenFits(View(s.grid), s.inFlight.value, s.prev.value)
  }

  lemma FitsAlike(s: State, t: State, id: Id)
    requires Inv(s) && Inv(t) && id in t.joining && t.joining[id] == s.grid
    requires t.prev == s.prev && t.inFlight == s.inFlight
    ensures JoinFits(t, id) <==> SubscribeFits(s)
  {
    hide ScreenFits, View, Presentable;
  }

  lemma CleanFits(s: State)
    requires Inv(s) && !s.dirty
    ensures SubscribeFits(s)
  {
    hide ScreenFits, View, Presentable;
    if s.inFlight.Some? { ShownFits(s.inFlight.value, s.prev.value); }
  }

  lemma CanSubscribe(s: State, id: Id)
    requires Inv(s) && id !in s.received
    ensures Enabled(s, SubscribeSend(id)) && Enabled(After(s, SubscribeSend(id)), Join(id))
  {
    hide Presentable, Encoded;
  }

  lemma SubscribeSafeIff(s: State, id: Id)
    requires Inv(s) && id !in s.received
    ensures NeverStale(Subscribed(s, id), id) <==> SubscribeFits(s)
    ensures !s.dirty ==> SubscribeFits(s)
  {
    hide NeverStale, Inv, After, Enabled, JoinFits, SubscribeFits;
    CanSubscribe(s, id);
    var t := After(s, SubscribeSend(id));
    InvKept(s, SubscribeSend(id));
    SentBaseline(s, id);
    JoinSafeIff(t, id);
    FitsAlike(s, t, id);
    if !s.dirty { CleanFits(s); }
  }

  // ----- joins that are not clean ----------------------------------------------------

  /** A one-cell frame showing the character `ch`. */
  function OneCell(ch: u32): WireFrame {
    WireFrame(1, 1, 0, 0, 0,
      Modes(false, true, false, false, false, false, false, false, false, false, false, false),
      [[WireCell(ch, 0, [0, 0, 0, 0], 0xD0D0D0FF, 0x1D2022FF, 0)]])
  }

  lemma OneCellsDiffer(a: u32, b: u32)
    requires 0 < a <= MAX_CODEPOINT && 0 < b <= MAX_CODEPOINT && a != b
    ensures Presentable(OneCell(a)) && Presentable(OneCell(b)) && View(OneCell(a)) != View(OneCell(b))
  {
    assert View(OneCell(a)).cells[0][0].text[0] == a;
    assert View(OneCell(b)).cells[0][0].text[0] == b;
  }

  lemma {:induction false} LeadsExtendsRun(run: seq<State>, before: seq<Step>, s: State, steps: seq<Step>, last: State)
    returns (whole: seq<State>)
    requires IsRun(run + [s], before) && Leads(s, steps, last)
    ensures IsRun(whole + [last], before + steps)
    decreases |steps|
  {
    hide After, Enabled, IsRun, Leads;
    LeadsHead(s, steps, last);
    if steps == [] {
      assert before + steps == before;
      whole := run;
    } else {
      RunSnoc(run, s, before, steps[0]);
      whole := LeadsExtendsRun(run + [s], before + [steps[0]], After(s, steps[0]), steps[1..], last);
      assert before + [steps[0]] + steps[1..] == before + steps;
    }
  }

  lemma RunSnoc(run: seq<State>, s: State, steps: seq<Step>, step: Step)
    requires IsRun(run + [s], steps) && Enabled(s, step)
    ensures IsRun(run + [s] + [After(s, step)], steps + [step])
  {
    hide After, Enabled, Init;
    var q, t := run + [s], steps + [step];
    var r := q + [After(s, step)];
    forall i {:trigger t[i]} | 0 <= i < |t| ensures Enabled(r[i], t[i]) && r[i + 1] == After(r[i], t[i]) {
      assert r[i] == q[i];
      if i < |steps| { assert t[i] == steps[i] && r[i + 1] == q[i + 1]; }
    }
  }

  /** A fresh session whose grid shows `a`. */
  function Fresh(a: WireFrame): State { State(true, a, None, None, [], map[], map[]) }

  /** The second subscriber joins while the grid shows `b`, which then turns back into `a`. */
  const DIRTY_JOIN: seq<Step> :=
    [SubscribeSend(0)] + ([Join(0)] + ([Mutate(OneCell(66))] + ([SubscribeSend(1)] + ([Join(1)]
    + ([Mutate(OneCell(65))] + ([EmitCapture] + ([EmitSend({0, 1})] + [])))))))

  /** The second subscriber's baseline is sent from a clean, idle grid; a frame passes before it joins. */
  const LATE_JOIN: seq<Step> :=
    [SubscribeSend(0)] + ([Join(0)] + ([EmitCapture] + ([EmitSend({0})] + ([SubscribeSend(1)]
    + ([Mutate(OneCell(66))] + ([EmitCapture] + ([EmitSend({0})] + ([Join(1)] + []))))))))

  /** A session with one subscriber, in step, whose grid shows `a`. */
  ghost function OneShown(a: WireFrame): State
    requires Comparable(a, None)
  {
    State(true, a, None, Some(a), [0], map[], map[0 := [Encoded(a, None)]])
  }

  lemma FirstJoin(a: WireFrame, rest: seq<Step>, last: State)
    requires Presentable(a) && Comparable(a, None) && Leads(OneShown(a), rest, last)
    ensures Leads(Fresh(a), [SubscribeSend(0)] + ([Join(0)] + rest), last)
  {
    hide Presentable, Encoded, Comparable, Leads;
    var s1 := State(true, a, None, None, [], map[0 := a], map[0 := [Encoded(a, None)]]);
    LeadsStep(s1, Join(0), OneShown(a), rest, last);
    LeadsStep(Fresh(a), SubscribeSend(0), s1, [Join(0)] + rest, last);
  }

  /** The grid changes, a second baseline shows the change, the channel joins, and the grid turns back. */
  lemma DirtyTail(s: State, a: WireFrame, b: WireFrame) returns (last: State)
    requires Presentable(a) && Presentable(b) && Comparable(a, Some(a))
    requires s.dirty && s.grid == a && s.inFlight.None? && s.prev == Some(a) && 1 !in s.received
    ensures !last.dirty && last.inFlight.None? && last.grid == a && last.prev == Some(a)
    ensures 1 in last.channels && 1 in last.received && last.received[1] == [Encoded(b, None)]
    ensures Leads(s, [Mutate(b)] + ([SubscribeSend(1)] + ([Join(1)]
                     + ([Mutate(a)] + ([EmitCapture] + ([EmitSend({0, 1})] + []))))), last)
  {
    DiffersFromIsInequality(a, a);
    hide Presentable, Encoded, Comparable, DiffersFrom, OneCell, Leads, Retain, Deliver;
    var s3 := After(s, Mutate(b));
    var s4 := After(s3, SubscribeSend(1));
    var s5 := After(s4, Join(1));
    var s6 := After(s5, Mutate(a));
    var s7 := After(s6, EmitCapture);
    last := After(s7, EmitSend({0, 1}));
    Arrived(last);
    LeadsStep(s7, EmitSend({0, 1}), last, [], last);
    LeadsStep(s6, EmitCapture, s7, [EmitSend({0, 1})] + [], last);
    var t5 := [Mutate(a)] + ([EmitCapture] + ([EmitSend({0, 1})] + []));
    LeadsStep(s5, Mutate(a), s6, [EmitCapture] + ([EmitSend({0, 1})] + []), last);
    LeadsStep(s4, Join(1), s5, t5, last);
    LeadsStep(s3, SubscribeSend(1), s4, [Join(1)] + t5, last);
    LeadsStep(s, Mutate(b), s3, [SubscribeSend(1)] + ([Join(1)] + t5), last);
  }

  lemma DirtyJoinLeads(a: WireFrame, b: WireFrame) returns (last: State)
    requires a == OneCell(65) && b == OneCell(66) && Presentable(a) && Presentable(b)
    ensures !last.dirty && last.inFlight.None? && last.grid == a && last.prev == Some(a)
    ensures 1 in last.channels && 1 in last.received && last.received[1] == [Encoded(b, None)]
    ensures Leads(Fresh(a), DIRTY_JOIN, last)
  {
    BothComparable(a, a);
    hide Presentable, Encoded, Comparable, OneCell, Leads;
    last := DirtyTail(OneShown(a), a, b);
    FirstJoin(a, [Mutate(b)] + ([SubscribeSend(1)] + ([Join(1)]
                 + ([Mutate(a)] + ([EmitCapture] + ([EmitSend({0, 1})] + []))))), last);
  }

  /** From a clean grid: the baseline goes out, a frame passes, and only then the channel joins. */
  lemma LateTail(s: State, a: WireFrame, b: WireFrame) returns (last: State)
    requires Presentable(a) && Presentable(b) && Comparable(a, None) && Comparable(b, Some(a)) && a != b
    requires s == OneShown(a).(dirty := false)
    ensures !last.dirty && last.inFlight.None? && last.grid == b && last.prev == Some(b)
    ensures 1 in last.channels && 1 in last.received && last.received[1] == [Encoded(a, None)]
    ensures Leads(s, [SubscribeSend(1)] + ([Mutate(b)] + ([EmitCapture] + ([EmitSend({0})] + ([Join(1)] + [])))), last)
  {
    DiffersFromIsInequality(b, a);
    hide Presentable, Encoded, Comparable, DiffersFrom, OneCell, Leads, Retain, Deliver;
    var s5 := After(s, SubscribeSend(1));
    var s6 := After(s5, Mutate(b));
    var s7 := After(s6, EmitCapture);
    var s8 := After(s7, EmitSend({0}));
    Untouched(s7, Encoded(b, Some(a)), {0}, 1);
    last := After(s8, Join(1));
    Arrived(last);
    LeadsStep(s8, Join(1), last, [], last);
    LeadsStep(s7, EmitSend({0}), s8, [Join(1)] + [], last);
    var t6 := [EmitCapture] + ([EmitSend({0})] + ([Join(1)] + []));
    LeadsStep(s6, EmitCapture, s7, [EmitSend({0})] + ([Join(1)] + []), last);
    LeadsStep(s5, Mutate(b), s6, t6, last);
    LeadsStep(s, SubscribeSend(1), s5, [Mutate(b)] + t6, last);
  }

  lemma Untouched(s: State, msg: Message, accept: set<Id>, id: Id)
    requires id in s.received && id !in s.channels
    ensures var d := Deliver(s.channels, s.received, msg, accept); id in d && d[id] == s.received[id]
  {
  }

  lemma LateJoinLeads(a: WireFrame, b: WireFrame) returns (last: State)
    requires a == OneCell(65) && b == OneCell(66) && Presentable(a) && Presentable(b) && a != b
    requires Comparable(a, None) && Comparable(b, Some(a))
    ensures !last.dirty && last.inFlight.None? && last.grid == b && last.prev == Some(b)
    ensures 1 in last.channels && 1 in last.received && last.received[1] == [Encoded(a, None)]
    ensures Leads(Fresh(a), LATE_JOIN, last)
  {
    BothComparable(a, a);
    DiffersFromIsInequality(a, a);
    hide Presentable, Encoded, Comparable, DiffersFrom, OneCell, Leads;
    var s2 := OneShown(a);
    var s3 := s2.(dirty := false, inFlight := Some(a));
    var s4 := s2.(dirty := false);
    last := LateTail(s4, a, b);
    var t4 := [SubscribeSend(1)] + ([Mutate(b)] + ([EmitCapture] + ([EmitSend({0})] + ([Join(1)] + []))));
    LeadsStep(s3, EmitSend({0}), s4, t4, last);
    LeadsStep(s2, EmitCapture, s3, [EmitSend({0})] + t4, last);
    FirstJoin(a, [EmitCapture] + ([EmitSend({0})] + t4), last);
  }

  lemma BothComparable(f: WireFrame, p: WireFrame)
    requires Presentable(f) && Presentable(p)
    ensures Comparable(f, Some(p)) && Comparable(f, None)
  {
  }

  lemma NotShown(s: State, id: Id, shown: WireFrame, sent: WireFrame)
    requires Follows(s, id) && s.prev == Some(sent) && Presentable(shown) && Presentable(sent)
    requires s.received[id] == [Encoded(shown, None)] && View(shown) != View(sent)
    ensures !Shown(s, id)
  {
    BaselineShows(shown);
  }

  /**
   The comment beside `subscribe_diffs` says that overlap with the emitter is always safe. It is
   not: a subscriber that joins a dirty grid keeps its baseline when the grid goes back to the
   last frame, because the next frame is then not worth sending. The run ends clean and idle with
   the second subscriber showing another screen.
   */
  lemma DirtyJoinStaysStale() returns (run: seq<State>, last: State)
    ensures IsRun(run, DIRTY_JOIN) && run[|DIRTY_JOIN|] == last
    ensures !last.dirty && last.inFlight.None? && last.prev == Some(last.grid)
    ensures Follows(last, 1) && !Shown(last, 1)
  {
    var a, b := OneCell(65), OneCell(66);
    OneCellsDiffer(65, 66);
    BothComparable(a, b);
    BothComparable(b, a);
    last := DirtyJoinLeads(a, b);
    run := RunFrom(a, DIRTY_JOIN, last);
    hide Presentable, Encoded, View, OneCell, Inv, Shown, DIRTY_JOIN;
    NotShown(last, 1, b, a);
  }

  lemma RunFrom(a: WireFrame, steps: seq<Step>, last: State) returns (run: seq<State>)
    requires Presentable(a) && Leads(Fresh(a), steps, last)
    ensures IsRun(run, steps) && run[|steps|] == last && Inv(last)
  {
    assert [] + [Fresh(a)] == [Fresh(a)];
    var before := LeadsExtendsRun([], [], Fresh(a), steps, last);
    assert [] + steps == steps;
    run := before + [last];
    InvAlways(run, steps, |steps|);
  }

  /**
   Nor is a clean grid enough on its own: with the baseline sent from a clean, idle grid, a frame
   published before the join is missed, and the run again ends clean with a stale subscriber.
   */
  lemma LateJoinStaysStale() returns (run: seq<State>, last: State)
    ensures IsRun(run, LATE_JOIN) && run[|LATE_JOIN|] == last
    ensures !last.dirty && last.inFlight.None? && last.prev == Some(last.grid)
    ensures Follows(last, 1) && !Shown(last, 1)
  {
    var a, b := OneCell(65), OneCell(66);
    OneCellsDiffer(65, 66);
    BothComparable(b, a);
    BothComparable(a, b);
    last := LateJoinLeads(a, b);
    run := RunFrom(a, LATE_JOIN, last);
    hide Presentable, Encoded, View, OneCell, Inv, Shown, LATE_JOIN;
    NotShown(last, 1, a, b);
  }

  // ----- the session object ------------------------------------------------------------

  const SYNC_OUTPUT_MAX_HOLD := 120

  /** A dirty grid is published unless a synchronized block opened less than the maximal hold ago. */
  predicate ShouldPublishFrame(dirty: bool, syncOutputSince: Option<int>, now: int) {
    if !dirty then false
    else match syncOutputSince
      case Some(since) => now - since >= SYNC_OUTPUT_MAX_HOLD
      case None => true
  }

  /**
   The grid and emit state of one session. Each method is one region the source runs under a lock;
   its contract is the step of the protocol above that it performs.
   */
  class Session {
    var dirty: bool
    var revision: nat
    var syncOutputSince: Option<int>
    var grid: WireFrame
    var prev: Option<WireFrame>
    var channels: seq<Id>
    ghost var inFlight: Option<WireFrame>
    ghost var joining: map<Id, WireFrame>
    ghost var received: map<Id, seq<Message>>

    ghost function Abs(): State
      reads this
    {
      State(dirty, grid, inFlight, prev, channels, joining, received)
    }

    constructor (initial: WireFrame)
      requires Presentable(initial)
      ensures Init(Abs()) && grid == initial && revision == 1
    {
      dirty, revision, syncOutputSince := true, 1, None;
      grid, prev, channels := initial, None, [];
      inFlight, joining, received := None, map[], map[];
    }

    /** Feeding, scrolling and resetting always end like this, resizing when it changes something. */
    method Changed(after: WireFrame, since: Option<int>)
      requires Presentable(after)
      modifies this
      ensures Enabled(old(Abs()), Mutate(after)) && Abs() == After(old(Abs()), Mutate(after))
      ensures revision == (old(revision) + 1) % 0x1_0000_0000_0000_0000 && syncOutputSince == since && grid == after
    {
      grid := after;
      dirty := true;
      revision := (revision + 1) % 0x1_0000_0000_0000_0000;
      syncOutputSince := since;
    }

    /** A resize to the size the grid has is no change at all; any other brings the reflowed grid. */
    method Resize(cols: u16, rows: u16, reflowed: WireFrame)
      requires Presentable(reflowed) && reflowed.cols == cols && reflowed.rows == rows
      modifies this
      ensures grid.cols == cols && grid.rows == rows && syncOutputSince == old(syncOutputSince)
      ensures old(grid.cols) == cols && old(grid.rows) == rows ==>
                Abs() == old(Abs()) && revision == old(revision)
      ensures old(grid.cols) != cols || old(grid.rows) != rows ==>
                Abs() == After(old(Abs()), Mutate(reflowed))
                && revision == (old(revision) + 1) % 0x1_0000_0000_0000_0000
    {
      if grid.cols == cols && grid.rows == rows {
        return;
      }
      Changed(reflowed, syncOutputSince);
    }

    /** Scrolling to the bottom does nothing when the view is there already. */
    method ScrollToBottom(bottom: WireFrame)
      requires Presentable(bottom) && bottom.displayOffset == 0
      modifies this
      ensures grid.displayOffset == 0 && syncOutputSince == old(syncOutputSince)
      ensures old(grid.displayOffset) == 0 ==> Abs() == old(Abs()) && revision == old(revision)
      ensures old(grid.displayOffset) != 0 ==>
                Abs() == After(old(Abs()), Mutate(bottom)) && revision == (old(revision) + 1) % 0x1_0000_0000_0000_0000
    {
      if grid.displayOffset == 0 {
        return;
      }
      Changed(bottom, syncOutputSince);
    }

    /** First half of a subscription: capture and send a full baseline. A refused send ends it. */
    method SendBaseline(id: Id, accepted: bool) returns (frame: Option<WireFrame>)
      requires Inv(Abs()) && id !in received
      modifies this`received, this`joining
      ensures Enabled(old(Abs()), SubscribeSend(id))
      ensures accepted ==> frame == Some(old(grid)) && Abs() == After(old(Abs()), SubscribeSend(id))
      ensures !accepted ==> frame.None? && Abs() == old(Abs())
    {
      var captured := grid;
      var bytes := EncodeFrame(captured, None);
      if accepted {
        received := received[id := [bytes]];
        joining := joining[id := captured];
        frame := Some(captured);
      } else {
        frame := None;
      }
    }

    /** Second half: the channel joins, and a session without a last frame takes the baseline. */
    method JoinChannel(id: Id, frame: WireFrame)
      requires Inv(Abs()) && id in joining && joining[id] == frame
      modifies this`channels, this`prev, this`joining
      ensures Enabled(old(Abs()), Join(id)) && Abs() == After(old(Abs()), Join(id))
    {
      hide Inv;
      channels := channels + [id];
      if prev.None? {
        prev := Some(frame);
      }
      joining := joining - {id};
    }

    /**
     First half of an emission: nothing to do, or capture a frame and clear the flag. A dirty grid
     with a channel is captured at every attempt outside a synchronized block and, however long the
     block stays open, from 120 milliseconds after its opening on; a clean grid never is.
     */
    method CaptureForEmit(now: int) returns (frame: Option<WireFrame>)
      requires Inv(Abs()) && inFlight.None?
      modifies this`dirty, this`inFlight
      ensures frame.Some? <==>
                old(channels) != [] && old(dirty)
                && (old(syncOutputSince).None? || now >= old(syncOutputSince).value + 120)
      ensures frame.None? ==> Abs() == old(Abs())
      ensures frame.Some? ==>
                Enabled(old(Abs()), EmitCapture) && Abs() == After(old(Abs()), EmitCapture) && frame == inFlight
    {
      if channels == [] || !ShouldPublishFrame(dirty, syncOutputSince, now) {
        return None;
      }
      dirty := false;
      frame := Some(grid);
      inFlight := frame;
    }

    /** Second half: send the frame to every channel, keeping those that accept it. */
    method PublishFrame(frame: WireFrame, accept: set<Id>)
      requires Inv(Abs()) && inFlight == Some(frame)
      modifies this`inFlight, this`channels, this`received, this`prev
      ensures Enabled(old(Abs()), EmitSend(accept)) && Abs() == After(old(Abs()), EmitSend(accept))
    {
      assert Comparable(frame, prev);
      SendMeans(Abs(), frame, accept);
      hide Inv, Presentable, Comparable, Encoded, DiffersFrom, Retain, Deliver, After, Enabled;
      DistinctChannels(Abs());
      inFlight := None;
      if !DiffersFrom(frame, prev) {
        return;
      }
      var bytes := EncodeFrame(frame, prev);
      SendAll(bytes, accept);
      prev := Some(frame);
    }

    method SendAll(bytes: Message, accept: set<Id>)
      requires forall id | id in channels :: id in received
      requires forall i, j | 0 <= i < j < |channels| :: channels[i] != channels[j]
      modifies this`channels, this`received
      ensures channels == Retain(old(channels), accept)
      ensures received == Deliver(old(channels), old(received), bytes, accept)
    {
      var all := channels;
      var kept: seq<Id> := [];
      NobodySent(received, bytes, accept);
      assert all[..0] == [];
      assert all[0..] == all && [] + Retain(all, accept) == Retain(all, accept);
      hide Retain, Deliver;
      for k := 0 to |all|
        invariant channels == all == old(channels)
        invariant kept + Retain(all[k..], accept) == Retain(all, accept)
        invariant received == Deliver(all[..k], old(received), bytes, accept)
      {
        var id := all[k];
        RetainStep(all, k, accept, kept);
        DeliverStep(all, old(received), k, bytes, accept);
        if id in accept {
          received := received[id := received[id] + [bytes]];
          kept := kept + [id];
        }
      }
      assert all[|all|..] == [] && all[..|all|] == all;
      NobodyKept(accept);
      channels := kept;
    }
  }

  lemma SendMeans(s: State, frame: WireFrame, accept: set<Id>)
    requires Inv(s) && s.inFlight == Some(frame)
    ensures Enabled(s, EmitSend(accept))
    ensures After(s, EmitSend(accept)) ==
              if DiffersFrom(frame, s.prev) then
                State(s.dirty, s.grid, None, Some(frame), Retain(s.channels, accept), s.joining,
                      Deliver(s.channels, s.received, Encoded(frame, s.prev), accept))
              else State(s.dirty, s.grid, None, s.prev, s.channels, s.joining, s.received)
  {
  }

  lemma DistinctChannels(s: State)
    requires Inv(s)
    ensures forall id | id in s.channels :: id in s.received
    ensures forall i, j | 0 <= i < j < |s.channels| :: s.channels[i] != s.channels[j]
  {
  }

  lemma NobodySent(received: map<Id, seq<Message>>, bytes: Message, accept: set<Id>)
    ensures Deliver([], received, bytes, accept) == received
  {
  }

  lemma NobodyKept(accept: set<Id>)
    ensures Retain([], accept) == []
  {
  }

  lemma RetainStep(all: seq<Id>, k: nat, accept: set<Id>, kept: seq<Id>)
    requires k < |all| && kept + Retain(all[k..], accept) == Retain(all, accept)
    ensures (if all[k] in accept then kept + [all[k]] else kept) + Retain(all[k + 1..], accept) == Retain(all, accept)
  {
    assert all[k..][0] == all[k] && all[k..][1..] == all[k + 1..];
    if all[k] in accept {
      assert kept + ([all[k]] + Retain(all[k + 1..], accept)) == (kept + [all[k]]) + Retain(all[k + 1..], accept);
    } else {
      assert [] + Retain(all[k + 1..], accept) == Retain(all[k + 1..], accept);
    }
  }

  lemma DeliverStep(all: seq<Id>, received: map<Id, seq<Message>>, k: nat, bytes: Message, accept: set<Id>)
    requires k < |all| && all[k] in received && forall i, j | 0 <= i < j < |all| :: all[i] != all[j]
    ensures var d, id := Deliver(all[..k], received, bytes, accept), all[k];
            id in d && Deliver(all[..k + 1], received, bytes, accept)
                    == if id in accept then d[id := d[id] + [bytes]] else d
  {
  }
}
