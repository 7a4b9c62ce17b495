/**
 The session map of the grid manager (`upsert_session`, `attach_with_clipboard`, `detach`, `resize`
 of `src-tauri/src/vt_grid.rs`). An attach inserts or updates a session under the map's lock and
 then, without the lock, starts the feed of a new one; a failed start detaches again. Any number of
 callers interleave between those two parts.
 */
module GridSessions {
  import opened Common

  type SessionId = string
  type Token = string
  type Serial = nat

  /** A session object. `serial` tells objects apart; `fed` is whether its reader has been started. */
  datatype Session = Session(serial: Serial, cols: nat, rows: nat, token: Option<Token>, fed: bool)

  /** An attach that has created a session and has not yet started its feed. */
  datatype Starting = Starting(id: SessionId, serial: Serial, token: Option<Token>)

  datatype State = State(
    sessions: map<SessionId, Session>, next: Serial, stopped: set<Serial>, starting: map<Serial, Starting>)

  datatype Step =
    | Upsert(id: SessionId, cols: nat, rows: nat, token: Option<Token>)
    | Started(serial: Serial)
    | StartFailed(serial: Serial)
    | Detach(id: SessionId, token: Option<Token>)
    | Resize(id: SessionId, cols: nat, rows: nat)

  const EMPTY: State := State(map[], 0, {}, map[])

  predicate Enabled(s: State, step: Step) {
    match step
    case Started(serial) => serial in s.starting
    case StartFailed(serial) => serial in s.starting
    case _ => true
  }

  /** Does a detach with `given` apply to a session whose latest attach carried `current`? */
  predicate Applies(given: Option<Token>, current: Option<Token>) {
    given.None? || given == current
  }

  function Detached(s: State, id: SessionId, token: Option<Token>): State {
    if id in s.sessions && Applies(token, s.sessions[id].token) then
      s.(sessions := s.sessions - {id}, stopped := s.stopped + {s.sessions[id].serial})
    else s
  }

  function Upserted(s: State, id: SessionId, cols: nat, rows: nat, token: Option<Token>): State {
    if id in s.sessions then
      s.(sessions := s.sessions[id := s.sessions[id].(cols := cols, rows := rows, token := token)])
    else
      State(s.sessions[id := Session(s.next, cols, rows, token, false)], s.next + 1, s.stopped,
            s.starting[s.next := Starting(id, s.next, token)])
  }

  function After(s: State, step: Step): State
    requires Enabled(s, step)
  {
    match step
    case Upsert(id, cols, rows, token) => Upserted(s, id, cols, rows, token)
    case Started(serial) =>
      var id := s.starting[serial].id;
      s.(starting := s.starting - {serial},
         sessions := if id in s.sessions && s.sessions[id].serial == serial
                     then s.sessions[id := s.sessions[id].(fed := true)] else s.sessions)
    case StartFailed(serial) =>
      var a := s.starting[serial];
      Detached(s.(starting := s.starting - {serial}), a.id, a.token)
    case Detach(id, token) => Detached(s, id, token)
    case Resize(id, cols, rows) =>
      if id in s.sessions then s.(sessions := s.sessions[id := s.sessions[id].(cols := cols, rows := rows)]) else s
  }

  /** Serials are never reused, and each stands under one id. */
  ghost predicate Listed(s: State) {
    && (forall id | id in s.sessions :: s.sessions[id].serial < s.next && s.sessions[id].serial !in s.stopped)
    && (forall i, j | i in s.sessions && j in s.sessions && i != j :: s.sessions[i].serial != s.sessions[j].serial)
  }

  /** The map holds every session created and not stopped. */
  ghost predicate Complete(s: State) {
    && (forall n: nat | n < s.next && n !in s.stopped :: InMap(s, n))
    && (forall n | n in s.stopped :: n < s.next)
  }

  ghost predicate Pending(s: State) {
    && (forall n | n in s.starting :: n < s.next && s.starting[n].serial == n)
    && (forall id | id in s.sessions && s.sessions[id].serial in s.starting ::
          s.starting[s.sessions[id].serial].id == id)
  }

  ghost predicate Inv(s: State) { Listed(s) && Complete(s) && Pending(s) }

  ghost predicate InMap(s: State, n: Serial) { exists id :: id in s.sessions && s.sessions[id].serial == n }

  lemma InMapKept(s: State, t: State, n: Serial)
    requires InMap(s, n)
    requires forall id | id in s.sessions && s.sessions[id].serial == n ::
               id in t.sessions && t.sessions[id].serial == n
    ensures InMap(t, n)
  {
  }

  /** Changing sizes, tokens and feeds, or finishing a start, touches none of it. */
  lemma SameSerials(s: State, t: State)
    requires Inv(s) && t.next == s.next && t.stopped == s.stopped && t.sessions.Keys == s.sessions.Keys
    requires forall id | id in s.sessions :: t.sessions[id].serial == s.sessions[id].serial
    requires forall n | n in t.starting :: n in s.starting && t.starting[n] == s.starting[n]
    ensures Inv(t)
  {
  }

  lemma DetachKeepsInv(s: State, id: SessionId, token: Option<Token>)
    requires Inv(s)
    ensures Inv(Detached(s, id, token))
  {
    var t := Detached(s, id, token);
    forall n: nat | n < t.next && n !in t.stopped ensures InMap(t, n) { InMapKept(s, t, n); }
  }

  lemma NewKeepsInv(s: State, id: SessionId, cols: nat, rows: nat, token: Option<Token>)
    requires Inv(s) && id !in s.sessions
    ensures Inv(Upserted(s, id, cols, rows, token))
  {
    var t := Upserted(s, id, cols, rows, token);
    assert Listed(t) by { hide Complete; }
    assert Pending(t) by { hide Complete; }
    forall n: nat | n < t.next && n !in t.stopped ensures InMap(t, n) {
      if n < s.next { InMapKept(s, t, n); } else { assert t.sessions[id].serial == n; }
    }
  }

  lemma StepKeepsInv(s: State, step: Step)
    requires Inv(s) && Enabled(s, step)
    ensures Inv(After(s, step))
  {
    hide Inv, Upserted, Detached;
    match step {
      case Upsert(id, cols, rows, token) =>
        if id in s.sessions { RenewKeepsInv(s, id, cols, rows, token); } else { NewKeepsInv(s, id, cols, rows, token); }
      case Detach(id, token) => DetachKeepsInv(s, id, token);
      case StartFailed(serial) =>
        SameSerials(s, s.(starting := s.starting - {serial}));
        DetachKeepsInv(s.(starting := s.starting - {serial}), s.starting[serial].id, s.starting[serial].token);
      case Started(serial) => SameSerials(s, After(s, step));
      case Resize(id, cols, rows) => SameSerials(s, After(s, step));
    }
  }

  lemma RenewKeepsInv(s: State, id: SessionId, cols: nat, rows: nat, token: Option<Token>)
    requires Inv(s) && id in s.sessions
    ensures Inv(Upserted(s, id, cols, rows, token))
  {
    hide Inv;
    SameSerials(s, Upserted(s, id, cols, rows, token));
  }

  // ----- over whole runs ---------------------------------------------------------------------

  ghost predicate IsRun(run: seq<State>, steps: seq<Step>) {
    |run| == |steps| + 1 && run[0] == EMPTY
    && forall i {:trigger steps[i]} | 0 <= i < |steps| ::
         Enabled(run[i], steps[i]) && run[i + 1] == After(run[i], steps[i])
  }

  lemma {:induction false} InvAlways(run: seq<State>, steps: seq<Step>, k: nat)
    requires IsRun(run, steps) && k < |run|
    ensures Inv(run[k])
    decreases k
  {
    if k > 0 {
      InvAlways(run, steps, k - 1);
      StepKeepsInv(run[k - 1], steps[k - 1]);
    }
  }

  /** A session is in the map iff it has been created and its stop flag is unset. */
  lemma InMapIffNotStopped(run: seq<State>, steps: seq<Step>, k: nat, n: Serial)
    requires IsRun(run, steps) && k < |run| && n < run[k].next
    ensures InMap(run[k], n) <==> n !in run[k].stopped
  {
    InvAlways(run, steps, k);
  }

  /** A stopped session never comes back. */
  lemma {:induction false} StoppedForever(run: seq<State>, steps: seq<Step>, j: nat, k: nat, n: Serial)
    requires IsRun(run, steps) && j <= k < |run| && n in run[j].stopped
    ensures n in run[k].stopped && !InMap(run[k], n)
    decreases k
  {
    InvAlways(run, steps, k);
    if j < k {
      StoppedForever(run, steps, j, k - 1, n);
      StoppedKept(run[k - 1], steps[k - 1], n);
    }
    assert n < run[k].next;
  }

  lemma StoppedKept(s: State, step: Step, n: Serial)
    requires Enabled(s, step) && n in s.stopped
    ensures n in After(s, step).stopped
  {
  }

  /** The token of the latest attach of `id` among the first `k` steps. */
  function LatestToken(steps: seq<Step>, k: nat, id: SessionId): Option<Token>
    requires k <= |steps|
  {
    if k == 0 then None
    else if steps[k - 1].Upsert? && steps[k - 1].id == id then steps[k - 1].token
    else LatestToken(steps, k - 1, id)
  }

  /** The size the latest attach or resize of `id` asked for. */
  function LatestSize(steps: seq<Step>, k: nat, id: SessionId): (nat, nat)
    requires k <= |steps|
  {
    if k == 0 then (0, 0)
    else if (steps[k - 1].Upsert? || steps[k - 1].Resize?) && steps[k - 1].id == id then
      (steps[k - 1].cols, steps[k - 1].rows)
    else LatestSize(steps, k - 1, id)
  }

  /** An attached grid has the size and the token last asked for, whoever asked. */
  lemma {:induction false} SizeAndTokenAreLatest(run: seq<State>, steps: seq<Step>, k: nat, id: SessionId)
    requires IsRun(run, steps) && k < |run| && id in run[k].sessions
    ensures (run[k].sessions[id].cols, run[k].sessions[id].rows) == LatestSize(steps, k, id)
    ensures run[k].sessions[id].token == LatestToken(steps, k, id)
    decreases k
  {
    if k > 0 {
      var step := steps[k - 1];
      if !(step.Upsert? && step.id == id) { SizeAndTokenAreLatest(run, steps, k - 1, id); }
    }
  }

  /** A detach with a token removes the session iff that token came with the latest attach. */
  lemma TokenedDetach(run: seq<State>, steps: seq<Step>, k: nat, id: SessionId, token: Token)
    requires IsRun(run, steps) && k < |steps| && steps[k] == Detach(id, Some(token)) && id in run[k].sessions
    ensures id !in run[k + 1].sessions <==> LatestToken(steps, k, id) == Some(token)
    ensures forall other | other != id && other in run[k].sessions ::
              other in run[k + 1].sessions && run[k + 1].sessions[other] == run[k].sessions[other]
  {
    SizeAndTokenAreLatest(run, steps, k, id);
  }

  // ----- sessions without a feed -----------------------------------------------------------------

  /** Every session in the map has its feed, or its creator is about to start it. */
  ghost predicate NoneDead(s: State) {
    forall id | id in s.sessions :: s.sessions[id].fed || s.sessions[id].serial in s.starting
  }

  /** The failed start still finds its own attach to be the latest, or carries no token. */
  predicate CleansUp(s: State, step: Step) {
    step.StartFailed? && step.serial in s.starting ==>
      var a := s.starting[step.serial];
      a.id in s.sessions && s.sessions[a.id].serial == step.serial ==> Applies(a.token, s.sessions[a.id].token)
  }

  /** A step leaves no dead session behind exactly when a failing start can clean up after itself. */
  lemma DeadIffNoCleanup(s: State, step: Step)
    requires Inv(s) && Enabled(s, step) && NoneDead(s)
    requires forall n | n in s.starting && InMap(s, n) :: !FedSerial(s, n)
    ensures NoneDead(After(s, step)) <==> CleansUp(s, step)
  {
    if step.StartFailed? {
      var a := s.starting[step.serial];
      var t := After(s, step);
      if a.id in s.sessions && s.sessions[a.id].serial == step.serial {
        assert InMap(s, step.serial);
        assert !FedSerial(s, step.serial);
      }
    }
  }

  ghost predicate FedSerial(s: State, n: Serial) {
    exists id :: id in s.sessions && s.sessions[id].serial == n && s.sessions[id].fed
  }

  /** A session whose start is pending has no feed yet. */
  lemma {:induction false} PendingNotFed(run: seq<State>, steps: seq<Step>, k: nat)
    requires IsRun(run, steps) && k < |run|
    ensures forall n | n in run[k].starting :: !FedSerial(run[k], n)
    decreases k
  {
    if k > 0 {
      InvAlways(run, steps, k - 1);
      PendingNotFed(run, steps, k - 1);
      forall n | n in run[k].starting ensures !FedSerial(run[k], n) {
        PendingStep(run[k - 1], steps[k - 1], n);
      }
    }
  }

  lemma PendingStep(s: State, step: Step, n: Serial)
    requires Inv(s) && Enabled(s, step) && n in After(s, step).starting
    requires n in s.starting ==> !FedSerial(s, n)
    ensures !FedSerial(After(s, step), n)
  {
    var t := After(s, step);
    assert n in s.starting ==>
      forall id | id in t.sessions && t.sessions[id].serial == n && t.sessions[id].fed ::
        id in s.sessions && s.sessions[id].serial == n && s.sessions[id].fed;
  }

  lemma {:induction false} NoneDeadWhileCleaning(run: seq<State>, steps: seq<Step>, k: nat)
    requires IsRun(run, steps) && k < |run|
    requires forall i | 0 <= i < k :: CleansUp(run[i], steps[i])
    ensures NoneDead(run[k])
    decreases k
  {
    if k > 0 {
      NoneDeadWhileCleaning(run, steps, k - 1);
      InvAlways(run, steps, k - 1);
      PendingNotFed(run, steps, k - 1);
      DeadIffNoCleanup(run[k - 1], steps[k - 1]);
    }
  }

  /**
   The comment beside the cleanup says a failed start leaves no half-created session. When another
   attach has renewed the token in between, the cleanup does not apply: the session stays in the
   map without a feed, that other attach has already been told it succeeded, and later attaches
   find the session and do not start a feed either.
   */
  lemma RenewedTokenLeavesDeadSession()
    ensures var s1 := After(EMPTY, Upsert("pane", 80, 24, Some("a")));
            var s2 := After(s1, Upsert("pane", 100, 30, Some("b")));
            var s3 := After(s2, StartFailed(0));
            var s4 := After(s3, Upsert("pane", 100, 30, Some("c")));
            !NoneDead(s3) && !NoneDead(s4) && s4.starting == map[] && "pane" in s4.sessions
  {
  }

  /** In the map, without a feed, and nobody about to start one. */
  ghost predicate Dead(s: State, n: Serial) { InMap(s, n) && !FedSerial(s, n) && n !in s.starting }

  lemma DeadStep(s: State, step: Step, n: Serial)
    requires Inv(s) && Enabled(s, step) && Dead(s, n) && InMap(After(s, step), n)
    ensures Dead(After(s, step), n)
  {
    var t := After(s, step);
    assert n !in t.starting by { assert n < s.next; }
    forall id | id in t.sessions && t.sessions[id].serial == n ensures !t.sessions[id].fed {
      assert id in s.sessions && s.sessions[id].serial == n;
    }
  }

  /** A dead session stays dead as long as it is in the map: no later attach, failure or resize feeds it. */
  lemma {:induction false} DeadForGood(run: seq<State>, steps: seq<Step>, j: nat, k: nat, n: Serial)
    requires IsRun(run, steps) && j <= k < |run| && Dead(run[j], n) && InMap(run[k], n)
    ensures Dead(run[k], n)
    decreases k
  {
    hide Dead, After, Enabled, Inv, InMap;
    if j < k {
      InvAlways(run, steps, k - 1);
      WasInMap(run, steps, j, k, n);
      DeadForGood(run, steps, j, k - 1, n);
      DeadStep(run[k - 1], steps[k - 1], n);
    }
  }

  lemma WasInMap(run: seq<State>, steps: seq<Step>, j: nat, k: nat, n: Serial)
    requires IsRun(run, steps) && j < k < |run| && Dead(run[j], n) && InMap(run[k], n)
    ensures InMap(run[k - 1], n)
  {
    NextGrows(run, steps, j, k - 1);
    InvAlways(run, steps, j);
    assert n < run[j].next;
    InMapIffNotStopped(run, steps, k - 1, n);
    if n in run[k - 1].stopped { StoppedForever(run, steps, k - 1, k, n); }
  }

  lemma {:induction false} NextGrows(run: seq<State>, steps: seq<Step>, j: nat, k: nat)
    requires IsRun(run, steps) && j <= k < |run|
    ensures run[j].next <= run[k].next
    decreases k
  {
    if j < k {
      NextGrows(run, steps, j, k - 1);
      assert run[k] == After(run[k - 1], steps[k - 1]);
    }
  }

  // ----- sessions stopped by another attach's failure -----------------------------------------------

  ghost predicate OthersKept(s: State, t: State, serial: Serial) {
    forall id | id in s.sessions && s.sessions[id].serial != serial ::
      id in t.sessions && t.sessions[id] == s.sessions[id]
  }

  /** Another session has come to stand under the id, and the failing attach's token applies to it. */
  predicate Mistaken(s: State, serial: Serial)
    requires serial in s.starting
  {
    var a := s.starting[serial];
    a.id in s.sessions && s.sessions[a.id].serial != serial && Applies(a.token, s.sessions[a.id].token)
  }

  /** The cleanup goes by id and token, not by session: it spares every other one iff it is not mistaken. */
  lemma SparesOthersIff(s: State, serial: Serial)
    requires Enabled(s, StartFailed(serial))
    ensures OthersKept(s, After(s, StartFailed(serial)), serial) <==> !Mistaken(s, serial)
  {
    var a := s.starting[serial];
    if Mistaken(s, serial) { assert a.id !in After(s, StartFailed(serial)).sessions; }
  }

  /**
   An attach without a token whose start fails late removes the session of a later attach that was
   told it succeeded and is being fed.
   */
  lemma FailedStartStopsAnother()
    ensures var s1 := After(EMPTY, Upsert("pane", 80, 24, None));
            var s2 := After(s1, Detach("pane", None));
            var s3 := After(s2, Upsert("pane", 80, 24, None));
            var s4 := After(s3, Started(1));
            var s5 := After(s4, StartFailed(0));
            "pane" in s4.sessions && s4.sessions["pane"].fed && s4.sessions["pane"].serial == 1
            && s5.sessions == map[] && 1 in s5.stopped
  {
    var s2 := After(After(EMPTY, Upsert("pane", 80, 24, None)), Detach("pane", None));
    var s3 := After(s2, Upsert("pane", 80, 24, None));
    assert s3 == State(map["pane" := Session(1, 80, 24, None, false)], 2, {0},
                       map[0 := Starting("pane", 0, None), 1 := Starting("pane", 1, None)]);
  }

  // ----- the manager -----------------------------------------------------------------------------

  class GridManager {
    var sessions: map<SessionId, Session>
    ghost var next: Serial
    ghost var stopped: set<Serial>
    ghost var starting: map<Serial, Starting>

    ghost function Abs(): State
      reads this
    {
      State(sessions, next, stopped, starting)
    }

    constructor ()
      ensures Abs() == EMPTY
    {
      sessions, next, stopped, starting := map[], 0, {}, map[];
    }

    /** The locked part of an attach; `isNew` tells the caller to start a feed. */
    method UpsertSession(id: SessionId, cols: nat, rows: nat, token: Option<Token>, serial: Serial)
      returns (isNew: bool)
      requires serial == next
      modifies this
      ensures Abs() == After(old(Abs()), Upsert(id, cols, rows, token))
      ensures isNew <==> id !in old(sessions)
    {
      if id in sessions {
        sessions := sessions[id := sessions[id].(cols := cols, rows := rows)];
        sessions := sessions[id := sessions[id].(token := token)];
        return false;
      }
      sessions := sessions[id := Session(serial, cols, rows, token, false)];
      starting := starting[serial := Starting(id, serial, token)];
      next := next + 1;
      isNew := true;
    }

    method DetachSession(id: SessionId, token: Option<Token>)
      modifies this
      ensures Abs() == After(old(Abs()), Detach(id, token))
    {
      if id in sessions {
        var shouldDetach := match (token, sessions[id].token)
          case (Some(expected), Some(current)) => expected == current
          case (Some(_), None) => false
          case (None, _) => true;
        if shouldDetach {
          stopped := stopped + {sessions[id].serial};
          sessions := sessions - {id};
        }
      }
    }

    /**
     A whole attach that nobody interrupts. `spawns` is whether the feed's thread starts; when it
     does not, the new session is gone again and the map is as it was.
     */
    method Attach(id: SessionId, cols: nat, rows: nat, token: Option<Token>, serial: Serial, spawns: bool)
      returns (ok: bool)
      requires Inv(Abs()) && serial == next
      modifies this
      ensures var upserted := After(old(Abs()), Upsert(id, cols, rows, token));
              Abs() == if id in old(sessions) then upserted
                       else After(upserted, if spawns then Started(serial) else StartFailed(serial))
      ensures ok <==> id in old(sessions) || spawns
      ensures ok ==>
                id in sessions && sessions[id].cols == cols && sessions[id].rows == rows && sessions[id].token == token
      ensures !ok ==> sessions == old(sessions)
    {
      var isNew := UpsertSession(id, cols, rows, token, serial);
      if !isNew {
        return true;
      }
      starting := starting - {serial};
      if spawns {
        sessions := sessions[id := sessions[id].(fed := true)];
      } else {
        DetachSession(id, token);
      }
      ok := spawns;
    }

    method ResizeSession(id: SessionId, cols: nat, rows: nat) returns (found: bool)
      modifies this
      ensures Abs() == After(old(Abs()), Resize(id, cols, rows)) && (found <==> id in old(sessions))
    {
      found := id in sessions;
      if found {
        sessions := sessions[id := sessions[id].(cols := cols, rows := rows)];
      }
    }
  }
}
