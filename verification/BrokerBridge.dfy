/**
 The private broker protocol of `src-tauri/src/handoff_native_bridge.rs`. A helper child sends
 packets; the bridge validates what it asks for, performs the native effect, and certifies the
 outcome. The child, the pipe, the held resources and the effect are an adversarial world: the
 claims hold for every packet sequence and every answer of the others.
 */
module BrokerBridge {
  import opened Common

  datatype Json =
    | Null | Bool(b: bool) | Num(n: int) | Str(s: string)
    | Arr(items: seq<Json>) | Obj(fields: map<string, Json>)

  /** Indexing a value that is not an object, or lacks the field, gives null. */
  function Field(v: Json, k: string): Json { if v.Obj? && k in v.fields then v.fields[k] else Null }

  function StringField(v: Json, k: string): Option<string> {
    var f := Field(v, k);
    if f.Str? then Some(f.s) else None
  }

  datatype Scope = Scope(operation: string, binding: Json, head: string, documents: Json)

  datatype Method = Handoff | Input | Register | Activate | Recover {
    function Name(): string {
      match this
      case Handoff => "commitHandoff"
      case Input => "submit"
      case Register => "registerProviderBinding"
      case Activate => "activateProviderBinding"
      case Recover => "recoverUnsent"
    }

    function Operation(): string {
      match this
      case Handoff => "handoff"
      case Recover => "handoff"
      case Input => "native-input"
      case Register => "provider-binding"
      case Activate => "provider-startup"
    }

    function Effect(): Option<string> { if Recover? then None else Some(Operation()) }

    /** Where the native tuple carries its operation id. */
    function NativeIdField(): string { if Handoff? then "operation_id" else "id" }
  }

  datatype Job = Job(id: string, directoryAbsolute: bool, jobMethod: Method, args: seq<Json>)

  datatype Packet =
    | GuardPacket(version: int, callId: string, requestId: int, scope: Scope)
    | EffectPacket(version: int, callId: string, requestId: int, kind: string, intent: Json, native: Json)
    | ResultPacket(version: int, callId: string, ok: bool, result: Option<Json>, broker: Option<Json>,
                   error: Option<string>)

  /**
   Everything outside the bridge. The child's packets run out when a read fails; `writes(n)` is
   whether the n-th packet to it goes out, `validate(n, s)` the n-th answer of the held resources,
   and `exits` whether the child exits successfully and its last packet is followed by a clean end.
   */
  datatype World = World(
    starts: bool, packets: seq<Packet>, writes: nat -> bool, validate: (nat, Scope) -> bool,
    effect: (string, Json) -> Result<Json, string>, exits: bool, completes: bool)

  datatype Failure =
    | NotStarted | ReadFailed | WriteFailed | GuardMismatch | GuardRefused | EffectMismatch
    | OperationIdAbsent | OperationIdMismatch | ScopeRefused | FinalMismatch | Denied | FinalIncomplete
    | EffectInRecovery | ReceiptMismatch | ReceiptAbsent | ExitFailed | NotCompleted | AlreadyRecorded

  /** A native effect that was performed, with the scope the resources had accepted for it. */
  datatype Call = Call(kind: string, native: Json, scope: Scope)

  datatype Ending = Ending(
    result: Result<Json, Failure>, operationId: Option<string>, knownNoEffect: bool, calls: seq<Call>)

  /** The locals of one conversation, with the number of packets written. */
  datatype Talk = Talk(
    validated: Option<Scope>, issued: bool, expected: Option<Json>, operationId: Option<string>,
    calls: seq<Call>, written: nat)

  datatype Next = Continue(t: Talk) | Stop(e: Ending)

  function Fail(t: Talk, f: Failure): Next { Stop(Ending(Err(f), t.operationId, false, t.calls)) }

  function OnGuard(t: Talk, job: Job, m: Method, w: World, p: Packet): Next
    requires p.GuardPacket?
  {
    if p.version != 1 || p.callId != job.id || p.requestId != 1 || t.validated.Some?
       || p.scope.operation != m.Operation() then
      Fail(t, GuardMismatch)
    else if !w.writes(t.written) then Fail(t, WriteFailed)
    else if !w.validate(0, p.scope) then Fail(t, GuardRefused)
    else Continue(t.(validated := Some(p.scope), written := t.written + 1))
  }

  function OnEffect(t: Talk, job: Job, m: Method, w: World, p: Packet): Next
    requires p.EffectPacket?
  {
    if p.version != 1 || p.callId != job.id || p.requestId != 2 || t.validated.None? || t.issued
       || Some(p.kind) != m.Effect() then
      Fail(t, EffectMismatch)
    else
      var id := StringField(p.intent, "id");
      var named := t.(operationId := id);
      if id.None? || id.value == "" then Fail(named, OperationIdAbsent)
      else if StringField(p.native, m.NativeIdField()) != id then Fail(named, OperationIdMismatch)
      else if !w.validate(1, t.validated.value) then Fail(named, ScopeRefused)
      else
        var answer := w.effect(p.kind, p.native);
        var done := named.(issued := true, calls := t.calls + [Call(p.kind, p.native, t.validated.value)]);
        if !w.writes(t.written) then Fail(done, WriteFailed)
        else
          Continue(done.(written := t.written + 1,
                         expected := if answer.Ok? then Some(answer.value) else t.expected))
  }

  function Wanted(m: Method, receipt: Json): Json {
    if m.Handoff? then Obj(map["effect" := receipt]) else receipt
  }

  /** The broker reports an input it had already recorded or put aside. */
  predicate ReportsNoReplay(broker: Json) {
    Field(broker, "duplicate") == Bool(true) || Field(broker, "status") == Str("quarantined")
  }

  function OnResult(t: Talk, job: Job, m: Method, w: World, p: Packet, last: bool): (n: Next)
    requires p.ResultPacket?
    ensures n.Stop?
  {
    if p.version != 1 || p.callId != job.id then Fail(t, FinalMismatch)
    else if !p.ok then Fail(t, Denied)
    else if p.error.Some? || t.validated.None? || p.broker.None? then Fail(t, FinalIncomplete)
    else
      var value := if p.result.Some? then p.result.value else Null;
      if m.Recover? && t.issued then Fail(t, EffectInRecovery)
      else if !m.Recover? && t.expected.Some? && value != Wanted(m, t.expected.value) then Fail(t, ReceiptMismatch)
      else if !m.Recover? && t.expected.None? then
        if !m.Input? || t.issued || value != Null || !ReportsNoReplay(p.broker.value) then Fail(t, ReceiptAbsent)
        else if !w.exits || !last then Fail(t, ExitFailed)
        else if !w.completes then Fail(t, NotCompleted)
        else Stop(Ending(Err(AlreadyRecorded), t.operationId, true, t.calls))
      else if !w.exits || !last then Fail(t, ExitFailed)
      else if !w.completes then Fail(t, NotCompleted)
      else Stop(Ending(Ok(value), t.operationId, false, t.calls))
  }

  function OnPacket(t: Talk, job: Job, m: Method, w: World, p: Packet, last: bool): Next {
    match p
    case GuardPacket(_, _, _, _) => OnGuard(t, job, m, w, p)
    case EffectPacket(_, _, _, _, _, _) => OnEffect(t, job, m, w, p)
    case ResultPacket(_, _, _, _, _, _) => OnResult(t, job, m, w, p, last)
  }

  /** No packet follows: the child's end, which the bridge waits for behind an outcome. */
  predicate IsLast(w: World, i: nat) { i + 1 == |w.packets| }

  /** The conversation from packet `i` on. */
  function Converse(t: Talk, job: Job, m: Method, w: World, i: nat): Ending
    requires i <= |w.packets|
    decreases |w.packets| - i
  {
    if i == |w.packets| then Fail(t, ReadFailed).e
    else
      match OnPacket(t, job, m, w, w.packets[i], IsLast(w, i))
      case Stop(e) => e
      case Continue(t') => Converse(t', job, m, w, i + 1)
  }

  const FRESH: Talk := Talk(None, false, None, None, [], 1)

  /** The whole exchange: start the helper and send the operation, then answer packets. */
  function Exchange(job: Job, m: Method, w: World): Ending {
    if !w.starts || !w.writes(0) then Ending(Err(NotStarted), None, false, [])
    else Converse(FRESH, job, m, w, 0)
  }

  // ----- what every conversation keeps ----------------------------------------------------

  /** The scope was presented by a guard packet and accepted when it was. */
  ghost predicate Guarded(job: Job, m: Method, w: World, s: Scope) {
    s.operation == m.Operation() && w.validate(0, s) && GuardPacket(1, job.id, 1, s) in w.packets
  }

  /**
   A permitted effect: of the kind of the method, so never in a recovery; asked for by an effect
   packet whose durable and native operation ids agree; its scope accepted at the guard and again
   just before.
   */
  ghost predicate Permitted(job: Job, m: Method, w: World, c: Call, id: Option<string>) {
    && Some(c.kind) == m.Effect()
    && Guarded(job, m, w, c.scope) && w.validate(1, c.scope)
    && id.Some? && id.value != "" && StringField(c.native, m.NativeIdField()) == id
    && exists intent ::
         StringField(intent, "id") == id && EffectPacket(1, job.id, 2, c.kind, intent, c.native) in w.packets
  }

  ghost predicate TalkInv(t: Talk, job: Job, m: Method, w: World) {
    && (t.validated.Some? ==> Guarded(job, m, w, t.validated.value))
    && (t.issued <==> t.calls != []) && |t.calls| <= 1
    && (t.calls != [] ==> Permitted(job, m, w, t.calls[0], t.operationId) && t.validated == Some(t.calls[0].scope))
    && (t.expected.Some? ==> t.calls != [] && w.effect(t.calls[0].kind, t.calls[0].native) == Ok(t.expected.value))
    && (t.calls != [] && w.effect(t.calls[0].kind, t.calls[0].native).Ok? ==> t.expected.Some?)
  }

  /** The value certifies the receipt: it is the receipt, or for a handoff the object with it alone as effect. */
  ghost predicate Certifies(m: Method, receipt: Json, value: Json) {
    if m.Handoff? then value.Obj? && value.fields.Keys == {"effect"} && value.fields["effect"] == receipt
    else value == receipt
  }

  /** What an ending may claim. */
  ghost predicate EndingLaw(e: Ending, job: Job, m: Method, w: World) {
    && |e.calls| <= 1
    && (e.calls != [] ==> Permitted(job, m, w, e.calls[0], e.operationId))
    // Success certifies the one effect's receipt, or a recovery without any effect.
    && (e.result.Ok? ==>
          w.exits && w.completes && !e.knownNoEffect
          && if m.Recover? then e.calls == []
             else e.calls != [] && w.effect(e.calls[0].kind, e.calls[0].native).Ok?
                  && Certifies(m, w.effect(e.calls[0].kind, e.calls[0].native).value, e.result.value))
    // The exit that claims to have had no effect had none.
    && (e.knownNoEffect ==> e.calls == [] && e.result.Err? && m.Input?)
  }

  /** A step goes on within the invariant or stops within the law. */
  ghost predicate Lawful(n: Next, job: Job, m: Method, w: World) {
    match n
    case Continue(t) => TalkInv(t, job, m, w)
    case Stop(e) => EndingLaw(e, job, m, w)
  }

  lemma FailLawful(t: Talk, job: Job, m: Method, w: World, f: Failure, id: Option<string>)
    requires TalkInv(t, job, m, w) && (t.calls != [] ==> id == t.operationId)
    ensures Lawful(Fail(t.(operationId := id), f), job, m, w)
  {
  }

  lemma GuardLawful(t: Talk, job: Job, m: Method, w: World, p: Packet)
    requires p.GuardPacket? && p in w.packets && TalkInv(t, job, m, w)
    ensures Lawful(OnGuard(t, job, m, w, p), job, m, w)
  {
    hide Permitted;
    if OnGuard(t, job, m, w, p).Continue? { assert p == GuardPacket(1, job.id, 1, p.scope); }
  }

  lemma EffectLawful(t: Talk, job: Job, m: Method, w: World, p: Packet)
    requires p.EffectPacket? && p in w.packets && TalkInv(t, job, m, w)
    ensures Lawful(OnEffect(t, job, m, w, p), job, m, w)
  {
    hide StringField, Lawful, TalkInv;
    var n := OnEffect(t, job, m, w, p);
    if n.Stop? && n.e.calls == t.calls {
      if n.e.result == Err(EffectMismatch) {
        FailLawful(t, job, m, w, EffectMismatch, t.operationId);
      } else {
        NotIssued(t, job, m, w);
        FailLawful(t, job, m, w, n.e.result.error, StringField(p.intent, "id"));
      }
    } else {
      EffectDone(t, job, m, w, p);
    }
  }

  lemma NotIssued(t: Talk, job: Job, m: Method, w: World)
    requires TalkInv(t, job, m, w) && !t.issued
    ensures t.calls == [] && t.expected.None?
  {
  }

  lemma EffectDone(t: Talk, job: Job, m: Method, w: World, p: Packet)
    requires p.EffectPacket? && p in w.packets && TalkInv(t, job, m, w)
    requires var n := OnEffect(t, job, m, w, p); n.Continue? || n.e.calls != t.calls
    ensures Lawful(OnEffect(t, job, m, w, p), job, m, w)
  {
    hide StringField, Guarded;
    assert p == EffectPacket(1, job.id, 2, p.kind, p.intent, p.native);
    var c := Call(p.kind, p.native, t.validated.value);
    assert t.calls == [] && [] + [c] == [c];
    assert Permitted(job, m, w, c, StringField(p.intent, "id"));
  }

  lemma WantedCertifies(m: Method, receipt: Json, value: Json)
    ensures value == Wanted(m, receipt) <==> Certifies(m, receipt, value)
  {
    if m.Handoff? && Certifies(m, receipt, value) { assert value.fields == map["effect" := receipt]; }
  }

  lemma ResultLawful(t: Talk, job: Job, m: Method, w: World, p: Packet, last: bool)
    requires p.ResultPacket? && TalkInv(t, job, m, w)
    ensures Lawful(OnResult(t, job, m, w, p, last), job, m, w)
  {
    hide Permitted, Guarded, Wanted, ReportsNoReplay, Certifies;
    if t.expected.Some? {
      WantedCertifies(m, t.expected.value, if p.result.Some? then p.result.value else Null);
    }
  }

  lemma PacketLawful(t: Talk, job: Job, m: Method, w: World, p: Packet, last: bool)
    requires p in w.packets && TalkInv(t, job, m, w)
    ensures Lawful(OnPacket(t, job, m, w, p, last), job, m, w)
  {
    hide OnGuard, OnEffect, OnResult, Lawful, TalkInv;
    match p
    case GuardPacket(_, _, _, _) => GuardLawful(t, job, m, w, p);
    case EffectPacket(_, _, _, _, _, _) => EffectLawful(t, job, m, w, p);
    case ResultPacket(_, _, _, _, _, _) => ResultLawful(t, job, m, w, p, last);
  }

  lemma {:induction false} ConverseLaw(t: Talk, job: Job, m: Method, w: World, i: nat)
    requires i <= |w.packets| && TalkInv(t, job, m, w)
    ensures EndingLaw(Converse(t, job, m, w, i), job, m, w)
    decreases |w.packets| - i
  {
    if i < |w.packets| {
      PacketLawful(t, job, m, w, w.packets[i], IsLast(w, i));
      var n := OnPacket(t, job, m, w, w.packets[i], IsLast(w, i));
      if n.Continue? { ConverseLaw(n.t, job, m, w, i + 1); }
    }
  }

  /** For every world: at most one effect, only a permitted one, and no unearned success. */
  lemma ExchangeLaw(job: Job, m: Method, w: World)
    ensures EndingLaw(Exchange(job, m, w), job, m, w)
  {
    if w.starts && w.writes(0) { ConverseLaw(FRESH, job, m, w, 0); }
  }

  /** The conversation opens with a guard for this job that the resources accept. */
  predicate OpensWell(job: Job, m: Method, w: World) {
    && |w.packets| > 0 && w.packets[0].GuardPacket?
    && w.packets[0] == GuardPacket(1, job.id, 1, w.packets[0].scope)
    && w.packets[0].scope.operation == m.Operation() && w.writes(1) && w.validate(0, w.packets[0].scope)
  }

  /** An object with this text under this name. */
  predicate HasText(v: Json, name: string, text: string) { v.Obj? && name in v.fields && v.fields[name] == Str(text) }

  /** The second packet asks for an effect, in this conversation and of the method's kind. */
  predicate Asks(job: Job, m: Method, w: World) {
    && |w.packets| > 1 && w.packets[1].EffectPacket?
    && var p := w.packets[1];
       p.version == 1 && p.callId == job.id && p.requestId == 2 && Some(p.kind) == m.Effect()
  }

  /** It names one operation twice, and the resources accept the scope of the guard again. */
  predicate MayAct(job: Job, m: Method, w: World, id: string)
    requires OpensWell(job, m, w) && Asks(job, m, w)
  {
    && id != "" && HasText(w.packets[1].intent, "id", id)
    && HasText(w.packets[1].native, if m.Handoff? then "operation_id" else "id", id)
    && w.validate(1, w.packets[0].scope)
  }

  /** The effect of the method is performed. */
  ghost predicate Acts(job: Job, m: Method, w: World) {
    && w.starts && w.writes(0) && OpensWell(job, m, w) && Asks(job, m, w)
    && exists id :: MayAct(job, m, w, id)
  }

  /** It is performed with success, and the child hears of it. */
  ghost predicate ActsWell(job: Job, m: Method, w: World) {
    Acts(job, m, w) && w.effect(w.packets[1].kind, w.packets[1].native).Ok? && w.writes(2)
  }

  /** Packet `i`, with none behind it, is a complete, accepted outcome with this value. */
  predicate ClosesWell(job: Job, w: World, i: nat, value: Json) {
    && |w.packets| == i + 1 && w.packets[i].ResultPacket?
    && var p := w.packets[i];
       p.version == 1 && p.callId == job.id && p.ok && p.error.None? && p.broker.Some?
       && value == if p.result.Some? then p.result.value else Null
  }

  /** The one script of packets and answers that ends well. */
  ghost predicate GoesWell(job: Job, m: Method, w: World, value: Json) {
    && w.starts && w.writes(0) && w.exits && w.completes && OpensWell(job, m, w)
    && if m.Recover? then ClosesWell(job, w, 1, value)
       else ActsWell(job, m, w) && ClosesWell(job, w, 2, value)
            && Certifies(m, w.effect(w.packets[1].kind, w.packets[1].native).value, value)
  }

  /** Nothing else succeeds, and this always does. */
  lemma SucceedsIff(job: Job, m: Method, w: World, value: Json)
    ensures Exchange(job, m, w).result == Ok(value) <==> GoesWell(job, m, w, value)
  {
    hide OnPacket, OpensWell, ActsWell, ClosesWell, Certifies;
    if w.starts && w.writes(0) && |w.packets| > 0 {
      OnlyGuardOpens(job, m, w);
      var n1 := OnPacket(FRESH, job, m, w, w.packets[0], IsLast(w, 0));
      if n1.Continue? { AfterGuard(n1.t, job, m, w, value); }
    } else {
      assert !OpensWell(job, m, w) || !w.starts || !w.writes(0) by { NoPackets(job, m, w); }
    }
  }

  lemma NoPackets(job: Job, m: Method, w: World)
    ensures w.packets == [] ==> !OpensWell(job, m, w)
  {
  }

  /** The conversation behind an accepted guard. */
  function Opened(w: World): Talk
    requires |w.packets| > 0 && w.packets[0].GuardPacket?
  {
    Talk(Some(w.packets[0].scope), false, None, None, [], 2)
  }

  lemma OnlyGuardOpens(job: Job, m: Method, w: World)
    requires |w.packets| > 0
    ensures var n := OnPacket(FRESH, job, m, w, w.packets[0], IsLast(w, 0));
            if n.Continue? then OpensWell(job, m, w) && n.t == Opened(w)
            else !OpensWell(job, m, w) && n.e.result.Err? && n.e == Ending(n.e.result, None, false, [])
  {
    hide StringField, Wanted, ReportsNoReplay;
  }

  lemma AfterGuard(t: Talk, job: Job, m: Method, w: World, value: Json)
    requires w.starts && w.writes(0) && OpensWell(job, m, w) && t == Opened(w)
    ensures Converse(t, job, m, w, 1).result == Ok(value) <==>
              w.exits && w.completes
              && if m.Recover? then ClosesWell(job, w, 1, value)
                 else ActsWell(job, m, w) && ClosesWell(job, w, 2, value)
                      && Certifies(m, w.effect(w.packets[1].kind, w.packets[1].native).value, value)
  {
    hide StringField, Wanted, ReportsNoReplay, Certifies, MayAct;
    if |w.packets| > 1 {
      var n2 := OnPacket(t, job, m, w, w.packets[1], IsLast(w, 1));
      if w.packets[1].EffectPacket? { ActsExactly(t, job, m, w); }
      if n2.Continue? { AfterEffect(n2.t, job, m, w, value); }
    }
  }

  lemma AfterEffect(t: Talk, job: Job, m: Method, w: World, value: Json)
    requires t.validated.Some? && t.issued && !m.Recover?
    ensures 2 <= |w.packets| ==>
              (Converse(t, job, m, w, 2).result == Ok(value) <==>
                 w.exits && w.completes && ClosesWell(job, w, 2, value)
                 && t.expected.Some? && Certifies(m, t.expected.value, value))
  {
    hide StringField, Wanted, ReportsNoReplay, Certifies;
    if t.expected.Some? { WantedCertifies(m, t.expected.value, value); }
  }

  lemma HasTextIff(v: Json, name: string, text: string)
    ensures StringField(v, name) == Some(text) <==> HasText(v, name, text)
  {
  }

  /** What an effect packet behind the guard does. */
  lemma ActsExactly(t: Talk, job: Job, m: Method, w: World)
    requires w.starts && w.writes(0) && OpensWell(job, m, w) && t == Opened(w)
    requires |w.packets| > 1 && w.packets[1].EffectPacket?
    ensures var p, n := w.packets[1], OnEffect(t, job, m, w, w.packets[1]);
            && CallsOf(n) == (if Acts(job, m, w) then [Call(p.kind, p.native, w.packets[0].scope)] else [])
            && (n.Continue? <==> Acts(job, m, w) && w.writes(2))
            && IdOf(n) == (if Asks(job, m, w) then StringField(p.intent, "id") else None)
            && (n.Continue? ==> n.t.issued && n.t.validated == t.validated
                                && n.t.expected == (var r := w.effect(p.kind, p.native);
                                                    if r.Ok? then Some(r.value) else None))
            && (n.Stop? ==> n.e.result.Err? && !n.e.knownNoEffect)
            && (Acts(job, m, w) ==> !m.Recover?)
  {
    hide StringField, HasText;
    var p := w.packets[1];
    var id := StringField(p.intent, "id");
    if id.Some? {
      HasTextIff(p.intent, "id", id.value);
      HasTextIff(p.native, m.NativeIdField(), id.value);
    }
    forall other { HasTextIff(p.intent, "id", other); }
    assert [] + [Call(p.kind, p.native, w.packets[0].scope)] == [Call(p.kind, p.native, w.packets[0].scope)];
    if id.Some? && Asks(job, m, w) { assert MayAct(job, m, w, id.value) || !Acts(job, m, w); }
  }

  function IdOf(n: Next): Option<string> {
    match n
    case Continue(t) => t.operationId
    case Stop(e) => e.operationId
  }

  /** Behind the effect nothing acts, names an operation or certifies that there was no effect. */
  lemma AfterEffectKeeps(t: Talk, job: Job, m: Method, w: World)
    requires t.validated.Some? && t.issued && 2 <= |w.packets|
    ensures var e := Converse(t, job, m, w, 2);
            e.calls == t.calls && e.operationId == t.operationId && !e.knownNoEffect
  {
    hide StringField, Wanted, ReportsNoReplay;
  }

  /** The broker says that the input is recorded already, or was put aside. */
  predicate SaysRecorded(broker: Json) {
    broker.Obj? && (("duplicate" in broker.fields && broker.fields["duplicate"] == Bool(true))
                    || HasText(broker, "status", "quarantined"))
  }

  /** Behind the guard, the last packet is a complete outcome without a value that says so. */
  predicate EndsRecorded(job: Job, m: Method, w: World) {
    && w.starts && w.writes(0) && w.exits && w.completes && m.Input? && OpensWell(job, m, w)
    && ClosesWell(job, w, 1, Null) && SaysRecorded(w.packets[1].broker.value)
  }

  /** The operation whose scope a method presents; a recovery presents that of the handoff it is for. */
  predicate Presents(m: Method, operation: string) {
    match m
    case Handoff => operation == "handoff"
    case Input => operation == "native-input"
    case Register => operation == "provider-binding"
    case Activate => operation == "provider-startup"
    case Recover => operation == "handoff"
  }

  /**
   The effect of the second packet is performed iff that packet may act, and nothing else ever; its
   operation is named iff it asks at all; and it is certified that there was no effect iff the
   conversation ends recorded.
   */
  ghost predicate Exact(e: Ending, job: Job, m: Method, w: World) {
    && e.calls == (if Acts(job, m, w) then [Call(w.packets[1].kind, w.packets[1].native, w.packets[0].scope)] else [])
    && (OpensWell(job, m, w) ==> Presents(m, w.packets[0].scope.operation))
    && (e.calls != [] ==> !m.Recover? && e.calls[0].kind == e.calls[0].scope.operation)
    && (forall id :: e.operationId == Some(id) <==> Names(job, m, w, id))
    && (e.knownNoEffect <==> EndsRecorded(job, m, w))
  }

  predicate Names(job: Job, m: Method, w: World, id: string) {
    w.starts && w.writes(0) && OpensWell(job, m, w) && Asks(job, m, w) && HasText(w.packets[1].intent, "id", id)
  }

  /** This is what every exchange does. */
  lemma ActsIff(job: Job, m: Method, w: World)
    ensures Exact(Exchange(job, m, w), job, m, w)
  {
    hide OnPacket, Asks, HasText, Converse, StringField, ClosesWell, MayAct, SaysRecorded;
    if w.starts && w.writes(0) && |w.packets| > 0 {
      OpensFirst(job, m, w);
      OnlyGuardOpens(job, m, w);
      if OpensWell(job, m, w) { ExactBehindGuard(Opened(w), job, m, w); }
    } else {
      NoPackets(job, m, w);
      if w.packets == [] { EndsAtOnce(job, m, w); }
    }
  }

  lemma EndsAtOnce(job: Job, m: Method, w: World)
    ensures w.packets == [] ==> Converse(FRESH, job, m, w, 0) == Fail(FRESH, ReadFailed).e
  {
  }

  lemma OpensFirst(job: Job, m: Method, w: World)
    requires |w.packets| > 0
    ensures var n := OnPacket(FRESH, job, m, w, w.packets[0], IsLast(w, 0));
            Converse(FRESH, job, m, w, 0) == if n.Continue? then Converse(n.t, job, m, w, 1) else n.e
  {
    hide OnPacket;
  }

  lemma ExactBehindGuard(t: Talk, job: Job, m: Method, w: World)
    requires w.starts && w.writes(0) && OpensWell(job, m, w) && t == Opened(w)
    ensures Exact(Converse(t, job, m, w, 1), job, m, w)
  {
    hide StringField, HasText, Wanted, ReportsNoReplay, SaysRecorded, MayAct;
    if |w.packets| > 1 {
      var p := w.packets[1];
      match p
      case GuardPacket(_, _, _, _) =>
      case EffectPacket(_, _, _, _, _, _) =>
        forall id { HasTextIff(p.intent, "id", id); }
        ActsExactly(t, job, m, w);
        var n := OnEffect(t, job, m, w, p);
        if n.Continue? { AfterEffectKeeps(n.t, job, m, w); }
      case ResultPacket(_, _, _, _, _, _) =>
        if p.broker.Some? { RecordedIff(p.broker.value); }
    }
  }

  lemma RecordedIff(broker: Json)
    ensures ReportsNoReplay(broker) <==> SaysRecorded(broker)
  {
  }

  // ----- the loop ----------------------------------------------------------------------------

  method RunExchange(job: Job, m: Method, w: World) returns (e: Ending)
    ensures e == Exchange(job, m, w)
  {
    if !w.starts || !w.writes(0) {
      return Ending(Err(NotStarted), None, false, []);
    }
    var t := FRESH;
    var i := 0;
    while i < |w.packets|
      invariant i <= |w.packets|
      invariant Converse(t, job, m, w, i) == Converse(FRESH, job, m, w, 0)
      decreases |w.packets| - i
    {
      var n := OnPacket(t, job, m, w, w.packets[i], IsLast(w, i));
      if n.Stop? {
        return n.e;
      }
      t := n.t;
      i := i + 1;
    }
    return Ending(Err(ReadFailed), t.operationId, false, t.calls);
  }

  // ----- the catalog under any interleaving of runs --------------------------------------------

  datatype Entry = Entry(job: Job, claimed: bool, uncertain: bool)

  type RunId = nat

  /** A run in progress: what it has claimed, its world, and its conversation once it has begun. */
  datatype Active = Active(key: string, m: Method, w: World, talk: Option<Talk>, i: nat)

  /** The catalog and the runs in progress; `effects` are the keys whose effect was performed, in order. */
  datatype Machine = Machine(
    entries: map<string, Entry>, active: map<RunId, Active>, next: RunId, effects: seq<string>)

  /** `Begin` starts the helper, `Hear` takes the next packet or the end of the packets. */
  datatype Step =
    | Enroll(key: string, job: Job)
    | Claim(key: string, m: Method, w: World)
    | Abandon(run: RunId)
    | Begin(run: RunId)
    | Hear(run: RunId)

  predicate Enabled(s: Machine, step: Step) {
    match step
    case Enroll(key, job) => key !in s.entries && forall k | k in s.entries :: s.entries[k].job.id != job.id
    case Claim(key, _, _) => key in s.entries && !s.entries[key].claimed
    case Abandon(run) => run in s.active && s.active[run].talk.None?
    case Begin(run) => run in s.active && s.active[run].talk.None? && s.active[run].key in s.entries
    case Hear(run) =>
      run in s.active && s.active[run].talk.Some? && s.active[run].key in s.entries
      && s.active[run].i <= |s.active[run].w.packets|
  }

  /** What the run's conversation does next. */
  function Heard(job: Job, a: Active): Next
    requires a.talk.Some? && a.i <= |a.w.packets|
  {
    if a.i == |a.w.packets| then Fail(a.talk.value, ReadFailed)
    else OnPacket(a.talk.value, job, a.m, a.w, a.w.packets[a.i], IsLast(a.w, a.i))
  }

  function CallsOf(n: Next): seq<Call> {
    match n
    case Continue(t) => t.calls
    case Stop(e) => e.calls
  }

  /** `key` as often as the calls performed in one step. */
  function Times(key: string, n: int): seq<string> { seq(if n <= 0 then 0 else n, _ => key) }

  function Ended(s: Machine, run: RunId, e: Ending): Machine
    requires run in s.active && s.active[run].key in s.entries
  {
    var key := s.active[run].key;
    s.(active := s.active - {run},
       entries := if e.result.Err? && !e.knownNoEffect then s.entries[key := s.entries[key].(uncertain := true)]
                  else s.entries)
  }

  function After(s: Machine, step: Step): Machine
    requires Enabled(s, step)
  {
    match step
    case Enroll(key, job) => s.(entries := s.entries[key := Entry(job, false, false)])
    case Claim(key, m, w) =>
      s.(entries := s.entries[key := s.entries[key].(claimed := true)],
         active := s.active[s.next := Active(key, m, w, None, 0)], next := s.next + 1)
    case Abandon(run) => s.(active := s.active - {run})
    case Begin(run) =>
      var a := s.active[run];
      if !a.w.starts || !a.w.writes(0) then Ended(s, run, Ending(Err(NotStarted), None, false, []))
      else s.(active := s.active[run := a.(talk := Some(FRESH))])
    case Hear(run) =>
      var a := s.active[run];
      var n := Heard(s.entries[a.key].job, a);
      var t := s.(effects := s.effects + Times(a.key, |CallsOf(n)| - |a.talk.value.calls|));
      match n
      case Continue(talk) => t.(active := t.active[run := a.(talk := Some(talk), i := a.i + 1)])
      case Stop(e) => Ended(t, run, e)
  }

  const EMPTY: Machine := Machine(map[], map[], 0, [])

  ghost predicate IdsDistinct(entries: map<string, Entry>) {
    forall j, k | j in entries && k in entries && j != k :: entries[j].job.id != entries[k].job.id
  }

  /** Every run in progress holds a consumed entry, and no two hold the same. */
  ghost predicate RunsHold(s: Machine) {
    && (forall r | r in s.active :: r < s.next && s.active[r].key in s.entries && s.entries[s.active[r].key].claimed)
    && (forall q, r | q in s.active && r in s.active && q != r :: s.active[q].key != s.active[r].key)
  }

  /** Each conversation keeps its own invariant, and has performed exactly the effects it knows of. */
  ghost predicate RunsTalk(s: Machine)
    requires RunsHold(s)
  {
    forall r | r in s.active :: TalksWell(s.entries[s.active[r].key].job, s.active[r], s.effects)
  }

  ghost predicate TalksWell(job: Job, a: Active, effects: seq<string>) {
    && a.i <= |a.w.packets|
    && (a.talk.Some? ==> TalkInv(a.talk.value, job, a.m, a.w))
    && (a.key in effects <==> a.talk.Some? && a.talk.value.calls != [])
  }

  /** Each key is performed at most once, and only when consumed. */
  ghost predicate PerformedOnce(s: Machine) {
    && (forall i | 0 <= i < |s.effects| :: s.effects[i] in s.entries && s.entries[s.effects[i]].claimed)
    && (forall i, j | 0 <= i < j < |s.effects| :: s.effects[i] != s.effects[j])
  }

  ghost predicate MachineInv(s: Machine) {
    && IdsDistinct(s.entries) && RunsHold(s) && RunsTalk(s) && PerformedOnce(s)
    && (forall k | k in s.entries && s.entries[k].uncertain :: s.entries[k].claimed)
  }

  lemma EnrollKeeps(s: Machine, key: string, job: Job)
    requires MachineInv(s) && Enabled(s, Enroll(key, job))
    ensures MachineInv(After(s, Enroll(key, job)))
  {
    hide TalkInv, TalksWell;
    var t := After(s, Enroll(key, job));
    assert forall r | r in t.active :: TalksWell(s.entries[s.active[r].key].job, s.active[r], s.effects);
  }

  lemma ClaimHolds(s: Machine, key: string, m: Method, w: World)
    requires RunsHold(s) && Enabled(s, Claim(key, m, w))
    ensures RunsHold(After(s, Claim(key, m, w)))
  {
  }

  lemma ClaimTalks(s: Machine, key: string, m: Method, w: World)
    requires RunsHold(s) && RunsTalk(s) && Enabled(s, Claim(key, m, w)) && key !in s.effects
    requires RunsHold(After(s, Claim(key, m, w)))
    ensures RunsTalk(After(s, Claim(key, m, w)))
  {
    hide TalkInv;
    var t := After(s, Claim(key, m, w));
    forall r | r in t.active ensures TalksWell(t.entries[t.active[r].key].job, t.active[r], t.effects) {
      if r != s.next { assert TalksWell(s.entries[s.active[r].key].job, s.active[r], s.effects); }
    }
  }

  lemma ClaimKeeps(s: Machine, key: string, m: Method, w: World)
    requires MachineInv(s) && Enabled(s, Claim(key, m, w))
    ensures MachineInv(After(s, Claim(key, m, w)))
  {
    hide RunsHold, RunsTalk;
    assert key !in s.effects;
    ClaimHolds(s, key, m, w);
    ClaimTalks(s, key, m, w);
  }

  /** The effects after a step of the run that holds `key`: the same, or its own for the first time. */
  predicate AddsFirst(before: seq<string>, after: seq<string>, key: string) {
    after == before || (after == before + [key] && key !in before)
  }

  /** What a conversation does to the machine: it changes or gives up its run, and may mark its entry. */
  ghost predicate Touches(s: Machine, t: Machine, run: RunId, unverified: bool) {
    && run in s.active && s.active[run].key in s.entries && t.next == s.next
    && (forall r | r in t.active :: r in s.active && (r == run || t.active[r] == s.active[r]))
    && (run in t.active ==> t.active[run].key == s.active[run].key)
    && var key := s.active[run].key;
       t.entries == if unverified then s.entries[key := s.entries[key].(uncertain := true)] else s.entries
  }

  lemma TouchKeepsRest(s: Machine, t: Machine, run: RunId, unverified: bool)
    requires IdsDistinct(s.entries) && RunsHold(s) && Touches(s, t, run, unverified)
    requires forall k | k in s.entries && s.entries[k].uncertain :: s.entries[k].claimed
    ensures IdsDistinct(t.entries) && RunsHold(t)
    ensures forall k | k in t.entries && t.entries[k].uncertain :: t.entries[k].claimed
    ensures forall k | k in s.entries :: k in t.entries && t.entries[k].job == s.entries[k].job
  {
  }

  lemma TouchKeepsTalks(s: Machine, t: Machine, run: RunId, unverified: bool)
    requires RunsHold(s) && RunsTalk(s) && RunsHold(t) && Touches(s, t, run, unverified)
    requires AddsFirst(s.effects, t.effects, s.active[run].key)
    requires forall k | k in s.entries :: k in t.entries && t.entries[k].job == s.entries[k].job
    requires run in t.active ==> TalksWell(t.entries[t.active[run].key].job, t.active[run], t.effects)
    ensures RunsTalk(t)
  {
    hide TalkInv;
    forall r | r in t.active ensures TalksWell(t.entries[t.active[r].key].job, t.active[r], t.effects) {
      if r != run {
        assert TalksWell(s.entries[s.active[r].key].job, s.active[r], s.effects);
        assert s.active[r].key != s.active[run].key;
      }
    }
  }

  lemma TouchKeeps(s: Machine, t: Machine, run: RunId, unverified: bool)
    requires MachineInv(s) && Touches(s, t, run, unverified)
    requires AddsFirst(s.effects, t.effects, s.active[run].key)
    requires run in t.active ==> TalksWell(s.entries[s.active[run].key].job, t.active[run], t.effects)
    ensures MachineInv(t)
  {
    hide TalksWell, AddsFirst, Touches, IdsDistinct, RunsTalk, PerformedOnce;
    TouchKeepsRest(s, t, run, unverified);
    TouchRun(s, t, run, unverified);
    TouchKeepsTalks(s, t, run, unverified);
    EffectsKept(s, t, s.active[run].key);
  }

  lemma TouchRun(s: Machine, t: Machine, run: RunId, unverified: bool)
    requires Touches(s, t, run, unverified)
    ensures run in s.active && s.active[run].key in s.entries
    ensures run in t.active ==> t.active[run].key == s.active[run].key
    ensures forall k | k in s.entries :: k in t.entries && (s.entries[k].claimed ==> t.entries[k].claimed)
  {
  }

  /** A conversation that ends gives up nothing but its run. */
  lemma LeaveKeeps(s: Machine, run: RunId, unverified: bool, effects: seq<string>)
    requires MachineInv(s) && run in s.active && AddsFirst(s.effects, effects, s.active[run].key)
    ensures var key := s.active[run].key;
            MachineInv(s.(active := s.active - {run}, effects := effects,
                          entries := if unverified then s.entries[key := s.entries[key].(uncertain := true)]
                                     else s.entries))
  {
    var key := s.active[run].key;
    var entries := if unverified then s.entries[key := s.entries[key].(uncertain := true)] else s.entries;
    var t := s.(active := s.active - {run}, effects := effects, entries := entries);
    assert Touches(s, t, run, unverified) by { hide TalksWell, IdsDistinct, PerformedOnce, RunsTalk; }
    hide *;
    TouchKeeps(s, t, run, unverified);
  }

  lemma EffectsKept(s: Machine, t: Machine, key: string)
    requires PerformedOnce(s) && AddsFirst(s.effects, t.effects, key) && key in s.entries && s.entries[key].claimed
    requires forall k | k in s.entries :: k in t.entries && (s.entries[k].claimed ==> t.entries[k].claimed)
    ensures PerformedOnce(t)
  {
  }

  /** A conversation that goes on: its run alone changes, with the effects it has performed. */
  lemma TalkKeeps(s: Machine, run: RunId, a: Active, effects: seq<string>)
    requires MachineInv(s) && run in s.active && a.key == s.active[run].key
    requires TalksWell(s.entries[a.key].job, a, effects)
    requires AddsFirst(s.effects, effects, a.key)
    ensures MachineInv(s.(active := s.active[run := a], effects := effects))
  {
    var t := s.(active := s.active[run := a], effects := effects);
    assert Touches(s, t, run, false) by { hide TalksWell, IdsDistinct, PerformedOnce, RunsTalk; }
    hide *;
    TouchKeeps(s, t, run, false);
  }

  /** From the law of the conversation, not from any guard: no second effect is ever performed. */
  lemma HeardOnce(job: Job, a: Active)
    requires a.talk.Some? && a.i <= |a.w.packets| && TalkInv(a.talk.value, job, a.m, a.w)
    ensures Lawful(Heard(job, a), job, a.m, a.w)
    ensures |a.talk.value.calls| <= |CallsOf(Heard(job, a))| <= 1
  {
    hide OnPacket, Permitted, Guarded;
    if a.i < |a.w.packets| {
      PacketLawful(a.talk.value, job, a.m, a.w, a.w.packets[a.i], IsLast(a.w, a.i));
      CallsGrow(a.talk.value, job, a.m, a.w, a.w.packets[a.i], IsLast(a.w, a.i));
    } else {
      FailLawful(a.talk.value, job, a.m, a.w, ReadFailed, a.talk.value.operationId);
    }
  }

  lemma CallsGrow(t: Talk, job: Job, m: Method, w: World, p: Packet, last: bool)
    ensures |t.calls| <= |CallsOf(OnPacket(t, job, m, w, p, last))|
  {
    hide StringField, Wanted, ReportsNoReplay;
  }

  lemma HeardAdds(job: Job, a: Active, effects: seq<string>)
    requires a.talk.Some? && TalksWell(job, a, effects)
    ensures var after := effects + Times(a.key, |CallsOf(Heard(job, a))| - |a.talk.value.calls|);
            AddsFirst(effects, after, a.key)
            && match Heard(job, a)
               case Continue(talk) => a.i < |a.w.packets| && TalksWell(job, a.(talk := Some(talk), i := a.i + 1), after)
               case Stop(_) => true
  {
    HeardOnce(job, a);
    hide TalkInv, EndingLaw, OnPacket;
    var more := |CallsOf(Heard(job, a))| - |a.talk.value.calls|;
    assert Times(a.key, more) == if more == 1 then [a.key] else [];
  }

  /** The machine once `run` has got this far, with these effects performed. */
  function Moved(s: Machine, run: RunId, n: Next, effects: seq<string>): Machine
    requires run in s.active && s.active[run].key in s.entries
  {
    var a := s.active[run];
    match n
    case Continue(talk) =>
      s.(active := s.active[run := a.(talk := Some(talk), i := a.i + 1)], effects := effects)
    case Stop(e) =>
      s.(active := s.active - {run}, effects := effects,
         entries := if e.result.Err? && !e.knownNoEffect
                    then s.entries[a.key := s.entries[a.key].(uncertain := true)] else s.entries)
  }

  lemma HearMeans(s: Machine, run: RunId)
    requires Enabled(s, Hear(run))
    ensures var a := s.active[run];
            var n := Heard(s.entries[a.key].job, a);
            var effects := s.effects + Times(a.key, |CallsOf(n)| - |a.talk.value.calls|);
            After(s, Hear(run)) == Moved(s, run, n, effects)
  {
    hide Heard, CallsOf, Times;
  }

  lemma MovedKeeps(s: Machine, run: RunId, n: Next, effects: seq<string>)
    requires MachineInv(s) && run in s.active && s.active[run].key in s.entries
    requires AddsFirst(s.effects, effects, s.active[run].key)
    requires var a := s.active[run];
             n.Continue? ==> TalksWell(s.entries[a.key].job, a.(talk := Some(n.t), i := a.i + 1), effects)
    ensures MachineInv(Moved(s, run, n, effects))
  {
    hide MachineInv, TalksWell, AddsFirst;
    var a := s.active[run];
    match n
    case Continue(talk) => TalkKeeps(s, run, a.(talk := Some(talk), i := a.i + 1), effects);
    case Stop(e) => LeaveKeeps(s, run, e.result.Err? && !e.knownNoEffect, effects);
  }

  lemma HearKeeps(s: Machine, run: RunId)
    requires MachineInv(s) && Enabled(s, Hear(run))
    ensures MachineInv(After(s, Hear(run)))
  {
    HearMeans(s, run);
    var a := s.active[run];
    var job := s.entries[a.key].job;
    TalkOf(s, run);
    hide MachineInv, Heard, AddsFirst, Times, CallsOf, After, OnPacket, TalkInv, Moved;
    HeardAdds(job, a, s.effects);
    hide TalksWell;
    var n := Heard(job, a);
    MovedKeeps(s, run, n, s.effects + Times(a.key, |CallsOf(n)| - |a.talk.value.calls|));
  }

  lemma TalkOf(s: Machine, run: RunId)
    requires MachineInv(s) && run in s.active
    ensures s.active[run].key in s.entries
    ensures TalksWell(s.entries[s.active[run].key].job, s.active[run], s.effects)
  {
    hide TalksWell;
  }

  lemma BeginKeeps(s: Machine, run: RunId)
    requires MachineInv(s) && Enabled(s, Begin(run))
    ensures MachineInv(After(s, Begin(run)))
  {
    var a := s.active[run];
    assert TalksWell(s.entries[a.key].job, a, s.effects);
    hide MachineInv, Guarded, Permitted;
    if !a.w.starts || !a.w.writes(0) {
      LeaveKeeps(s, run, true, s.effects);
    } else {
      TalkKeeps(s, run, a.(talk := Some(FRESH)), s.effects);
      assert s.active[run := a.(talk := Some(FRESH))] == After(s, Begin(run)).active;
    }
  }

  lemma MachineKeeps(s: Machine, step: Step)
    requires MachineInv(s) && Enabled(s, step)
    ensures MachineInv(After(s, step))
  {
    hide MachineInv;
    match step
    case Enroll(key, job) => EnrollKeeps(s, key, job);
    case Claim(key, m, w) => ClaimKeeps(s, key, m, w);
    case Abandon(run) => LeaveKeeps(s, run, false, s.effects);
    case Begin(run) => BeginKeeps(s, run);
    case Hear(run) => HearKeeps(s, run);
  }

  ghost predicate IsHistory(h: seq<Machine>, steps: seq<Step>) {
    |h| == |steps| + 1 && h[0] == EMPTY
    && forall i {:trigger steps[i]} | 0 <= i < |steps| :: Enabled(h[i], steps[i]) && h[i + 1] == After(h[i], steps[i])
  }

  lemma {:induction false} InvAlways(h: seq<Machine>, steps: seq<Step>, k: nat)
    requires IsHistory(h, steps) && k < |h|
    ensures MachineInv(h[k])
    decreases k
  {
    hide After, Enabled;
    if k > 0 {
      InvAlways(h, steps, k - 1);
      MachineKeeps(h[k - 1], steps[k - 1]);
    }
  }

  /**
   Over any history of enrolments and concurrent conversations, whatever packets their helpers send,
   each job's effect happens at most once.
   */
  lemma AtMostOncePerJob(h: seq<Machine>, steps: seq<Step>, k: nat, i: nat, j: nat)
    requires IsHistory(h, steps) && k < |h| && i < j < |h[k].effects|
    ensures h[k].effects[i] in h[k].entries && h[k].effects[j] in h[k].entries
    ensures h[k].entries[h[k].effects[i]].job.id != h[k].entries[h[k].effects[j]].job.id
  {
    InvAlways(h, steps, k);
  }

  /** A consumed entry stays consumed, an uncertain one uncertain, and its job is never replaced. */
  lemma {:induction false} ConsumedForever(h: seq<Machine>, steps: seq<Step>, j: nat, k: nat, key: string)
    requires IsHistory(h, steps) && j <= k < |h| && key in h[j].entries
    ensures key in h[k].entries && h[k].entries[key].job == h[j].entries[key].job
    ensures h[j].entries[key].claimed ==> h[k].entries[key].claimed
    ensures h[j].entries[key].uncertain ==> h[k].entries[key].uncertain
    decreases k
  {
    hide After, Enabled;
    if j < k {
      ConsumedForever(h, steps, j, k - 1, key);
      EntryKept(h[k - 1], steps[k - 1], key);
    }
  }

  lemma EntryKept(s: Machine, step: Step, key: string)
    requires Enabled(s, step) && key in s.entries
    ensures var t := After(s, step);
            key in t.entries && t.entries[key].job == s.entries[key].job
            && (s.entries[key].claimed ==> t.entries[key].claimed)
            && (s.entries[key].uncertain ==> t.entries[key].uncertain)
  {
    hide Heard;
  }

  // ----- a whole run is steps of the machine -------------------------------------------------------

  /** The steps, taken in order from `s`, end in `last`. */
  ghost predicate Leads(s: Machine, steps: seq<Step>, last: Machine)
    decreases |steps|
  {
    if steps == [] then s == last
    else Enabled(s, steps[0]) && Leads(After(s, steps[0]), steps[1..], last)
  }

  lemma LeadsStep(s: Machine, step: Step, next: Machine, rest: seq<Step>, last: Machine)
    requires Enabled(s, step) && next == After(s, step) && Leads(next, rest, last)
    ensures Leads(s, [step] + rest, last)
  {
    hide After, Enabled;
    assert ([step] + rest)[1..] == rest;
  }

  lemma {:induction false} LeadsKeepInv(s: Machine, steps: seq<Step>, last: Machine)
    requires MachineInv(s) && Leads(s, steps, last)
    ensures MachineInv(last)
    decreases |steps|
  {
    hide After, Enabled, MachineInv;
    if steps != [] {
      MachineKeeps(s, steps[0]);
      LeadsKeepInv(After(s, steps[0]), steps[1..], last);
    }
  }

  lemma TimesAdd(key: string, a: nat, b: nat)
    ensures Times(key, a) + Times(key, b) == Times(key, a + b)
  {
  }

  lemma {:induction false} CallsKept(t: Talk, job: Job, m: Method, w: World, i: nat)
    requires i <= |w.packets|
    ensures |t.calls| <= |Converse(t, job, m, w, i).calls|
    decreases |w.packets| - i
  {
    hide OnPacket;
    if i < |w.packets| {
      CallsGrow(t, job, m, w, w.packets[i], IsLast(w, i));
      var n := OnPacket(t, job, m, w, w.packets[i], IsLast(w, i));
      if n.Continue? { CallsKept(n.t, job, m, w, i + 1); }
    }
  }

  /** The machine when the run has heard all it will hear. */
  function HeardOut(s: Machine, run: RunId): Machine
    requires Enabled(s, Hear(run))
  {
    var a := s.active[run];
    var e := Converse(a.talk.value, s.entries[a.key].job, a.m, a.w, a.i);
    Ended(s, run, e).(effects := s.effects + Times(a.key, |e.calls| - |a.talk.value.calls|))
  }

  lemma HearStops(s: Machine, run: RunId)
    requires Enabled(s, Hear(run)) && Heard(s.entries[s.active[run].key].job, s.active[run]).Stop?
    ensures After(s, Hear(run)) == HeardOut(s, run)
  {
    hide OnPacket;
  }

  lemma HearGoesOn(s: Machine, run: RunId)
    requires Enabled(s, Hear(run)) && Heard(s.entries[s.active[run].key].job, s.active[run]).Continue?
    ensures var t := After(s, Hear(run));
            Enabled(t, Hear(run)) && HeardOut(t, run) == HeardOut(s, run)
            && t.active[run].w == s.active[run].w && t.active[run].i == s.active[run].i + 1
  {
    hide OnPacket;
    var a := s.active[run];
    var job := s.entries[a.key].job;
    var t, talk := After(s, Hear(run)), Heard(job, a).t;
    CallsGrow(a.talk.value, job, a.m, a.w, a.w.packets[a.i], IsLast(a.w, a.i));
    CallsKept(talk, job, a.m, a.w, a.i + 1);
    var e := Converse(talk, job, a.m, a.w, a.i + 1);
    TimesAdd(a.key, |talk.calls| - |a.talk.value.calls|, |e.calls| - |talk.calls|);
    assert t.active - {run} == s.active - {run};
  }

  /** Hearing to the end is the conversation, with its effects and its mark. */
  lemma {:induction false} HearsOut(s: Machine, run: RunId, left: nat) returns (steps: seq<Step>)
    requires Enabled(s, Hear(run)) && s.active[run].i + left == |s.active[run].w.packets|
    ensures Leads(s, steps, HeardOut(s, run))
    decreases left
  {
    var last := HeardOut(s, run);
    var t := After(s, Hear(run));
    if Heard(s.entries[s.active[run].key].job, s.active[run]).Stop? {
      HearStops(s, run);
      hide After, HeardOut, Leads;
      Arrived(last);
      LeadsStep(s, Hear(run), last, [], last);
      steps := [Hear(run)] + [];
    } else {
      HearGoesOn(s, run);
      hide After, HeardOut, Leads;
      var rest := HearsOut(t, run, left - 1);
      LeadsStep(s, Hear(run), t, rest, last);
      steps := [Hear(run)] + rest;
    }
  }

  lemma Arrived(s: Machine)
    ensures Leads(s, [], s)
  {
  }

  // ----- the bridge object -----------------------------------------------------------------------

  datatype RunError =
    | NotEnrolled | Consumed | NotAcquired | NoEffect
    | Unverified(operationId: Option<string>, cause: Failure)

  function Key(m: Method, digest: string): string { m.Name() + ":" + digest }

  /** A key is the method's name in the protocol and the digest of the selector. */
  lemma KeyIs(digest: string)
    ensures Key(Handoff, digest) == "commitHandoff:" + digest && Key(Input, digest) == "submit:" + digest
    ensures Key(Register, digest) == "registerProviderBinding:" + digest
    ensures Key(Activate, digest) == "activateProviderBinding:" + digest
    ensures Key(Recover, digest) == "recoverUnsent:" + digest
  {
    assert "commitHandoff" + ":" == "commitHandoff:" && "submit" + ":" == "submit:";
    assert "registerProviderBinding" + ":" == "registerProviderBinding:";
    assert "activateProviderBinding" + ":" == "activateProviderBinding:";
    assert "recoverUnsent" + ":" == "recoverUnsent:";
  }

  /** Methods never share a key, nor do two selectors of a method. */
  lemma KeyInjective(m: Method, digest: string, n: Method, other: string)
    requires Key(m, digest) == Key(n, other)
    ensures m == n && digest == other
  {
    var a, b := Key(m, digest), Key(n, other);
    assert a[0] == m.Name()[0] && b[0] == n.Name()[0] && a[2] == m.Name()[2] && b[2] == n.Name()[2];
    assert digest == a[|m.Name()| + 1..] && other == b[|n.Name()| + 1..];
  }

  predicate WellFormedJob(m: Method, job: Job) {
    job.jobMethod == m && job.id != "" && '\0' !in job.id && job.directoryAbsolute
    && |job.args| == if m.Input? then 2 else 1
  }

  /** Where a run that claimed `key` leaves the machine. */
  function Ran(s: Machine, key: string, acquires: bool, m: Method, w: World): Machine
    requires key in s.entries
  {
    var e := Exchange(s.entries[key].job, m, w);
    var unverified := acquires && e.result.Err? && !e.knownNoEffect;
    var entry := s.entries[key].(claimed := true, uncertain := s.entries[key].uncertain || unverified);
    s.(entries := s.entries[key := entry], next := s.next + 1,
       effects := if acquires then s.effects + Times(key, |e.calls|) else s.effects)
  }

  /** The machine after one run from `s`, and the run's answer. */
  ghost predicate RunLaw(s: Machine, key: string, acquires: bool, m: Method, w: World, t: Machine,
                         result: Result<Json, RunError>) {
    if key !in s.entries then
      result == Err(NotEnrolled) && t == s
    else if s.entries[key].claimed then
      result == Err(Consumed) && t == s
    else
      var e := Exchange(s.entries[key].job, m, w);
      && t == Ran(s, key, acquires, m, w) && EndingLaw(e, s.entries[key].job, m, w)
      && result == if !acquires then Err(NotAcquired)
                   else if e.knownNoEffect then Err(NoEffect)
                   else match e.result
                        case Ok(value) => Ok(value)
                        case Err(f) => Err(Unverified(e.operationId, f))
  }

  class Bridge {
    var entries: map<string, Entry>
    ghost var runs: nat
    ghost var effects: seq<string>

    ghost function Abs(): Machine
      reads this
    {
      Machine(entries, map[], runs, effects)
    }

    ghost predicate Valid()
      reads this
    {
      MachineInv(Abs())
    }

    constructor ()
      ensures Valid() && entries == map[] && effects == []
    {
      entries, runs, effects := map[], 0, [];
    }

    method EnrollJob(m: Method, digest: string, job: Job) returns (ok: bool)
      requires Valid()
      modifies this
      ensures Valid() && effects == old(effects) && runs == old(runs)
      ensures ok <==> job.jobMethod == m && |job.id| > 0 && (forall i | 0 <= i < |job.id| :: job.id[i] != '\0')
                      && job.directoryAbsolute && |job.args| == (match m case Input => 2 case _ => 1)
                      && Key(m, digest) !in old(entries)
                      && forall k | k in old(entries) :: old(entries)[k].job.id != job.id
      ensures ok ==> var step := Enroll(Key(m, digest), job);
                     Enabled(old(Abs()), step) && Abs() == After(old(Abs()), step)
      ensures entries == if ok then old(entries)[Key(m, digest) := Entry(job, false, false)] else old(entries)
    {
      var key := Key(m, digest);
      if !WellFormedJob(m, job) {
        return false;
      }
      if key in entries || exists k | k in entries :: entries[k].job.id == job.id {
        return false;
      }
      MachineKeeps(Abs(), Enroll(key, job));
      entries := entries[key := Entry(job, false, false)];
      ok := true;
    }

    /** Consume an enrolled job, once. */
    method ClaimJob(key: string) returns (claimed: Result<Job, RunError>)
      modifies this`entries
      ensures claimed == if key !in old(entries) then Err(NotEnrolled)
                         else if old(entries)[key].claimed then Err(Consumed)
                         else Ok(old(entries)[key].job)
      ensures entries == if claimed.Ok? then old(entries)[key := old(entries)[key].(claimed := true)] else old(entries)
    {
      if key !in entries {
        return Err(NotEnrolled);
      }
      if entries[key].claimed {
        return Err(Consumed);
      }
      entries := entries[key := entries[key].(claimed := true)];
      claimed := Ok(entries[key].job);
    }

    method MarkUncertain(key: string)
      modifies this`entries
      ensures entries == if key in old(entries) then old(entries)[key := old(entries)[key].(uncertain := true)]
                         else old(entries)
    {
      if key in entries {
        entries := entries[key := entries[key].(uncertain := true)];
      }
    }

    /**
     One call of `run`. A job that is not enrolled or already consumed is refused with nothing
     changed. Otherwise it is consumed, its effects are those of its exchange, and every failure
     once the resources are held marks it uncertain, except the exit that certifies no effect.
     */
    method Run(m: Method, digest: string, acquires: bool, w: World) returns (result: Result<Json, RunError>)
      requires Valid()
      modifies this
      ensures Valid()
      ensures RunLaw(old(Abs()), Key(m, digest), acquires, m, w, Abs(), result)
    {
      hide Exchange, MachineInv, EndingLaw, Ran;
      var key := Key(m, digest);
      var claimed := ClaimJob(key);
      if claimed.Err? {
        return Err(claimed.error);
      }
      ghost var before := old(Abs());
      ghost var steps := RanKeeps(before, key, acquires, m, w);
      RanIs(before, key, acquires, m, w);
      ExchangeLaw(claimed.value, m, w);
      runs := runs + 1;
      if !acquires {
        return Err(NotAcquired);
      }
      var e := RunExchange(claimed.value, m, w);
      effects := effects + Times(key, |e.calls|);
      if e.knownNoEffect {
        return Err(NoEffect);
      }
      if e.result.Err? {
        MarkUncertain(key);
        return Err(Unverified(e.operationId, e.result.error));
      }
      result := Ok(e.result.value);
    }
  }

  lemma RanIs(s: Machine, key: string, acquires: bool, m: Method, w: World)
    requires MachineInv(s) && key in s.entries && !s.entries[key].claimed
    ensures var e, claimed := Exchange(s.entries[key].job, m, w), s.entries[key := s.entries[key].(claimed := true)];
            Ran(s, key, acquires, m, w)
            == s.(entries := if acquires && e.result.Err? && !e.knownNoEffect
                             then claimed[key := claimed[key].(uncertain := true)] else claimed,
                  next := s.next + 1,
                  effects := if acquires then s.effects + Times(key, |e.calls|) else s.effects)
  {
    hide Exchange;
  }

  /** The machine once `run` has claimed and, if it can, begun. */
  function Claimed(s: Machine, key: string, m: Method, w: World, talk: Option<Talk>): Machine
    requires key in s.entries
  {
    s.(entries := s.entries[key := s.entries[key].(claimed := true)],
       active := s.active[s.next := Active(key, m, w, talk, 0)], next := s.next + 1)
  }

  lemma ClaimAndBegin(s: Machine, key: string, m: Method, w: World)
    requires Enabled(s, Claim(key, m, w))
    ensures After(s, Claim(key, m, w)) == Claimed(s, key, m, w, None)
    ensures var c := Claimed(s, key, m, w, None);
            Enabled(c, Abandon(s.next)) && Enabled(c, Begin(s.next))
            && (w.starts && w.writes(0) ==>
                  After(c, Begin(s.next)) == Claimed(s, key, m, w, Some(FRESH))
                  && Enabled(Claimed(s, key, m, w, Some(FRESH)), Hear(s.next)))
  {
  }

  /** However the run ends, it is gone and its entry and effects are those of its exchange. */
  lemma RunEnds(s: Machine, key: string, acquires: bool, m: Method, w: World)
    requires MachineInv(s) && key in s.entries && !s.entries[key].claimed
    ensures var c, last := Claimed(s, key, m, w, None), Ran(s, key, acquires, m, w);
            && Enabled(s, Claim(key, m, w))
            && (!acquires ==> After(c, Abandon(s.next)) == last)
            && (acquires && !(w.starts && w.writes(0)) ==> After(c, Begin(s.next)) == last)
            && (acquires && w.starts && w.writes(0) ==> HeardOut(Claimed(s, key, m, w, Some(FRESH)), s.next) == last)
  {
    assert s.next !in s.active;
    RanIs(s, key, acquires, m, w);
    hide Converse, MachineInv;
    assert s.active[s.next := Active(key, m, w, None, 0)] - {s.next} == s.active;
    assert s.active[s.next := Active(key, m, w, Some(FRESH), 0)] - {s.next} == s.active;
  }

  /** One call of `run`, from its claim to its end, is steps of the concurrent machine. */
  lemma RanIsHistory(s: Machine, key: string, acquires: bool, m: Method, w: World) returns (steps: seq<Step>)
    requires MachineInv(s) && key in s.entries && !s.entries[key].claimed
    ensures Leads(s, steps, Ran(s, key, acquires, m, w))
  {
    var run, last := s.next, Ran(s, key, acquires, m, w);
    RunEnds(s, key, acquires, m, w);
    ClaimAndBegin(s, key, m, w);
    hide After, Enabled, Leads, Ran, HeardOut, Claimed, MachineInv;
    var s1 := Claimed(s, key, m, w, None);
    Arrived(last);
    var rest: seq<Step>;
    if !acquires {
      rest := [Abandon(run)] + [];
      LeadsStep(s1, Abandon(run), last, [], last);
    } else if !w.starts || !w.writes(0) {
      rest := [Begin(run)] + [];
      LeadsStep(s1, Begin(run), last, [], last);
    } else {
      var s2 := Claimed(s, key, m, w, Some(FRESH));
      var heard := HearsOut(s2, run, |w.packets|);
      rest := [Begin(run)] + heard;
      LeadsStep(s1, Begin(run), s2, heard, last);
    }
    steps := [Claim(key, m, w)] + rest;
    LeadsStep(s, Claim(key, m, w), s1, rest, last);
  }

  /** So it keeps the invariant of the machine. */
  lemma RanKeeps(s: Machine, key: string, acquires: bool, m: Method, w: World) returns (steps: seq<Step>)
    requires MachineInv(s) && key in s.entries && !s.entries[key].claimed
    ensures Leads(s, steps, Ran(s, key, acquires, m, w)) && MachineInv(Ran(s, key, acquires, m, w))
  {
    hide Leads, Ran, MachineInv;
    steps := RanIsHistory(s, key, acquires, m, w);
    LeadsKeepInv(s, steps, Ran(s, key, acquires, m, w));
  }
}
