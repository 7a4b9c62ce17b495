/**
 The native ends of the handoff: `execute` and `deliver_input_owned` of
 `src-tauri/src/handoff_native.rs`, `register` and `activate` of
 `src-tauri/src/handoff_native_binding.rs`. Each hands the private host a callback and then judges
 the host's answer. The host is adversarial: it may call back any number of times, with any
 intents, and answer anything. Sessions answer each effect as they like; `digest` stands for SHA-256
 in hexadecimal. Texts are their UTF-8 bytes.
 */
module NativeCallbacks {
  import opened Common

  type Text = seq<u8>

  datatype Descriptor = Descriptor(path: Text, sha256: Text, generation: Text)
  datatype Draft = Draft(text: Text, sha256: Text, bytes: nat)
  datatype Launch = Launch(provider: Text, command: Text, cwd: Option<Text>, cols: nat, rows: nat)

  datatype Proposal = Proposal(
    requestId: Text, sourcePane: Text, sourceSession: Text, targetPane: Text, targetSession: Option<Text>,
    descriptor: Descriptor, launch: Launch, unsentText: Text, startupText: Text)

  datatype Intent = Intent(
    operationId: Text, actionHash: Text, requestId: Text, sourcePane: Text, sourceSession: Text,
    targetPane: Text, targetSession: Text, descriptor: Descriptor, generation: Text, head: Text,
    through: nat, epoch: nat, checkpointHash: Text, decisionHash: Text, decisionRevision: nat,
    launch: Launch, draft: Draft, startupTask: Draft, sourceRunId: Text, sourcePid: nat)

  datatype NativeRun = NativeRun(pane: Text, runId: Text, pid: nat)
  datatype EffectReceipt = EffectReceipt(intent: Intent, target: NativeRun)

  datatype InputIntent = InputIntent(
    id: Text, originalId: Text, eventHash: Text, acceptedHead: Text, through: nat, sourcePane: Text,
    sourceSession: Text, targetPane: Text, targetSession: Text, sourceRoute: Text, targetRoute: Text,
    providerBindingHash: Text, lifecycleOperationId: Option<Text>, generation: Option<Text>,
    sourceOwnership: NativeRun, targetOwnership: NativeRun, questionOwnership: Option<Text>,
    wire: Text, wireBytes: nat, wireSha256: Text, providerChoice: bool)

  datatype Route = Route(pane: Text, logicalSession: Text, actualSession: Text, ownership: NativeRun)

  datatype Registration = Registration(
    id: Text, head: Text, through: nat, generation: Text, lifecycleOperationId: Option<Text>, revision: nat,
    providerBindingHash: Text, source: Route, target: Option<Route>)

  datatype Activation = Activation(
    id: Text, head: Text, through: nat, checkpointHash: Text, decisionHash: Text, decisionRevision: nat,
    epoch: nat, generation: Text, bindingGeneration: Text, providerBindingHash: Text, bindingRevision: nat,
    lifecycleOperationId: Text, targetPane: Text, targetSession: Text, targetRoute: Text,
    targetOwnership: NativeRun, startupTask: Draft, wire: Text, wireBytes: nat, wireSha256: Text)

  // ----- what an intent must satisfy ------------------------------------------------------

  predicate Identity(s: Text) { s != [] && 0 !in s }

  predicate Hash(s: Text) {
    |s| == 64 && forall i | 0 <= i < 64 :: 0x30 <= s[i] <= 0x39 || 0x61 <= s[i] <= 0x66
  }

  const HEX: Text :=
    [0x30, 0x31, 0x32, 0x33, 0x34, 0x35, 0x36, 0x37, 0x38, 0x39, 0x61, 0x62, 0x63, 0x64, 0x65, 0x66]

  /** A hash is 64 lower-case hexadecimal digits. */
  lemma HashIs(s: Text)
    ensures Hash(s) <==> |s| == 64 && forall b | b in s :: b in HEX
  {
    forall i | 0 <= i < |s| ensures s[i] in s && (s[i] in HEX <==> 0x30 <= s[i] <= 0x39 || 0x61 <= s[i] <= 0x66) {
      InHex(s[i]);
    }
  }

  lemma InHex(b: u8)
    ensures b in HEX <==> 0x30 <= b <= 0x39 || 0x61 <= b <= 0x66
  {
    if 0x30 <= b <= 0x39 { assert HEX[b as int - 0x30] == b; }
    if 0x61 <= b <= 0x66 { assert HEX[b as int - 0x57] == b; }
  }

  predicate Sealed(d: Draft, digest: Text -> Text) { d.bytes == |d.text| && d.sha256 == digest(d.text) }

  const CLAUDE: Text := [0x63, 0x6c, 0x61, 0x75, 0x64, 0x65]
  const CODEX: Text := [0x63, 0x6f, 0x64, 0x65, 0x78]
  const OPENCODE: Text := [0x6f, 0x70, 0x65, 0x6e, 0x63, 0x6f, 0x64, 0x65]

  predicate ValidIntent(p: Proposal, i: Intent, digest: Text -> Text) {
    && Identity(i.operationId) && Hash(i.actionHash) && Hash(i.head) && Hash(i.checkpointHash) && Hash(i.decisionHash)
    && i.through != 0 && i.decisionRevision != 0 && Identity(i.generation)
    && Identity(i.sourceSession) && Identity(i.targetSession)
    && i.sourceSession != i.targetSession && i.sourcePane != i.targetPane
    && i.requestId == p.requestId && i.sourcePane == p.sourcePane && i.sourceSession == p.sourceSession
    && i.targetPane == p.targetPane && (p.targetSession.Some? ==> p.targetSession.value == i.targetSession)
    && i.descriptor == p.descriptor && [0x2f] <= i.descriptor.path && Hash(i.descriptor.sha256)
    && Identity(i.descriptor.generation)
    && i.launch == p.launch && i.launch.provider in [CLAUDE, CODEX, OPENCODE] && Identity(i.launch.command)
    && i.launch.cols != 0 && i.launch.rows != 0
    && i.draft.text == p.unsentText && Sealed(i.draft, digest)
    && i.startupTask.text == p.startupText && Sealed(i.startupTask, digest) && Identity(i.startupTask.text)
    && Identity(i.sourceRunId) && i.sourcePid != 0
  }

  /** What a proposal must be like for any intent at all to be accepted for it. */
  predicate Serviceable(p: Proposal) {
    && p.sourcePane != p.targetPane && Identity(p.sourceSession) && Identity(p.startupText)
    && (p.targetSession.Some? ==> Identity(p.targetSession.value) && p.targetSession.value != p.sourceSession)
    && |p.descriptor.path| > 0 && p.descriptor.path[0] == 0x2f
    && Hash(p.descriptor.sha256) && Identity(p.descriptor.generation)
    && (p.launch.provider == CLAUDE || p.launch.provider == CODEX || p.launch.provider == OPENCODE)
    && Identity(p.launch.command) && p.launch.cols > 0 && p.launch.rows > 0
  }

  const ZEROS: Text := seq(64, _ => 0x30)

  /** For exactly these proposals some intent is accepted. */
  lemma ServiceableIff(p: Proposal, digest: Text -> Text)
    ensures Serviceable(p) <==> exists i :: ValidIntent(p, i, digest)
  {
    if Serviceable(p) {
      var other := p.sourceSession + [0x2d];
      var i := Intent(
        [0x31], ZEROS, p.requestId, p.sourcePane, p.sourceSession, p.targetPane,
        if p.targetSession.Some? then p.targetSession.value else other, p.descriptor, [0x31], ZEROS, 1, 0,
        ZEROS, ZEROS, 1, p.launch, Draft(p.unsentText, digest(p.unsentText), |p.unsentText|),
        Draft(p.startupText, digest(p.startupText), |p.startupText|), [0x31], 1);
      assert ValidIntent(p, i, digest);
    }
  }

  /** The started run is the target's, and is not the source's run or process. */
  predicate VerifiedTarget(i: Intent, t: NativeRun) {
    t.pane == i.targetPane && Identity(t.runId) && t.runId != i.sourceRunId && t.pid != 0 && t.pid != i.sourcePid
  }

  predicate ValidInput(i: InputIntent, digest: Text -> Text) {
    && Identity(i.id) && Identity(i.originalId) && Hash(i.eventHash) && Hash(i.acceptedHead) && i.through != 0
    && Identity(i.sourcePane) && Identity(i.targetPane)
    && i.generation.Some? && Identity(i.generation.value)
    && (i.lifecycleOperationId.Some? ==> Identity(i.lifecycleOperationId.value))
    && Identity(i.sourceSession) && Identity(i.sourceRoute) && Identity(i.targetRoute)
    && Hash(i.providerBindingHash) && Identity(i.targetSession)
    && i.sourceOwnership.pane == i.sourcePane && i.targetOwnership.pane == i.targetPane
    && i.sourceOwnership.pid != 0 && i.targetOwnership.pid != 0
    && Identity(i.sourceOwnership.runId) && Identity(i.targetOwnership.runId)
    && (if i.sourcePane == i.targetPane
        then i.sourceSession == i.targetSession && i.sourceRoute == i.targetRoute
             && i.sourceOwnership == i.targetOwnership
        else i.sourceOwnership.runId != i.targetOwnership.runId && i.sourceOwnership.pid != i.targetOwnership.pid)
    && i.wire != [] && |i.wire| == i.wireBytes && digest(i.wire) == i.wireSha256
    && (i.providerChoice ==> i.questionOwnership.Some? && Identity(i.questionOwnership.value))
  }

  predicate ValidRoute(r: Route) {
    Identity(r.pane) && Identity(r.actualSession) && Identity(r.logicalSession)
    && r.pane == r.ownership.pane && Identity(r.ownership.runId) && r.ownership.pid > 0
  }

  predicate ValidRegistration(i: Registration) {
    && Identity(i.id) && Hash(i.head) && i.through != 0 && Identity(i.generation) && i.revision != 0
    && Hash(i.providerBindingHash) && ValidRoute(i.source) && i.source.actualSession == i.source.logicalSession
    && (i.target.Some? <==> i.lifecycleOperationId.Some?)
    && (i.target.Some? ==>
          var t := i.target.value;
          ValidRoute(t) && t.pane != i.source.pane && t.actualSession != i.source.actualSession
          && t.actualSession != t.logicalSession && t.ownership.runId != i.source.ownership.runId
          && t.ownership.pid != i.source.ownership.pid)
  }

  // ESC [ 2 0 0 ~  and  ESC [ 2 0 1 ~
  const PASTE_BEGINS: Text := [0x1b, 0x5b, 0x32, 0x30, 0x30, 0x7e]
  const PASTE_ENDS: Text := [0x1b, 0x5b, 0x32, 0x30, 0x31, 0x7e]

  /** The startup text as a bracketed paste followed by a return. */
  function Pasted(text: Text): Text {
    [0x1b, 0x5b, 0x32, 0x30, 0x30, 0x7e] + text + [0x1b, 0x5b, 0x32, 0x30, 0x31, 0x7e, 0x0d]
  }

  predicate ValidActivation(i: Activation, digest: Text -> Text) {
    && Identity(i.id) && Hash(i.head) && i.through != 0 && Hash(i.checkpointHash) && Hash(i.decisionHash)
    && i.decisionRevision != 0 && Identity(i.generation) && Identity(i.bindingGeneration)
    && Hash(i.providerBindingHash) && i.bindingRevision != 0 && Identity(i.lifecycleOperationId)
    && Identity(i.targetSession) && i.targetSession != i.targetRoute && Identity(i.targetRoute)
    && i.targetPane == i.targetOwnership.pane && i.targetOwnership.pid != 0 && Identity(i.targetOwnership.runId)
    && i.startupTask.text != [] && Sealed(i.startupTask, digest)
    && i.wire == Pasted(i.startupTask.text) && i.wireBytes == |i.wire| && i.wireSha256 == digest(i.wire)
  }

  // ----- what can be accepted at all ---------------------------------------------------------

  /** A process of its own, by run and number. */
  predicate Owned(r: NativeRun) { r.runId != [] && (forall b | b in r.runId :: b != 0) && r.pid >= 1 }

  /** Two processes that share neither. */
  predicate Apart(a: NativeRun, b: NativeRun) { a.runId != b.runId && a.pid != b.pid }

  /** Where an input may come from and go to: between two owners, or within one place. */
  predicate Deliverable(source: Route, target: Route) {
    && Identity(source.pane) && Identity(source.actualSession) && Identity(source.logicalSession)
    && Identity(target.pane) && Identity(target.actualSession) && Identity(target.logicalSession)
    && source.ownership.pane == source.pane && target.ownership.pane == target.pane
    && Owned(source.ownership) && Owned(target.ownership)
    && (source == target || (source.pane != target.pane && Apart(source.ownership, target.ownership)))
  }

  /** For exactly these places and any bytes at all, an input is accepted. */
  lemma DeliverableIff(source: Route, target: Route, wire: Text, digest: Text -> Text)
    ensures Deliverable(source, target) && wire != [] <==>
            exists i :: ValidInput(i, digest) && i.wire == wire && Carries(i, source, target)
  {
    if Deliverable(source, target) && wire != [] {
      var i := InputIntent(
        [0x31], [0x31], ZEROS, ZEROS, 1, source.pane, source.actualSession, target.pane, target.actualSession,
        source.logicalSession, target.logicalSession, ZEROS, None, Some([0x31]), source.ownership, target.ownership,
        None, wire, |wire|, digest(wire), false);
      assert ValidInput(i, digest) && i.wire == wire && Carries(i, source, target);
    }
  }

  predicate Carries(i: InputIntent, source: Route, target: Route) {
    && source == Route(i.sourcePane, i.sourceRoute, i.sourceSession, i.sourceOwnership)
    && target == Route(i.targetPane, i.targetRoute, i.targetSession, i.targetOwnership)
  }

  predicate Standing(r: Route) {
    && Identity(r.pane) && Identity(r.actualSession) && Identity(r.logicalSession)
    && r.ownership.pane == r.pane && Owned(r.ownership)
  }

  /** A source on its own route, and a target, if any, elsewhere on another's. */
  predicate Registrable(source: Route, target: Option<Route>) {
    && Standing(source) && source.actualSession == source.logicalSession
    && match target
       case None => true
       case Some(t) => Standing(t) && t.pane != source.pane && Apart(t.ownership, source.ownership)
                       && t.actualSession !in {t.logicalSession, source.actualSession}
  }

  /** For exactly these routes a registration is accepted. */
  lemma RegistrableIff(source: Route, target: Option<Route>)
    ensures Registrable(source, target) <==>
            exists i :: ValidRegistration(i) && i.source == source && i.target == target
  {
    if Registrable(source, target) {
      var operation: Option<Text> := if target.Some? then Some([0x31]) else None;
      var i := Registration([0x31], ZEROS, 1, [0x31], operation, 1, ZEROS, source, target);
      assert ValidRegistration(i) && i.source == source && i.target == target;
    }
  }

  /** For exactly these places and texts a provider's start is accepted. */
  lemma ActivatableIff(place: Route, text: Text, digest: Text -> Text)
    ensures (place.pane == place.ownership.pane && Owned(place.ownership) && Identity(place.actualSession)
             && Identity(place.logicalSession) && place.actualSession != place.logicalSession && text != [])
            <==> exists i :: ValidActivation(i, digest) && i.startupTask.text == text && Starts(i, place)
  {
    if place.pane == place.ownership.pane && Owned(place.ownership) && Identity(place.actualSession)
       && Identity(place.logicalSession) && place.actualSession != place.logicalSession && text != [] {
      var wire := Pasted(text);
      var i := Activation(
        [0x31], ZEROS, 1, ZEROS, ZEROS, 1, 0, [0x31], [0x31], ZEROS, 1, [0x31], place.pane, place.actualSession,
        place.logicalSession, place.ownership, Draft(text, digest(text), |text|), wire, |wire|, digest(wire));
      assert ValidActivation(i, digest) && i.startupTask.text == text && Starts(i, place);
    }
  }

  predicate Starts(i: Activation, place: Route) {
    place == Route(i.targetPane, i.targetRoute, i.targetSession, i.targetOwnership)
  }

  // ----- the callback and the judgement ----------------------------------------------------

  /** A host's behaviour: the intents it calls back with, in order, and its final answer. */
  datatype Host<I, R> = Host(calls: seq<I>, answer: Option<R>)

  /** Success with the host's receipt, or a failure naming the operation to reconcile. */
  datatype Judged<R> = Certified(receipt: R) | Unavailable | Unverified(operation: Option<Text>)

  /** The receipt of the effect, once it succeeded. */
  function FirstReceipt<I, R>(calls: seq<I>, valid: I -> bool, effect: I -> Option<R>): Option<R> {
    if calls != [] && valid(calls[0]) then effect(calls[0]) else None
  }

  /**
   The callback under attack. Of all the host's calls only the first can have an effect, and only
   if its intent is valid; the operation named later is that of the first call.
   */
  method Serve<I, R>(calls: seq<I>, valid: I -> bool, effect: I -> Option<R>, id: I -> Text)
    returns (entered: bool, operation: Option<Text>, receipt: Option<R>, performed: seq<I>)
    ensures entered <==> calls != []
    ensures operation == if calls == [] then None else Some(id(calls[0]))
    ensures receipt == FirstReceipt(calls, valid, effect)
    ensures performed == if calls != [] && valid(calls[0]) then [calls[0]] else []
  {
    entered, operation, receipt, performed := false, None, None, [];
    for k := 0 to |calls|
      invariant entered <==> k > 0
      invariant operation == if k == 0 then None else Some(id(calls[0]))
      invariant receipt == if k == 0 then None else FirstReceipt(calls, valid, effect)
      invariant performed == if k > 0 && valid(calls[0]) then [calls[0]] else []
    {
      if !entered {
        entered := true;
        operation := Some(id(calls[k]));
        if valid(calls[k]) {
          performed := performed + [calls[k]];
          receipt := effect(calls[k]);
        }
      }
    }
  }

  /** What is certified is exactly a successful effect of a valid first intent, echoed by the host. */
  ghost predicate JudgedRight<I, R>(j: Judged<R>, performed: seq<I>, host: Host<I, R>,
                                    valid: I -> bool, effect: I -> Option<R>, id: I -> Text) {
    && performed == (if host.calls != [] && valid(host.calls[0]) then [host.calls[0]] else [])
    && (j.Certified? <==>
          host.answer.Some? && host.calls != [] && valid(host.calls[0]) && effect(host.calls[0]) == host.answer)
    && (j.Certified? ==> host.answer == Some(j.receipt) && performed == [host.calls[0]])
    && (j.Certified? || j == Unverified(if host.calls == [] then None else Some(id(host.calls[0]))))
  }

  method Judge<I, R(==)>(host: Host<I, R>, valid: I -> bool, effect: I -> Option<R>, id: I -> Text)
    returns (j: Judged<R>, performed: seq<I>)
    ensures JudgedRight(j, performed, host, valid, effect, id)
  {
    var entered, operation, receipt;
    entered, operation, receipt, performed := Serve(host.calls, valid, effect, id);
    if host.answer.Some? && entered && receipt == host.answer {
      j := Certified(host.answer.value);
    } else {
      j := Unverified(operation);
    }
  }

  function OperationOf(i: Intent): Text { i.operationId }

  function InputOf(i: InputIntent): Text { i.id }

  function RegistrationOf(i: Registration): Text { i.id }

  function ActivationOf(i: Activation): Text { i.id }

  function StartReceipt(i: Intent, start: Intent -> Option<NativeRun>): Option<EffectReceipt> {
    match start(i)
    case None => None
    case Some(t) => if VerifiedTarget(i, t) then Some(EffectReceipt(i, t)) else None
  }

  /** `execute`: one fresh start at most, certified only for a verified target. */
  method Execute(p: Proposal, host: Option<Host<Intent, EffectReceipt>>,
                 start: Intent -> Option<NativeRun>, digest: Text -> Text)
    returns (j: Judged<EffectReceipt>, started: seq<Intent>)
    ensures host.None? ==> j.Unavailable? && started == []
    ensures host.Some? ==>
              JudgedRight(j, started, host.value, i => ValidIntent(p, i, digest), i => StartReceipt(i, start),
                          OperationOf)
    ensures host.Some? && !j.Certified? ==>
              j == Unverified(if host.value.calls == [] then None else Some(host.value.calls[0].operationId))
    ensures j.Certified? ==> ValidIntent(p, j.receipt.intent, digest)
                             && VerifiedTarget(j.receipt.intent, j.receipt.target)
                             && start(j.receipt.intent) == Some(j.receipt.target)
    ensures j.Certified? ==>
              var i, t := j.receipt.intent, j.receipt.target;
              && (i.requestId, i.descriptor, i.launch) == (p.requestId, p.descriptor, p.launch)
              && (i.sourcePane, i.sourceSession, i.targetPane) == (p.sourcePane, p.sourceSession, p.targetPane)
              && (p.targetSession.Some? ==> p.targetSession == Some(i.targetSession))
              && i.draft == Draft(p.unsentText, digest(p.unsentText), |p.unsentText|)
              && i.startupTask == Draft(p.startupText, digest(p.startupText), |p.startupText|)
              && p.sourcePane != p.targetPane && i.sourceSession != i.targetSession
              && t.pane == p.targetPane && Owned(t) && t.runId != i.sourceRunId && t.pid != i.sourcePid
  {
    if host.None? {
      return Unavailable, [];
    }
    j, started := Judge(host.value, i => ValidIntent(p, i, digest), i => StartReceipt(i, start), OperationOf);
  }

  /** `deliver_input_owned`: the receipt is the intent itself, once the write succeeded. */
  method DeliverInput(host: Option<Host<InputIntent, InputIntent>>, write: InputIntent -> bool, digest: Text -> Text)
    returns (j: Judged<InputIntent>, written: seq<InputIntent>)
    ensures host.None? ==> j.Unavailable? && written == []
    ensures host.Some? ==>
              JudgedRight(j, written, host.value, i => ValidInput(i, digest), i => Echo(i, write), InputOf)
    ensures host.Some? && !j.Certified? ==>
              j == Unverified(if host.value.calls == [] then None else Some(host.value.calls[0].id))
    ensures j.Certified? ==> ValidInput(j.receipt, digest) && write(j.receipt) && written == [j.receipt]
    ensures j.Certified? ==>
              var i := j.receipt;
              && i.wire != [] && i.wireBytes == |i.wire| && i.wireSha256 == digest(i.wire)
              && i.sourceOwnership.pane == i.sourcePane && i.targetOwnership.pane == i.targetPane
              && (i.sourceOwnership == i.targetOwnership <==> i.sourcePane == i.targetPane)
  {
    if host.None? {
      return Unavailable, [];
    }
    j, written := Judge(host.value, i => ValidInput(i, digest), i => Echo(i, write), InputOf);
  }

  function Echo<I>(i: I, effect: I -> bool): Option<I> { if effect(i) then Some(i) else None }

  method RegisterProvider(host: Host<Registration, Registration>, register: Registration -> bool)
    returns (j: Judged<Registration>, registered: seq<Registration>)
    ensures JudgedRight(j, registered, host, i => ValidRegistration(i), i => Echo(i, register), RegistrationOf)
    ensures !j.Certified? ==> j == Unverified(if host.calls == [] then None else Some(host.calls[0].id))
    ensures j.Certified? ==> ValidRegistration(j.receipt) && register(j.receipt) && registered == [j.receipt]
    ensures j.Certified? && j.receipt.target.Some? ==>
              var s, t := j.receipt.source, j.receipt.target.value;
              && s.actualSession == s.logicalSession && t.actualSession != t.logicalSession
              && s.pane != t.pane && s.actualSession != t.actualSession
              && s.ownership.runId != t.ownership.runId && s.ownership.pid != t.ownership.pid
  {
    j, registered := Judge(host, i => ValidRegistration(i), i => Echo(i, register), RegistrationOf);
  }

  method ActivateProvider(host: Host<Activation, Activation>, activate: Activation -> bool, digest: Text -> Text)
    returns (j: Judged<Activation>, activated: seq<Activation>)
    ensures JudgedRight(j, activated, host, i => ValidActivation(i, digest), i => Echo(i, activate), ActivationOf)
    ensures !j.Certified? ==> j == Unverified(if host.calls == [] then None else Some(host.calls[0].id))
    ensures j.Certified? ==> ValidActivation(j.receipt, digest) && activate(j.receipt) && activated == [j.receipt]
                             && j.receipt.wire == PASTE_BEGINS + j.receipt.startupTask.text + PASTE_ENDS + [0x0d]
  {
    j, activated := Judge(host, i => ValidActivation(i, digest), i => Echo(i, activate), ActivationOf);
  }
}
