/**
 Claiming a queued request exactly once: `take` of `src-tauri/src/child_request_claim.rs`, run by
 any number of pollers as atomic file-system steps, with crashes anywhere and writers that publish
 a new request under the same name. An inode stands for one published generation of the request.
 */
module RequestClaim {
  import opened Common

  type Poller = nat
  type Inode = nat

  /** Where a poller stands inside `take`; `text` is what it has read, if anything. */
  datatype Stage =
    | Linked            // holds the claim, has not yet removed the request name
    | Unlinked          // the request name is gone, nothing read yet
    | Read(text: Option<Inode>)   // has read, or given up reading; the claim is still there
    | Returned

  /**
   `request` and `claimed` are the two names; `holder` is the poller that created the claim, live or
   crashed; `live` gives the stage of the pollers inside `take`; `delivered` the returned requests.
   */
  datatype State = State(
    request: Option<Inode>, claimed: Option<Inode>, holder: Option<Poller>, live: map<Poller, Stage>,
    used: set<Poller>, published: set<Inode>, delivered: seq<Inode>)

  datatype Step =
    | Publish(i: Inode)             // a writer renames a new file onto the request name
    | Link(p: Poller)               // hard_link(request, claimed): fails if the claim exists
    | Refused(p: Poller)            // hard_link failed: take returns None
    | Unlink(p: Poller)             // remove_file(request), whatever is there now
    | UnlinkFailed(p: Poller)       // the same, failing: its result is ignored
    | ReadText(p: Poller, ok: bool) // metadata and read of the claim; None when too large or unreadable
    | Release(p: Poller)            // remove_file(claimed), then return
    | ReleaseFailed(p: Poller)      // the same, with the removal failing
    | Crash(p: Poller)

  ghost predicate Enabled(s: State, step: Step) {
    match step
    case Publish(i) => i !in s.published
    case Link(p) => p !in s.used && s.request.Some? && s.claimed.None?
    case Refused(p) => p !in s.used && (s.request.None? || s.claimed.Some?)
    case Unlink(p) => p in s.live && s.live[p].Linked?
    case UnlinkFailed(p) => p in s.live && s.live[p].Linked?
    case ReadText(p, ok) => p in s.live && s.live[p].Unlinked? && (ok ==> s.claimed.Some?)
    case Release(p) => p in s.live && s.live[p].Read?
    case ReleaseFailed(p) => p in s.live && s.live[p].Read?
    case Crash(p) => p in s.live && !s.live[p].Returned?
  }

  ghost function After(s: State, step: Step): State
    requires Enabled(s, step)
  {
    match step
    case Publish(i) => s.(request := Some(i), published := s.published + {i})
    case Link(p) => s.(claimed := s.request, holder := Some(p), live := s.live[p := Linked], used := s.used + {p})
    case Refused(p) => s.(used := s.used + {p})
    case Unlink(p) => s.(request := None, live := s.live[p := Unlinked])
    case UnlinkFailed(p) => s.(live := s.live[p := Unlinked])
    case ReadText(p, ok) => s.(live := s.live[p := Read(if ok then s.claimed else None)])
    case Release(p) => Return(s, p).(claimed := None, holder := None)
    case ReleaseFailed(p) => Return(s, p)
    case Crash(p) => s.(live := s.live - {p})
  }

  /** The poller returns what it has read. */
  function Return(s: State, p: Poller): State
    requires p in s.live && s.live[p].Read?
  {
    var text := s.live[p].text;
    s.(live := s.live[p := Returned], delivered := if text.Some? then s.delivered + [text.value] else s.delivered)
  }

  /** A claim may be there from an earlier interruption; nothing else has happened. */
  ghost predicate Init(s: State) {
    && s.live == map[] && s.used == {} && s.delivered == [] && s.holder.None?
    && (s.request.Some? ==> s.request.value in s.published)
    && (s.claimed.Some? ==> s.claimed.value in s.published)
  }

  /** A poller between its link and its return. */
  ghost predicate Inside(s: State, p: Poller) { p in s.live && !s.live[p].Returned? }

  ghost predicate Inv(s: State) {
    && (forall p | p in s.live :: p in s.used)
    && (s.request.Some? ==> s.request.value in s.published)
    && (s.claimed.Some? ==> s.claimed.value in s.published)
    && (forall i | i in s.delivered :: i in s.published && s.request != Some(i))
    && (forall i, j | 0 <= i < j < |s.delivered| :: s.delivered[i] != s.delivered[j])
    && (forall p | Inside(s, p) :: Holds(s, p))
  }

  /**
   A poller inside holds the claim, alone. The claimed request has not been delivered; it has lost
   its own name once the poller is past that step; and what was read is what was claimed.
   */
  ghost predicate Holds(s: State, p: Poller)
    requires p in s.live
  {
    && s.holder == Some(p) && s.claimed.Some? && s.claimed.value !in s.delivered
    && (s.request == s.claimed ==> s.live[p].Linked?)
    && (s.live[p].Read? && s.live[p].text.Some? ==> s.live[p].text == s.claimed)
  }

  lemma InsideSince(s: State, step: Step, q: Poller)
    requires Enabled(s, step) && Inside(After(s, step), q)
    ensures Inside(s, q) || step == Link(q)
  {
  }

  /** The step fails to remove the name of the very request that has been claimed. */
  predicate LeavesName(s: State, step: Step) { step.UnlinkFailed? && s.request == s.claimed }

  /** Every other step keeps the invariant; a failure to remove a name taken over by a writer does no harm. */
  lemma StepKeepsInv(s: State, step: Step)
    requires Inv(s) && Enabled(s, step) && !LeavesName(s, step)
    ensures Inv(After(s, step))
  {
    var t := After(s, step);
    if step.Release? || step.ReleaseFailed? { assert Inside(s, step.p); }
    forall q | Inside(t, q) ensures Holds(t, q) {
      InsideSince(s, step, q);
      if Inside(s, q) { assert Holds(s, q); }
    }
  }

  // ----- over whole runs -------------------------------------------------------------------

  ghost predicate IsRun(run: seq<State>, steps: seq<Step>) {
    |run| == |steps| + 1 && Init(run[0])
    && forall i {:trigger steps[i]} | 0 <= i < |steps| ::
         Enabled(run[i], steps[i]) && run[i + 1] == After(run[i], steps[i])
  }

  ghost predicate NamesRemoved(run: seq<State>, steps: seq<Step>)
    requires |run| > |steps|
  {
    forall i {:trigger steps[i]} | 0 <= i < |steps| :: !LeavesName(run[i], steps[i])
  }

  lemma {:induction false} InvAlways(run: seq<State>, steps: seq<Step>, k: nat)
    requires IsRun(run, steps) && NamesRemoved(run, steps) && k < |run|
    ensures Inv(run[k])
    decreases k
  {
    if k > 0 {
      InvAlways(run, steps, k - 1);
      StepKeepsInv(run[k - 1], steps[k - 1]);
    }
  }

  /** Under every interleaving, crash and publication, a request is delivered at most once. */
  lemma DeliveredAtMostOnce(run: seq<State>, steps: seq<Step>, k: nat, i: nat, j: nat)
    requires IsRun(run, steps) && NamesRemoved(run, steps) && k < |run| && i < j < |run[k].delivered|
    ensures run[k].delivered[i] != run[k].delivered[j]
    ensures run[k].delivered[i] in run[k].published
  {
    InvAlways(run, steps, k);
    assert run[k].delivered[i] in run[k].delivered;
  }

  /** What a poller inside has whatever fails: the claim is there and is its own, and what it read is the claim. */
  ghost predicate Exclusive(s: State) {
    && (forall p | p in s.live :: p in s.used)
    && (forall p: Poller | Inside(s, p) :: s.holder == Some(p) && s.claimed.Some? && ReadsClaim(s, p))
  }

  predicate ReadsClaim(s: State, p: Poller)
    requires p in s.live
  {
    s.live[p].Read? && s.live[p].text.Some? ==> s.live[p].text == s.claimed
  }

  lemma StepKeepsExclusive(s: State, step: Step)
    requires Exclusive(s) && Enabled(s, step)
    ensures Exclusive(After(s, step))
  {
    var t := After(s, step);
    if step.Release? || step.ReleaseFailed? { assert Inside(s, step.p); }
    forall q: Poller | Inside(t, q) ensures t.holder == Some(q) && t.claimed.Some? && ReadsClaim(t, q) {
      InsideSince(s, step, q);
    }
  }

  lemma {:induction false} ExclusiveAlways(run: seq<State>, steps: seq<Step>, k: nat)
    requires IsRun(run, steps) && k < |run|
    ensures Exclusive(run[k])
    decreases k
  {
    if k > 0 {
      ExclusiveAlways(run, steps, k - 1);
      StepKeepsExclusive(run[k - 1], steps[k - 1]);
    }
  }

  /** At most one live poller is past the link, whatever fails. */
  lemma OneInside(run: seq<State>, steps: seq<Step>, k: nat, p: Poller, q: Poller)
    requires IsRun(run, steps) && k < |run| && Inside(run[k], p) && Inside(run[k], q)
    ensures p == q
  {
    ExclusiveAlways(run, steps, k);
  }

  /**
   A claim nobody live holds, left by a crash or found at the start, is kept for diagnosis: it is
   never overwritten, removed or delivered, and no later request under the name is taken either.
   */
  lemma {:induction false} AbandonedClaimKept(run: seq<State>, steps: seq<Step>, j: nat, k: nat)
    requires IsRun(run, steps) && j <= k < |run| && run[j].claimed.Some? && forall p :: !Inside(run[j], p)
    ensures run[k].claimed == run[j].claimed && run[k].delivered == run[j].delivered
    ensures forall p :: !Inside(run[k], p)
    decreases k
  {
    if j < k {
      AbandonedClaimKept(run, steps, j, k - 1);
      var s, step := run[k - 1], steps[k - 1];
      forall p ensures !Inside(run[k], p) {
        if Inside(run[k], p) { InsideSince(s, step, p); }
      }
      NobodyInside(s, step);
    }
  }

  lemma NobodyInside(s: State, step: Step)
    requires Enabled(s, step) && s.claimed.Some? && forall p :: !Inside(s, p)
    ensures After(s, step).claimed == s.claimed && After(s, step).delivered == s.delivered
  {
    match step
    case Unlink(p) => assert Inside(s, p);
    case UnlinkFailed(p) => assert Inside(s, p);
    case ReadText(p, _) => assert Inside(s, p);
    case Release(p) => assert Inside(s, p);
    case ReleaseFailed(p) => assert Inside(s, p);
    case Crash(p) => assert Inside(s, p);
    case _ =>
  }

  // ----- what the assumptions are for ---------------------------------------------------------

  /** The steps, taken in order from `s`, end in `last`. */
  ghost predicate Leads(s: State, steps: seq<Step>, last: State)
    decreases |steps|
  {
    if steps == [] then s == last
    else Enabled(s, steps[0]) && Leads(After(s, steps[0]), steps[1..], last)
  }

  lemma Arrived(s: State)
    ensures Leads(s, [], s)
  {
  }

  const QUIET: State := State(None, None, None, map[], {}, {}, [])

  lemma {:induction false} LeadsStep(s: State, step: Step, next: State, rest: seq<Step>, last: State)
    requires Enabled(s, step) && next == After(s, step) && Leads(next, rest, last)
    ensures Leads(s, [step] + rest, last)
  {
  }

  /**
   One whole `take` by `p` before `rest`: `removed` is whether the request name went, `ok` whether
   the claim was read.
   */
  function TakeSteps(p: Poller, removed: bool, ok: bool, rest: seq<Step>): seq<Step> {
    [Link(p)] + ([if removed then Unlink(p) else UnlinkFailed(p)] + ([ReadText(p, ok)] + ([Release(p)] + rest)))
  }

  lemma TakeLeads(s: State, p: Poller, removed: bool, ok: bool, next: State, rest: seq<Step>, last: State)
    requires s.claimed.None? && s.request.Some? && p !in s.used
    requires next == s.(request := if removed then None else s.request, holder := None, live := s.live[p := Returned],
                        used := s.used + {p}, delivered := if ok then s.delivered + [s.request.value] else s.delivered)
    requires Leads(next, rest, last)
    ensures Leads(s, TakeSteps(p, removed, ok, rest), last)
  {
    hide Leads;
    var s1 := After(s, Link(p));
    var cut := if removed then Unlink(p) else UnlinkFailed(p);
    var s2 := After(s1, cut);
    var s3 := After(s2, ReadText(p, ok));
    assert s3.live[p := Returned] == s.live[p := Returned];
    LeadsStep(s3, Release(p), next, rest, last);
    LeadsStep(s2, ReadText(p, ok), s3, [Release(p)] + rest, last);
    LeadsStep(s1, cut, s2, [ReadText(p, ok)] + ([Release(p)] + rest), last);
    LeadsStep(s, Link(p), s1, [cut] + ([ReadText(p, ok)] + ([Release(p)] + rest)), last);
  }

  /** No step on the way leaves the name of a claimed request. */
  ghost predicate Clean(s: State, steps: seq<Step>)
    decreases |steps|
  {
    steps == [] || (!LeavesName(s, steps[0]) && (Enabled(s, steps[0]) ==> Clean(After(s, steps[0]), steps[1..])))
  }

  ghost predicate NoRepeat(delivered: seq<Inode>) {
    forall i, j | 0 <= i < j < |delivered| :: delivered[i] != delivered[j]
  }

  /** However it goes on, if no further name is left, nothing is delivered twice. */
  ghost predicate OnceFrom(s: State) {
    forall steps, last | Leads(s, steps, last) && Clean(s, steps) :: NoRepeat(last.delivered)
  }

  lemma {:induction false} CleanKeepsInv(s: State, steps: seq<Step>, last: State)
    requires Inv(s) && Leads(s, steps, last) && Clean(s, steps)
    ensures Inv(last)
    decreases |steps|
  {
    hide Inv, LeavesName;
    if steps != [] {
      StepKeepsInv(s, steps[0]);
      CleanKeepsInv(After(s, steps[0]), steps[1..], last);
    }
  }

  lemma {:induction false} SuccessIsClean(s: State, steps: seq<Step>)
    requires forall i | 0 <= i < |steps| :: !steps[i].UnlinkFailed?
    ensures Clean(s, steps)
    decreases |steps|
  {
    if steps != [] && Enabled(s, steps[0]) {
      assert forall i | 0 <= i < |steps[1..]| :: steps[1..][i] == steps[i + 1];
      SuccessIsClean(After(s, steps[0]), steps[1..]);
    }
  }

  /** A poller that has not called yet. */
  lemma {:induction false} FreshPoller(used: set<Poller>) returns (q: Poller)
    ensures forall p | p in used :: p < q
    decreases |used|
  {
    if used == {} {
      q := 0;
    } else {
      var p :| p in used;
      q := FreshPoller(used - {p});
      if q <= p { q := p + 1; }
      assert used == (used - {p}) + {p};
    }
  }

  /** The poller goes on and delivers; the next one finds the name again and delivers the same request. */
  function RepeatSteps(p: Poller, q: Poller): seq<Step> {
    [ReadText(p, true)] + ([Release(p)] + TakeSteps(q, true, true, []))
  }

  lemma LeftNameRepeats(s: State, p: Poller, q: Poller) returns (last: State)
    requires Inv(s) && Enabled(s, UnlinkFailed(p)) && LeavesName(s, UnlinkFailed(p)) && q !in s.used
    ensures s.claimed.Some? && Leads(After(s, UnlinkFailed(p)), RepeatSteps(p, q), last)
    ensures last.delivered == s.delivered + [s.claimed.value] + [s.claimed.value]
  {
    assert Inside(s, p) && Holds(s, p);
    hide Leads, TakeSteps, Inv;
    var s1 := After(s, UnlinkFailed(p));
    var s2 := After(s1, ReadText(p, true));
    var s3 := After(s2, Release(p));
    last := s3.(request := None, holder := None, live := s3.live[q := Returned], used := s3.used + {q},
                delivered := s3.delivered + [s3.request.value]);
    Arrived(last);
    TakeLeads(s3, q, true, true, last, [], last);
    LeadsStep(s2, Release(p), s3, TakeSteps(q, true, true, []), last);
    LeadsStep(s1, ReadText(p, true), s2, [Release(p)] + TakeSteps(q, true, true, []), last);
  }

  /** The exact condition, at any step: at-most-once survives every clean continuation iff the step leaves no name. */
  lemma OnceIff(s: State, step: Step)
    requires Inv(s) && Enabled(s, step)
    ensures OnceFrom(After(s, step)) <==> !LeavesName(s, step)
  {
    var t := After(s, step);
    if LeavesName(s, step) {
      var q := FreshPoller(s.used);
      var last := LeftNameRepeats(s, step.p, q);
      SuccessIsClean(t, RepeatSteps(step.p, q));
      assert last.delivered[|s.delivered|] == last.delivered[|s.delivered| + 1];
    } else {
      StepKeepsInv(s, step);
      forall steps, last | Leads(t, steps, last) && Clean(t, steps) ensures NoRepeat(last.delivered) {
        CleanKeepsInv(t, steps, last);
      }
    }
  }

  /**
   From the start: the failing removal of the request name is ignored, and the same request is
   linked and delivered again.
   */
  lemma FailedUnlinkDeliversTwice() returns (last: State)
    ensures Leads(QUIET, [Publish(7)] + TakeSteps(0, false, true, TakeSteps(1, true, true, [])), last)
    ensures last.delivered == [7, 7]
  {
    var s1 := After(QUIET, Publish(7));
    var s2 := s1.(live := map[0 := Returned], used := {0}, delivered := [7]);
    last := s2.(request := None, live := map[0 := Returned, 1 := Returned], used := {0, 1}, delivered := [7, 7]);
    hide TakeSteps;
    Arrived(last);
    TakeLeads(s2, 1, true, true, last, [], last);
    TakeLeads(s1, 0, false, true, s2, TakeSteps(1, true, true, []), last);
    LeadsStep(QUIET, Publish(7), s1, TakeSteps(0, false, true, TakeSteps(1, true, true, [])), last);
  }


  /** A request that has lost both names before it was read is never delivered. */
  lemma {:induction false} UnnamedNeverDelivered(run: seq<State>, steps: seq<Step>, j: nat, k: nat, i: Inode)
    requires IsRun(run, steps) && j <= k < |run| && Unnamed(run[j], i)
    ensures Unnamed(run[k], i)
    decreases k
  {
    if j < k {
      UnnamedNeverDelivered(run, steps, j, k - 1, i);
      UnnamedKept(run[k - 1], steps[k - 1], i);
    }
  }

  lemma UnnamedKept(s: State, step: Step, i: Inode)
    requires Enabled(s, step) && Unnamed(s, i)
    ensures Unnamed(After(s, step), i)
  {
  }

  ghost predicate Unnamed(s: State, i: Inode) {
    i in s.published && s.request != Some(i) && s.claimed != Some(i) && i !in s.delivered
    && forall p | p in s.live && s.live[p].Read? :: s.live[p].text != Some(i)
  }

  /**
   The removal takes whatever stands under the name. A request published between a poller's link
   and its removal is lost: no poller ever sees it.
   */
  lemma RepublishedRequestLost(s: State, p: Poller, i: Inode)
    requires Inv(s) && Inside(s, p) && s.live[p].Linked? && i !in s.published
    ensures Enabled(s, Publish(i)) && Enabled(After(s, Publish(i)), Unlink(p))
    ensures Unnamed(After(After(s, Publish(i)), Unlink(p)), i)
  {
    assert forall q | q in s.live :: s.live[q].Read? ==> Inside(s, q);
  }

  /**
   The step takes the last name of a request that no poller has read: its own name goes, by a
   removal meant for another or by a writer's overwriting, while no claim holds it; or its claim
   goes after a read that failed.
   */
  predicate Loses(s: State, step: Step, i: Inode)
    requires step.Release? ==> step.p in s.live && s.live[step.p].Read?
  {
    || (s.request == Some(i) && s.claimed != Some(i) && (step.Unlink? || step.Publish?))
    || (s.claimed == Some(i) && s.request != Some(i) && step.Release? && s.live[step.p].text.None?)
  }

  /** Exactly these steps lose a request that is still to be delivered, whatever has failed before. */
  lemma LostIff(s: State, step: Step, i: Inode)
    requires Exclusive(s) && Enabled(s, step) && i in s.published && i !in s.delivered && !Unnamed(s, i)
    ensures Unnamed(After(s, step), i) <==> Loses(s, step, i)
  {
    if step.Release? || step.ReleaseFailed? { assert Inside(s, step.p); }
    if p :| p in s.live && s.live[p].Read? && s.live[p].text == Some(i) { assert Inside(s, p); }
    if Loses(s, step, i) {
      forall q | q in After(s, step).live && After(s, step).live[q].Read?
        ensures After(s, step).live[q].text != Some(i)
      {
        assert Inside(s, q);
      }
    }
  }

  lemma PublishedKept(s: State, step: Step, i: Inode)
    requires Enabled(s, step)
    ensures i in s.published ==> i in After(s, step).published
    ensures i in s.delivered ==> i in After(s, step).delivered
  {
  }

  /** Some step between `j` and `k` loses the request while it is still to be delivered. */
  ghost predicate LostBetween(run: seq<State>, steps: seq<Step>, j: nat, k: nat, i: Inode)
    requires IsRun(run, steps) && j <= k < |run|
  {
    exists m {:trigger steps[m]} | j <= m < k :: i !in run[m].delivered && Loses(run[m], steps[m], i)
  }

  /** In every run a request is lost for good iff some step loses it. */
  lemma {:induction false} LostInRunIff(run: seq<State>, steps: seq<Step>, j: nat, k: nat, i: Inode)
    requires IsRun(run, steps) && j <= k < |run| && i in run[j].published && !Unnamed(run[j], i)
    ensures i in run[k].published
    ensures Unnamed(run[k], i) <==> LostBetween(run, steps, j, k, i)
    decreases k
  {
    hide Unnamed, Loses, Exclusive;
    if j < k {
      var s, step := run[k - 1], steps[k - 1];
      LostInRunIff(run, steps, j, k - 1, i);
      PublishedKept(s, step, i);
      if Unnamed(s, i) {
        UnnamedKept(s, step, i);
      } else if i in s.delivered {
        DeliveredIsNamed(run[k], i);
      } else {
        ExclusiveAlways(run, steps, k - 1);
        LostIff(s, step, i);
      }
    }
  }

  lemma DeliveredIsNamed(s: State, i: Inode)
    requires i in s.delivered
    ensures !Unnamed(s, i)
  {
  }

  // ----- the function itself ---------------------------------------------------------------------

  /** The directory entries of one request; `state` is the whole history they belong to. */
  class Queue {
    var request: Option<Inode>
    var claimed: Option<Inode>
    ghost var state: State

    ghost predicate Valid()
      reads this
    {
      state.request == request && state.claimed == claimed
    }

    /**
     One uninterrupted `take` is those steps of the protocol: it yields the request under the name
     if no claim stands, and a standing claim is left exactly as it is. `removed` and `readable` are
     the answers of the file system.
     */
    method Take(ghost p: Poller, removed: bool, readable: bool) returns (text: Option<Inode>)
      requires Valid() && p !in state.used
      modifies this
      ensures Valid()
      ensures old(claimed).Some? || old(request).None? ==>
                text.None? && claimed == old(claimed) && request == old(request)
                && Leads(old(state), [Refused(p)], state)
      ensures old(claimed).None? && old(request).Some? ==>
                claimed.None? && text == (if readable then old(request) else None)
                && request == (if removed then None else old(request))
                && Leads(old(state), TakeSteps(p, removed, readable, []), state)
    {
      ghost var before := state;
      if request.None? || claimed.Some? {
        state := After(state, Refused(p));
        LeadsStep(before, Refused(p), state, [], state);
        assert [Refused(p)] + [] == [Refused(p)];
        return None;
      }
      claimed := request;
      if removed {
        request := None;
      }
      text := if readable then claimed else None;
      claimed := None;
      state := before.(request := request, holder := None,
                       live := before.live[p := Returned], used := before.used + {p},
                       delivered := if readable then before.delivered + [before.request.value] else before.delivered);
      TakeLeads(before, p, removed, readable, state, [], state);
    }
  }
}
