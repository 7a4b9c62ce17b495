/**
 Ancestry in a process table: `is_descendant_of` and `top_level_agent_for_process_tree` of
 `src-tauri/src/pane_process.rs`. Both walk parent links with a fuel of one more than the number of
 processes; the first result is that the fuel never runs short, even on a cyclic table.
 */
module ProcessTree {
  import opened Common

  type Pid = nat

  datatype Entry = Entry(pid: Pid, ppid: Pid, provider: Option<string>)

  /** Parent link of each listed process. */
  type Parents = map<Pid, Pid>

  /** The process `k` links above `pid`, if the table lists every process on the way. */
  function Up(m: Parents, pid: Pid, k: nat): Option<Pid>
    decreases k
  {
    if k == 0 then Some(pid)
    else if pid in m then Up(m, m[pid], k - 1)
    else None
  }

  /** `root` is at or above `pid`. */
  ghost predicate AtOrBelow(m: Parents, pid: Pid, root: Pid) { exists k: nat :: Up(m, pid, k) == Some(root) }

  lemma {:induction false} UpAdd(m: Parents, pid: Pid, j: nat, k: nat)
    requires Up(m, pid, j).Some?
    ensures Up(m, pid, j + k) == Up(m, Up(m, pid, j).value, k)
    decreases j
  {
    if j > 0 { UpAdd(m, m[pid], j - 1, k); }
  }

  /** Every process on the way, but the last, is listed. */
  lemma UpListed(m: Parents, pid: Pid, j: nat, k: nat)
    requires j < k && Up(m, pid, k).Some?
    ensures Up(m, pid, j).Some? && Up(m, pid, j).value in m
    decreases k
  {
    if j > 0 { UpListed(m, m[pid], j - 1, k - 1); }
  }

  // ----- the fuel is enough ------------------------------------------------------------

  /** The first `k` processes on the way up. */
  function Trail(m: Parents, pid: Pid, k: nat): (s: seq<Pid>)
    requires Up(m, pid, k).Some?
    ensures |s| == k
    decreases k
  {
    if k == 0 then [] else [pid] + Trail(m, m[pid], k - 1)
  }

  lemma {:induction false} TrailAt(m: Parents, pid: Pid, k: nat, i: nat)
    requires Up(m, pid, k).Some? && i < k
    ensures Up(m, pid, i) == Some(Trail(m, pid, k)[i]) && Trail(m, pid, k)[i] in m
    decreases k
  {
    if i > 0 { TrailAt(m, m[pid], k - 1, i - 1); }
  }

  lemma {:induction false} DistinctFit(s: seq<Pid>, keys: set<Pid>)
    requires (forall i | 0 <= i < |s| :: s[i] in keys) && forall i, j | 0 <= i < j < |s| :: s[i] != s[j]
    ensures |s| <= |keys|
    decreases |s|
  {
    if s != [] {
      var t := s[1..];
      assert forall i | 0 <= i < |t| :: t[i] == s[i + 1];
      DistinctFit(t, keys - {s[0]});
    }
  }

  /** A way longer than the table passes some process twice, so a shorter way ends at the same place. */
  lemma ShorterWay(m: Parents, pid: Pid, k: nat) returns (j: nat)
    requires Up(m, pid, k).Some? && k > |m.Keys|
    ensures j < k && Up(m, pid, j) == Up(m, pid, k)
  {
    var s := Trail(m, pid, k);
    forall i | 0 <= i < k ensures s[i] in m.Keys { TrailAt(m, pid, k, i); }
    if forall a, b | 0 <= a < b < |s| :: s[a] != s[b] {
      DistinctFit(s, m.Keys);
      assert false;
    } else {
      var a, b :| 0 <= a < b < |s| && s[a] == s[b];
      TrailAt(m, pid, k, a);
      TrailAt(m, pid, k, b);
      UpAdd(m, pid, b, k - b);
      UpAdd(m, pid, a, k - b);
      j := a + (k - b);
    }
  }

  /** Whatever is reachable at all is reachable within the fuel. */
  lemma {:induction false} ReachedInFuel(m: Parents, pid: Pid, root: Pid, k: nat) returns (j: nat)
    requires Up(m, pid, k) == Some(root)
    ensures j <= |m.Keys| && Up(m, pid, j) == Some(root)
    decreases k
  {
    if k <= |m.Keys| {
      j := k;
    } else {
      j := ShorterWay(m, pid, k);
      j := ReachedInFuel(m, pid, root, j);
    }
  }

  /** The answer is true reachability, for any parent map. */
  method IsDescendantOf(pid: Pid, root: Pid, m: Parents) returns (found: bool)
    ensures found <==> AtOrBelow(m, pid, root)
  {
    var current := pid;
    var remaining := |m.Keys| + 1;
    ghost var k := 0;
    while remaining > 0
      invariant k + remaining == |m.Keys| + 1
      invariant Up(m, pid, k) == Some(current)
      invariant forall j | 0 <= j < k :: Up(m, pid, j) != Some(root)
    {
      if current == root {
        return true;
      }
      if current !in m {
        NothingAbove(m, pid, root, k);
        return false;
      }
      if m[current] == current {
        NothingAbove(m, pid, root, k);
        return false;
      }
      UpAdd(m, pid, k, 1);
      assert Up(m, current, 1) == Some(m[current]);
      current := m[current];
      remaining := remaining - 1;
      k := k + 1;
    }
    if j :| Up(m, pid, j) == Some(root) {
      var i := ReachedInFuel(m, pid, root, j);
      assert false;
    }
    return false;
  }

  /** Above a process that is not listed, or is its own parent, there is nothing else. */
  lemma NothingAbove(m: Parents, pid: Pid, root: Pid, k: nat)
    requires Up(m, pid, k).Some? && Up(m, pid, k).value != root
    requires Up(m, pid, k).value in m ==> m[Up(m, pid, k).value] == Up(m, pid, k).value
    requires forall j | 0 <= j < k :: Up(m, pid, j) != Some(root)
    ensures !AtOrBelow(m, pid, root)
  {
    if j: nat :| Up(m, pid, j) == Some(root) {
      UpAdd(m, pid, k, j - k);
      SelfLoop(m, Up(m, pid, k).value, j - k);
    }
  }

  lemma {:induction false} SelfLoop(m: Parents, x: Pid, k: nat)
    requires x in m ==> m[x] == x
    ensures Up(m, x, k) == if k == 0 || x in m then Some(x) else None
    decreases k
  {
    if k > 0 && x in m { SelfLoop(m, x, k - 1); }
  }

  // ----- the top-level agent ---------------------------------------------------------------

  predicate UniquePids(entries: seq<Entry>) {
    forall i, j | 0 <= i < j < |entries| :: entries[i].pid != entries[j].pid
  }

  /** The table's parent links; of entries with one pid the last counts, as in the source. */
  function ByPid(entries: seq<Entry>): Parents {
    if entries == [] then map[]
    else ByPid(entries[..|entries| - 1])[entries[|entries| - 1].pid := entries[|entries| - 1].ppid]
  }

  lemma {:induction false} ByPidAt(entries: seq<Entry>, i: nat)
    requires UniquePids(entries) && i < |entries|
    ensures entries[i].pid in ByPid(entries) && ByPid(entries)[entries[i].pid] == entries[i].ppid
    decreases |entries|
  {
    if i < |entries| - 1 { ByPidAt(entries[..|entries| - 1], i); }
  }

  /** No process is its own ancestor, unless its parent link points at itself. */
  ghost predicate Acyclic(m: Parents) {
    forall pid, k: nat | k > 0 && Up(m, pid, k) == Some(pid) :: pid in m && m[pid] == pid
  }

  /** A provider process at or below the root. */
  ghost predicate Agent(entries: seq<Entry>, root: Pid, e: Entry) {
    e in entries && e.provider.Some? && AtOrBelow(ByPid(entries), e.pid, root)
  }

  /** `pids` are the process ids of the agents. */
  ghost predicate AgentPids(entries: seq<Entry>, root: Pid, pids: set<Pid>) {
    forall x :: x in pids <==> exists a :: Agent(entries, root, a) && a.pid == x
  }

  /** No other agent is strictly above `e`. */
  ghost predicate Outermost(entries: seq<Entry>, root: Pid, e: Entry) {
    forall a | Agent(entries, root, a) && AtOrBelow(ByPid(entries), e.pid, a.pid) :: a.pid == e.pid
  }

  lemma AboveTrans(m: Parents, a: Pid, b: Pid, c: Pid)
    requires AtOrBelow(m, a, b) && AtOrBelow(m, b, c)
    ensures AtOrBelow(m, a, c)
  {
    var j: nat :| Up(m, a, j) == Some(b);
    var k: nat :| Up(m, b, k) == Some(c);
    UpAdd(m, a, j, k);
  }

  /** On an acyclic table two processes are not both above each other. */
  lemma AboveAntisymmetric(m: Parents, a: Pid, b: Pid)
    requires Acyclic(m) && AtOrBelow(m, a, b) && AtOrBelow(m, b, a)
    ensures a == b
  {
    var j: nat :| Up(m, a, j) == Some(b);
    var k: nat :| Up(m, b, k) == Some(a);
    UpAdd(m, a, j, k);
    if j + k > 0 { SelfLoop(m, a, j); }
  }

  /** An agent with every agent at or below it. */
  ghost predicate Tops(entries: seq<Entry>, root: Pid, e: Entry) {
    Agent(entries, root, e) && forall a | Agent(entries, root, a) :: AtOrBelow(ByPid(entries), a.pid, e.pid)
  }

  ghost predicate ProperTable(entries: seq<Entry>) { UniquePids(entries) && Acyclic(ByPid(entries)) }

  lemma SamePid(entries: seq<Entry>, a: Entry, b: Entry)
    requires UniquePids(entries) && a in entries && b in entries && a.pid == b.pid
    ensures a == b
  {
  }

  /** Above every agent, or at it, stands an outermost one. */
  lemma {:induction false} Climb(entries: seq<Entry>, root: Pid, a: Entry, d: nat) returns (o: Entry)
    requires ProperTable(entries) && Agent(entries, root, a) && Up(ByPid(entries), a.pid, d) == Some(root)
    ensures Agent(entries, root, o) && Outermost(entries, root, o) && AtOrBelow(ByPid(entries), a.pid, o.pid)
    decreases d
  {
    var m := ByPid(entries);
    if Outermost(entries, root, a) {
      assert Up(m, a.pid, 0) == Some(a.pid);
      o := a;
    } else {
      var b :| Agent(entries, root, b) && AtOrBelow(m, a.pid, b.pid) && b.pid != a.pid;
      var j := CloserToRoot(m, a.pid, b.pid, root, d);
      o := Climb(entries, root, b, j);
      AboveTrans(m, a.pid, b.pid, o.pid);
    }
  }

  /** Going up to something at or below the root brings one closer to the root. */
  lemma CloserToRoot(m: Parents, a: Pid, b: Pid, root: Pid, d: nat) returns (j: nat)
    requires Acyclic(m) && Up(m, a, d) == Some(root) && AtOrBelow(m, a, b) && AtOrBelow(m, b, root) && a != b
    ensures j < d && Up(m, b, j) == Some(root)
  {
    var i: nat :| Up(m, a, i) == Some(b);
    assert i > 0;
    if i <= d {
      UpAdd(m, a, i, d - i);
      j := d - i;
    } else {
      UpAdd(m, a, d, i - d);
      assert AtOrBelow(m, root, b);
      AboveAntisymmetric(m, b, root);
      j := 0;
    }
  }

  /** The one outermost agent, when there is just one, has all others at or below it. */
  lemma OnlyOutermostTops(entries: seq<Entry>, root: Pid, e: Entry)
    requires ProperTable(entries) && Agent(entries, root, e)
    requires forall o | Agent(entries, root, o) && Outermost(entries, root, o) :: o == e
    ensures Tops(entries, root, e)
  {
    forall a | Agent(entries, root, a) ensures AtOrBelow(ByPid(entries), a.pid, e.pid) {
      var d: nat :| Up(ByPid(entries), a.pid, d) == Some(root);
      var o := Climb(entries, root, a, d);
    }
  }

  lemma TopsIsOnlyOutermost(entries: seq<Entry>, root: Pid, e: Entry)
    requires ProperTable(entries) && Tops(entries, root, e)
    ensures Outermost(entries, root, e)
    ensures forall o | Agent(entries, root, o) && Outermost(entries, root, o) :: o == e
  {
    var m := ByPid(entries);
    forall a | Agent(entries, root, a) && AtOrBelow(m, e.pid, a.pid) ensures a.pid == e.pid {
      AboveAntisymmetric(m, a.pid, e.pid);
    }
    forall o | Agent(entries, root, o) && Outermost(entries, root, o) ensures o == e {
      assert AtOrBelow(m, o.pid, e.pid);
      SamePid(entries, o, e);
    }
  }

  // ----- the loops -------------------------------------------------------------------------

  /** Keeps the agents, in table order. */
  method CollectAgents(entries: seq<Entry>, root: Pid) returns (agents: seq<Entry>, pids: set<Pid>)
    ensures forall a :: a in agents <==> Agent(entries, root, a)
    ensures AgentPids(entries, root, pids)
    ensures UniquePids(entries) ==> UniquePids(agents)
  {
    var m := ByPid(entries);
    agents, pids := [], {};
    for i := 0 to |entries|
      invariant forall a :: a in agents <==> a in entries[..i] && Agent(entries, root, a)
      invariant forall x :: x in pids <==> HasPid(agents, x)
      invariant UniquePids(entries) ==> UniquePids(agents)
    {
      var e := entries[i];
      var found := IsDescendantOf(e.pid, root, m);
      assert entries[..i + 1] == entries[..i] + [e];
      if e.provider.Some? && found {
        if UniquePids(entries) {
          forall k | 0 <= k < |agents| ensures agents[k].pid != e.pid {
            assert agents[k] in entries[..i];
          }
        }
        forall x ensures HasPid(agents + [e], x) <==> x == e.pid || HasPid(agents, x) {
          if HasPid(agents, x) {
            var a :| a in agents && a.pid == x;
            assert a in agents + [e];
          }
          assert e in agents + [e];
        }
        agents := agents + [e];
        pids := pids + {e.pid};
      }
    }
    assert entries[..|entries|] == entries;
    forall x ensures x in pids <==> exists a :: Agent(entries, root, a) && a.pid == x {
      if HasPid(agents, x) { var a :| a in agents && a.pid == x; assert Agent(entries, root, a); }
    }
  }

  ghost predicate HasPid(agents: seq<Entry>, x: Pid) { exists a :: a in agents && a.pid == x }

  /** Is no agent strictly above this one? The walk stops at the root. */
  method NoAgentAbove(entries: seq<Entry>, root: Pid, e: Entry, pids: set<Pid>) returns (top: bool)
    requires AgentPids(entries, root, pids) && Agent(entries, root, e)
    ensures ProperTable(entries) ==> (top <==> Outermost(entries, root, e))
  {
    var m := ByPid(entries);
    var parent := e.ppid;
    var remaining := |m.Keys| + 1;
    ghost var k: nat := 1;
    if ProperTable(entries) {
      var i :| 0 <= i < |entries| && entries[i] == e;
      ByPidAt(entries, i);
      assert Up(m, parent, 0) == Some(parent);
      assert Up(m, e.pid, 1) == Some(parent);
    }
    while remaining > 0
      invariant remaining >= 0 && k + remaining == |m.Keys| + 2
      invariant ProperTable(entries) ==>
                  && Up(m, e.pid, k) == Some(parent)
                  && forall j | 1 <= j < k ::
                       Up(m, e.pid, j).Some? && Up(m, e.pid, j).value !in pids && Up(m, e.pid, j).value != root
    {
      if parent == root {
        if ProperTable(entries) { AtRoot(entries, root, e, pids, k); }
        return e.pid == root || parent !in pids;
      }
      if parent in pids {
        if ProperTable(entries) { AgentFound(entries, root, e, pids, k); }
        return false;
      }
      if parent !in m || m[parent] == parent {
        if ProperTable(entries) { WalkEnds(entries, root, e, k); }
        return true;
      }
      UpOne(m, e.pid, k);
      parent := m[parent];
      remaining := remaining - 1;
      k := k + 1;
    }
    if ProperTable(entries) { FuelEnough(entries, root, e, k); }
    return true;
  }

  lemma UpOne(m: Parents, pid: Pid, k: nat)
    ensures Up(m, pid, k).Some? && Up(m, pid, k).value in m ==> Up(m, pid, k + 1) == Some(m[Up(m, pid, k).value])
  {
    if Up(m, pid, k).Some? && Up(m, pid, k).value in m {
      UpAdd(m, pid, k, 1);
      assert Up(m, m[Up(m, pid, k).value], 0) == Some(m[Up(m, pid, k).value]);
    }
  }

  /** The root itself is outermost whenever it is an agent. */
  lemma RootOutermost(entries: seq<Entry>, root: Pid, e: Entry)
    requires ProperTable(entries) && Agent(entries, root, e) && e.pid == root
    ensures Outermost(entries, root, e)
  {
    forall a | Agent(entries, root, a) && AtOrBelow(ByPid(entries), e.pid, a.pid) ensures a.pid == e.pid {
      AboveAntisymmetric(ByPid(entries), a.pid, root);
    }
  }

  lemma AtRoot(entries: seq<Entry>, root: Pid, e: Entry, pids: set<Pid>, k: nat)
    requires ProperTable(entries) && AgentPids(entries, root, pids) && Agent(entries, root, e)
    requires Up(ByPid(entries), e.pid, k) == Some(root) && k > 0
    requires forall j | 1 <= j < k :: Up(ByPid(entries), e.pid, j).Some? && Up(ByPid(entries), e.pid, j).value !in pids
    ensures Outermost(entries, root, e) <==> e.pid == root || root !in pids
  {
    var m := ByPid(entries);
    if e.pid == root {
      RootOutermost(entries, root, e);
    } else if root in pids {
      var a :| Agent(entries, root, a) && a.pid == root;
      assert AtOrBelow(m, e.pid, a.pid);
    } else {
      forall a | Agent(entries, root, a) && AtOrBelow(m, e.pid, a.pid) ensures a.pid == e.pid {
        assert a.pid in pids;
        var i: nat :| Up(m, e.pid, i) == Some(a.pid);
        if i > k {
          UpAdd(m, e.pid, k, i - k);
          AboveAntisymmetric(m, a.pid, root);
        }
      }
    }
  }

  lemma AgentFound(entries: seq<Entry>, root: Pid, e: Entry, pids: set<Pid>, k: nat)
    requires ProperTable(entries) && AgentPids(entries, root, pids) && Agent(entries, root, e) && k > 0
    requires Up(ByPid(entries), e.pid, k).Some? && Up(ByPid(entries), e.pid, k).value in pids
    requires Up(ByPid(entries), e.pid, k).value != root
    ensures !Outermost(entries, root, e)
  {
    var m := ByPid(entries);
    var a :| Agent(entries, root, a) && a.pid == Up(m, e.pid, k).value;
    if a.pid == e.pid {
      SelfLoop(m, e.pid, 0);
      var d: nat :| Up(m, e.pid, d) == Some(root);
      SelfLoop(m, e.pid, d);
    }
  }

  lemma WalkEnds(entries: seq<Entry>, root: Pid, e: Entry, k: nat)
    requires ProperTable(entries) && Agent(entries, root, e) && Up(ByPid(entries), e.pid, k).Some?
    requires forall j | 1 <= j <= k :: Up(ByPid(entries), e.pid, j).Some? && Up(ByPid(entries), e.pid, j).value != root
    requires var x := Up(ByPid(entries), e.pid, k).value; x !in ByPid(entries) || ByPid(entries)[x] == x
    ensures Outermost(entries, root, e)
  {
    if e.pid != root {
      assert Up(ByPid(entries), e.pid, 0) == Some(e.pid);
      assert forall j | 0 <= j < k :: Up(ByPid(entries), e.pid, j) != Some(root);
      NothingAbove(ByPid(entries), e.pid, root, k);
    }
    RootOutermost(entries, root, e);
  }

  lemma FuelEnough(entries: seq<Entry>, root: Pid, e: Entry, k: nat)
    requires ProperTable(entries) && Agent(entries, root, e) && k == |ByPid(entries).Keys| + 2
    requires forall j | 1 <= j < k :: Up(ByPid(entries), e.pid, j).Some? && Up(ByPid(entries), e.pid, j).value != root
    ensures Outermost(entries, root, e)
  {
    var d: nat :| Up(ByPid(entries), e.pid, d) == Some(root);
    var j := ReachedInFuel(ByPid(entries), e.pid, root, d);
    assert j == 0;
    RootOutermost(entries, root, e);
  }

  /**
   The top-level agent of a process tree: on a proper table it is the agent that has every agent
   at or below it, and there is an answer exactly when such an agent exists.
   */
  method TopLevelAgent(root: Pid, entries: seq<Entry>) returns (top: Option<Entry>)
    ensures ProperTable(entries) ==> (top.Some? <==> exists e :: Tops(entries, root, e))
    ensures ProperTable(entries) && top.Some? ==> Tops(entries, root, top.value)
    ensures top.Some? ==> Agent(entries, root, top.value)
  {
    var agents, pids := CollectAgents(entries, root);
    var roots: seq<Entry> := [];
    for i := 0 to |agents|
      invariant forall a | a in roots :: Agent(entries, root, a)
      invariant ProperTable(entries) ==> forall a :: a in roots <==> a in agents[..i] && Outermost(entries, root, a)
      invariant ProperTable(entries) ==> UniquePids(roots)
    {
      assert agents[i] in agents;
      var keep := NoAgentAbove(entries, root, agents[i], pids);
      assert agents[..i + 1] == agents[..i] + [agents[i]];
      if keep {
        if ProperTable(entries) {
          forall k | 0 <= k < |roots| ensures roots[k].pid != agents[i].pid {
            assert roots[k] in agents[..i];
          }
        }
        roots := roots + [agents[i]];
      }
    }
    assert agents[..|agents|] == agents;
    if ProperTable(entries) { JustOne(entries, root, roots); }
    if |roots| != 1 {
      return None;
    }
    assert roots[0] in roots;
    return Some(roots[0]);
  }

  lemma JustOne(entries: seq<Entry>, root: Pid, roots: seq<Entry>)
    requires ProperTable(entries) && UniquePids(roots)
    requires forall a :: a in roots <==> Agent(entries, root, a) && Outermost(entries, root, a)
    ensures |roots| == 1 ==> Tops(entries, root, roots[0])
    ensures (exists e :: Tops(entries, root, e)) ==> |roots| == 1
  {
    assert |roots| > 1 ==> roots[0].pid != roots[1].pid;
    if |roots| == 1 {
      assert roots[0] in roots;
      OnlyOutermostTops(entries, root, roots[0]);
    }
    if e :| Tops(entries, root, e) {
      TopsIsOnlyOutermost(entries, root, e);
      assert e in roots;
      assert forall i | 0 <= i < |roots| :: roots[i] in roots && roots[i] == e;
    }
  }
}
