/** Who waits for whom: the list of sleeping lock requests, and the deadlock check. */
module WaitGraph {
  import opened LockList

  /** Process `pid` sleeps on the record `on` of file `file`, held by process `blkpid`; `awake` once
      it has been woken but has not run yet. The entry itself is the lock record `id`. */
  datatype Sleeper = Sleeper(id: int, pid: int, blkpid: int, file: int, on: Lock, awake: bool)

  predicate Sleeps(sl: seq<Sleeper>, p: int) {
    exists i :: 0 <= i < |sl| && sl[i].pid == p
  }

  /** The process that `p` waits for. */
  function WaitsFor(sl: seq<Sleeper>, p: int): int
    requires Sleeps(sl, p)
  {
    if sl[0].pid == p then sl[0].blkpid else WaitsFor(sl[1..], p)
  }

  datatype Reached = Gone | At(pid: int)

  /** Where one gets from `p` by following `k` edges. */
  function Walk(sl: seq<Sleeper>, p: int, k: nat): Reached
    decreases k
  {
    if k == 0 then At(p)
    else if Sleeps(sl, p) then Walk(sl, WaitsFor(sl, p), k - 1)
    else Gone
  }

  /** No process waits, directly or through others, for itself. */
  ghost predicate Acyclic(sl: seq<Sleeper>) {
    forall p, k: nat :: 0 < k ==> Walk(sl, p, k) != At(p)
  }

  ghost predicate Leads(sl: seq<Sleeper>, p: int, q: int) {
    exists k: nat :: Walk(sl, p, k) == At(q)
  }

  predicate OneEdgeEach(sl: seq<Sleeper>) {
    forall i, j :: 0 <= i < j < |sl| ==> sl[i].pid != sl[j].pid
  }

  lemma {:induction false} WalkAdd(sl: seq<Sleeper>, p: int, j: nat, k: nat)
    ensures Walk(sl, p, j + k) == if Walk(sl, p, j).Gone? then Gone else Walk(sl, Walk(sl, p, j).pid, k)
    decreases j
  {
    if j > 0 && Sleeps(sl, p) { WalkAdd(sl, WaitsFor(sl, p), j - 1, k); }
  }

  lemma WalkStart(sl: seq<Sleeper>, p: int)
    ensures Walk(sl, p, 0) == At(p)
  {
  }

  lemma WalkStep(sl: seq<Sleeper>, p: int, k: nat)
    requires Walk(sl, p, k).At? && Sleeps(sl, Walk(sl, p, k).pid)
    ensures Walk(sl, p, k + 1) == At(WaitsFor(sl, Walk(sl, p, k).pid))
  {
    WalkAdd(sl, p, k, 1);
  }

  /** The first entry of process `p`. */
  method FindSleeper(sl: seq<Sleeper>, p: int) returns (sf: nat)
    ensures sf < |sl| ==> sl[sf].pid == p && Sleeps(sl, p) && WaitsFor(sl, p) == sl[sf].blkpid
    ensures sf >= |sl| ==> sf == |sl| && !Sleeps(sl, p)
  {
    sf := 0;
    while sf < |sl| && sl[sf].pid != p
      invariant 0 <= sf <= |sl|
      invariant forall j :: 0 <= j < sf ==> sl[j].pid != p
    {
      sf := sf + 1;
    }
    if sf < |sl| { FirstMatch(sl, p, sf); }
  }

  /** The deadlock check: follows the edges from the holder of the blocking record until it
      finds the calling process or someone who is not asleep. */
  method Deadflck(sl: seq<Sleeper>, holder: int, caller: int) returns (dead: bool)
    requires Acyclic(sl)
    ensures dead <==> Leads(sl, holder, caller)
  {
    hide Walk, Sleeps, WaitsFor, Acyclic;
    WalkStart(sl, holder);
    var blckpid := holder;
    ghost var k: nat := 0;
    ghost var seen: set<int> := {};
    ghost var all := set i | 0 <= i < |sl| :: sl[i].pid;
    while true
      invariant Walk(sl, holder, k) == At(blckpid)
      invariant forall j: nat :: j < k ==> Walk(sl, holder, j).At? && Walk(sl, holder, j).pid in seen
      invariant forall x :: x in seen ==> exists j: nat :: j < k && Walk(sl, holder, j) == At(x)
      invariant seen <= all && caller !in seen
      decreases |all - seen|
    {
      if blckpid == caller {
        return true;
      }
      var sf := FindSleeper(sl, blckpid);
      if sf == |sl| {
        NeverReached(sl, holder, caller, k, blckpid, seen);
        return false;
      }
      WalkStep(sl, holder, k);
      NotSeen(sl, holder, k, blckpid);
      assert blckpid in all && blckpid !in seen;
      Shrinks(all, seen, blckpid);
      seen := seen + {blckpid};
      blckpid := sl[sf].blkpid;
      k := k + 1;
    }
  }

  lemma {:induction false} FirstMatch(sl: seq<Sleeper>, p: int, i: nat)
    requires i < |sl| && sl[i].pid == p && forall j :: 0 <= j < i ==> sl[j].pid != p
    ensures Sleeps(sl, p) && WaitsFor(sl, p) == sl[i].blkpid
  {
    assert Sleeps(sl, p);
    if i > 0 {
      FirstMatch(sl[1..], p, i - 1);
    }
  }

  /** A walk never comes back to where it has been. */
  lemma NotSeen(sl: seq<Sleeper>, p: int, k: nat, last: int)
    requires Acyclic(sl) && Walk(sl, p, k) == At(last)
    ensures forall j: nat :: j < k ==> Walk(sl, p, j) != At(last)
  {
    forall j: nat | j < k ensures Walk(sl, p, j) != At(last) {
      WalkAdd(sl, p, j, k - j);
      assert Walk(sl, last, k - j) != At(last);
    }
  }

  lemma Shrinks(all: set<int>, seen: set<int>, x: int)
    requires x in all && x !in seen
    ensures |all - (seen + {x})| < |all - seen|
  {
    assert all - seen == (all - (seen + {x})) + {x};
  }

  /** The walk has ended without meeting `caller`. */
  lemma NeverReached(sl: seq<Sleeper>, holder: int, caller: int, k: nat, last: int, seen: set<int>)
    requires Walk(sl, holder, k) == At(last) && !Sleeps(sl, last) && last != caller && caller !in seen
    requires forall j: nat :: j < k ==> Walk(sl, holder, j).At? && Walk(sl, holder, j).pid in seen
    ensures !Leads(sl, holder, caller)
  {
    forall j: nat ensures Walk(sl, holder, j) != At(caller) {
      if j > k {
        WalkAdd(sl, holder, k, j - k);
      }
    }
  }

  // ----- what adding and removing an edge does -----

  /** As long as a walk avoids `u`, a further edge out of `u` changes nothing. */
  lemma {:induction false} WalkOld(sl: seq<Sleeper>, e: Sleeper, p: int, k: nat)
    requires forall j: nat :: j < k ==> Walk(sl, p, j) != At(e.pid)
    ensures Walk([e] + sl, p, k) == Walk(sl, p, k)
    decreases k
  {
    if k > 0 {
      assert Walk(sl, p, 0) == At(p);
      SleepsCons(sl, e, p);
      if Sleeps(sl, p) {
        forall j: nat | j < k - 1 ensures Walk(sl, WaitsFor(sl, p), j) != At(e.pid) {
          assert Walk(sl, p, j + 1) != At(e.pid);
        }
        WalkOld(sl, e, WaitsFor(sl, p), k - 1);
      }
    }
  }

  lemma SleepsCons(sl: seq<Sleeper>, e: Sleeper, p: int)
    ensures Sleeps([e] + sl, p) <==> p == e.pid || Sleeps(sl, p)
    ensures p != e.pid && Sleeps(sl, p) ==> WaitsFor([e] + sl, p) == WaitsFor(sl, p)
    ensures p == e.pid ==> WaitsFor([e] + sl, p) == e.blkpid
  {
    var s2 := [e] + sl;
    assert s2[1..] == sl;
    if Sleeps(sl, p) {
      var i :| 0 <= i < |sl| && sl[i].pid == p;
      assert s2[i + 1].pid == p;
    }
    assert s2[0].pid == e.pid;
    if Sleeps(s2, p) && p != e.pid {
      var i :| 0 <= i < |s2| && s2[i].pid == p;
      assert sl[i - 1].pid == p;
    }
  }

  /** The first step at which a walk is at `u`. */
  lemma {:induction false} FirstVisit(sl: seq<Sleeper>, p: int, u: int, k: nat) returns (m: nat)
    requires Walk(sl, p, k) == At(u)
    ensures m <= k && Walk(sl, p, m) == At(u) && forall j: nat :: j < m ==> Walk(sl, p, j) != At(u)
    decreases k
  {
    if j: nat :| j < k && Walk(sl, p, j) == At(u) {
      m := FirstVisit(sl, p, u, j);
    } else {
      m := k;
    }
  }

  /** A walk in the larger graph that never visits `u` is a walk in the smaller one. */
  lemma {:induction false} WalkAvoids(sl: seq<Sleeper>, e: Sleeper, p: int, k: nat)
    requires forall j: nat :: j < k ==> Walk([e] + sl, p, j) != At(e.pid)
    ensures Walk(sl, p, k) == Walk([e] + sl, p, k)
    decreases k
  {
    if k > 0 {
      assert Walk([e] + sl, p, 0) == At(p);
      SleepsCons(sl, e, p);
      if Sleeps(sl, p) {
        forall j: nat | j < k - 1 ensures Walk([e] + sl, WaitsFor(sl, p), j) != At(e.pid) {
          assert Walk([e] + sl, p, j + 1) != At(e.pid);
        }
        WalkAvoids(sl, e, WaitsFor(sl, p), k - 1);
      }
    }
  }

  /** A new edge closes a cycle exactly when its end leads back to its start. */
  lemma AddEdge(sl: seq<Sleeper>, e: Sleeper)
    requires Acyclic(sl) && !Sleeps(sl, e.pid)
    ensures Acyclic([e] + sl) <==> !Leads(sl, e.blkpid, e.pid)
  {
    var g := [e] + sl;
    SleepsCons(sl, e, e.pid);
    if k: nat :| Walk(sl, e.blkpid, k) == At(e.pid) {
      var m := FirstVisit(sl, e.blkpid, e.pid, k);
      WalkOld(sl, e, e.blkpid, m);
      assert Walk(g, e.pid, m + 1) == At(e.pid);
    } else {
      forall p, k: nat | 0 < k ensures Walk(g, p, k) != At(p) {
        if Walk(g, p, k) == At(p) { NoNewCycle(sl, e, p, k); }
      }
    }
  }

  lemma NoNewCycle(sl: seq<Sleeper>, e: Sleeper, p: int, k: nat)
    requires Acyclic(sl) && !Leads(sl, e.blkpid, e.pid) && 0 < k
    ensures Walk([e] + sl, p, k) != At(p)
  {
    var g := [e] + sl;
    if Walk(g, p, k) == At(p) {
      if j: nat :| j < k && Walk(g, p, j) == At(e.pid) {
        // turn the cycle so that it starts at e.pid
        WalkAdd(g, p, j, k - j);
        WalkAdd(g, e.pid, k - j, j);
        SleepsCons(sl, e, e.pid);
        var m := FirstVisit(g, e.blkpid, e.pid, k - 1);
        WalkAvoids(sl, e, e.blkpid, m);
        assert false;
      } else {
        WalkAvoids(sl, e, p, k);
        assert false;
      }
    }
  }

  function RemoveAt(sl: seq<Sleeper>, i: nat): seq<Sleeper>
    requires i < |sl|
  {
    sl[..i] + sl[i + 1..]
  }

  lemma WaitsForAt(sl: seq<Sleeper>, i: nat)
    requires i < |sl| && OneEdgeEach(sl)
    ensures Sleeps(sl, sl[i].pid) && WaitsFor(sl, sl[i].pid) == sl[i].blkpid
  {
    FirstMatch(sl, sl[i].pid, i);
  }

  lemma RemoveKeeps(sl: seq<Sleeper>, i: nat, p: int)
    requires i < |sl| && OneEdgeEach(sl) && Sleeps(RemoveAt(sl, i), p)
    ensures Sleeps(sl, p) && WaitsFor(sl, p) == WaitsFor(RemoveAt(sl, i), p) && OneEdgeEach(RemoveAt(sl, i))
  {
    var g := RemoveAt(sl, i);
    forall a, b | 0 <= a < b < |g| ensures g[a].pid != g[b].pid {
      assert g[a] == sl[if a < i then a else a + 1] && g[b] == sl[if b < i then b else b + 1];
    }
    var j :| 0 <= j < |g| && g[j].pid == p;
    var j' := if j < i then j else j + 1;
    assert g[j] == sl[j'];
    WaitsForAt(g, j);
    WaitsForAt(sl, j');
  }

  lemma {:induction false} WalkRemove(sl: seq<Sleeper>, i: nat, p: int, k: nat)
    requires i < |sl| && OneEdgeEach(sl) && Walk(RemoveAt(sl, i), p, k).At?
    ensures Walk(sl, p, k) == Walk(RemoveAt(sl, i), p, k)
    decreases k
  {
    if k > 0 {
      RemoveKeeps(sl, i, p);
      WalkRemove(sl, i, WaitsFor(sl, p), k - 1);
    }
  }

  lemma RemoveEdge(sl: seq<Sleeper>, i: nat)
    requires i < |sl| && OneEdgeEach(sl) && Acyclic(sl)
    ensures Acyclic(RemoveAt(sl, i)) && OneEdgeEach(RemoveAt(sl, i))
  {
    var g := RemoveAt(sl, i);
    forall a, b | 0 <= a < b < |g| ensures g[a].pid != g[b].pid {
      assert g[a] == sl[if a < i then a else a + 1] && g[b] == sl[if b < i then b else b + 1];
    }
    forall p, k: nat | 0 < k ensures Walk(g, p, k) != At(p) {
      if Walk(g, p, k) == At(p) { WalkRemove(sl, i, p, k); assert false; }
    }
  }

  /** The list after the sleepers on the records `w` have been woken. */
  function Waken(sl: seq<Sleeper>, w: set<int>): seq<Sleeper> {
    seq(|sl|, i requires 0 <= i < |sl| => if sl[i].on.id in w then sl[i].(awake := true) else sl[i])
  }

  lemma {:induction false} WakenEdges(sl: seq<Sleeper>, w: set<int>, p: int)
    ensures Sleeps(Waken(sl, w), p) <==> Sleeps(sl, p)
    ensures Sleeps(sl, p) ==> WaitsFor(Waken(sl, w), p) == WaitsFor(sl, p)
  {
    var g := Waken(sl, w);
    forall i | 0 <= i < |sl| ensures g[i].pid == sl[i].pid && g[i].blkpid == sl[i].blkpid {}
    if sl != [] {
      assert Waken(sl[1..], w) == g[1..];
      WakenEdges(sl[1..], w, p);
    }
  }

  lemma {:induction false} WakenWalk(sl: seq<Sleeper>, w: set<int>, p: int, k: nat)
    ensures Walk(Waken(sl, w), p, k) == Walk(sl, p, k)
    decreases k
  {
    WakenEdges(sl, w, p);
    if k > 0 && Sleeps(sl, p) { WakenWalk(sl, w, WaitsFor(sl, p), k - 1); }
  }

  lemma WakenAcyclic(sl: seq<Sleeper>, w: set<int>)
    ensures Acyclic(Waken(sl, w)) <==> Acyclic(sl)
    ensures OneEdgeEach(Waken(sl, w)) <==> OneEdgeEach(sl)
  {
    forall p, k: nat ensures Walk(Waken(sl, w), p, k) == Walk(sl, p, k) { WakenWalk(sl, w, p, k); }
    var g := Waken(sl, w);
    forall i | 0 <= i < |sl| ensures g[i].pid == sl[i].pid {}
    if OneEdgeEach(g) {
      forall i, j | 0 <= i < j < |sl| ensures sl[i].pid != sl[j].pid { assert g[i].pid != g[j].pid; }
    }
  }
}
