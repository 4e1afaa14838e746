/** The allocator and the bytes that callers own: every history of its calls is one of the runs of
    `KmemRun`, so what is proved of those holds of it. */
module KmemServer {
  import opened CartesianTree
  import opened KmemRun
  import H = KmemHeap

  class KmemServer {
    const heap: H.KmemHeap
    ghost var out: set<int>      // the bytes that callers own
    ghost var ss: seq<State>     // the states since the storage array was handed over
    ghost var es: seq<Event>     // the calls between them

    ghost function Whole(): Arena
      reads this, heap
    {
      Arena(heap.CoreBegin(), heap.maxcore)
    }

    ghost function St(): State
      reads this, heap, heap.needTab
    {
      State(heap.tree, multiset(heap.Pending()), out)
    }

    ghost predicate Valid()
      reads this, heap, heap.hdr, heap.needTab
    {
      heap.Valid() && Logged(heap.coreAlreadyFreed, Whole(), St(), ss, es)
    }

    constructor (headers: nat, coreAddr: int, max: nat)
      requires 0 < headers && 0 < coreAddr
      ensures heap.Pending() == [] && !heap.coreAlreadyFreed && heap.Spare() == headers
      ensures Valid() && heap.maxcore == max && out == {} && fresh(heap) && fresh(heap.hdr) && fresh(heap.needTab)
    {
      heap := new H.KmemHeap(headers, coreAddr, max);
      out, ss, es := {}, [], [];
    }

    /** A request: memory is handed out that nobody owns, or there is none; nothing else can go wrong
        while headers are left, unless the first request exceeds the storage array. */
    method Alloc(n: H.UInt) returns (st: H.Status, addr: int)
      requires Valid()
      modifies this, heap, heap.hdr, heap.needTab
      ensures st.Done? || st.NoMemory? || st.NoHeader? || st.NullHeader?
      ensures st.NullHeader? <==> old(heap.Exceeds(n)) && heap.maxcore == 0
      ensures st.NoHeader? ==> old(heap.Spare()) < |old(heap.Pending())| + 3
      ensures st.Done? ==> (Valid() <==> !old(heap.Exceeds(n)))
      ensures st.Done? && old(heap.Exceeds(n)) ==> addr == Whole().base && Whole().base + Whole().max < addr + n
      ensures n == 0 ==> st.Done? && addr == 0 && Valid() && St() == old(St())
      ensures !st.NoHeader? ==> (st.NoMemory? <==> 0 < n && old(heap.Short(n)))
      ensures 0 < n && st.Done? && Valid() ==>
        old(ss) <= ss && es == old(es) + [KmemRun.Alloc(n, addr)] && out == old(out) + Range(addr, n)
    {
      hide H.KmemHeap.Linked, H.KmemHeap.Ordered, H.KmemHeap.PendingSane, Range, AllocStep, FreeStep, BestFit;
      ghost var s, was, ps, beyond := St(), heap.coreAlreadyFreed, heap.Pending(), heap.Exceeds(n);
      LogSafe(was, Whole(), s, ss, es, ps);
      heap.Bounds();
      hide Logged, FreeRun, Overlaps, H.KmemHeap.Short, H.KmemHeap.Valid, H.KmemHeap.Pending;
      st, addr := heap.KmemAlloc(n);
      if st.Done? && 0 < n && !beyond {
        ghost var t1 :| (if was then FreeRun(s.tree, ps, t1) else FreeStep(Nil, heap.CoreBegin(), heap.maxcore, t1))
          && AllocStep(t1, n, addr, heap.tree);
        out := out + Range(addr, n);
        LogAlloc(was, Whole(), s, ss, es, ps, t1, n, addr, St());
        ss, es := (if was then ss else [State(t1, multiset{}, {})]) + [St()], es + [KmemRun.Alloc(n, addr)];
      }
    }

    /** A caller gives bytes back that it owns. */
    method Free(p: int, n: nat) returns (st: H.Status)
      requires Valid() && Range(p, n) <= out
      modifies this, heap, heap.hdr
      ensures st.Done? || (st.NoHeader? && old(heap.Spare()) == 0)
      ensures n == 0 ==> st.Done? && Valid() && St() == old(St())
      ensures 0 < n && st.Done? ==>
        && Valid() && ss == old(ss) + [St()] && es == old(es) + [KmemRun.Free(p, n)] && out == old(out) - Range(p, n)
    {
      if n == 0 {
        return H.Done;
      }
      hide H.KmemHeap.Linked, H.KmemHeap.Ordered, H.KmemHeap.PendingSane, Range, Run;
      ghost var s := St();
      LogOwned(heap.coreAlreadyFreed, Whole(), s, ss, es, p, n);
      heap.Bounds();
      hide Logged, FreeStep, Overlaps, H.KmemHeap.Valid, H.KmemHeap.Pending;
      st := heap.FreeRange(p, n);
      if st.Done? {
        out := out - Range(p, n);
        LogFree(Whole(), s, ss, es, p, n, St());
        ss, es := ss + [St()], es + [KmemRun.Free(p, n)];
      }
    }

    /** A caller gives bytes back that it owns, at interrupt level. */
    method FreeIntr(p: int, n: nat) returns (st: H.Status)
      requires Valid() && 0 < n && Range(p, n) <= out
      modifies this, heap, heap.needTab
      ensures st.Done? || st.NoSlot?
      ensures st.NoSlot? <==> |H.Occupied(old(heap.needTab[..]))| + H.Slots(p, n) > H.NEED_TO_FREE_SIZE
      ensures st.Done? ==>
        && Valid() && ss == old(ss) + [St()] && es == old(es) + [Defer(p, n)] && out == old(out) - Range(p, n)
    {
      hide H.KmemHeap.Linked, H.KmemHeap.Ordered, H.KmemHeap.PendingSane, Range, Run, Logged, Pieces;
      ghost var s := St();
      LogOwned(heap.coreAlreadyFreed, Whole(), s, ss, es, p, n);
      heap.Bounds();
      hide H.KmemHeap.Valid, H.KmemHeap.Pending;
      st := heap.DeferRange(p, n);
      if st.Done? {
        out := out - Range(p, n);
        LogDefer(Whole(), s, ss, es, p, n, St());
        ss, es := ss + [St()], es + [Defer(p, n)];
      }
    }
  }

  /** On any heap, a first request that is larger than it succeeds, and then the heap is none. */
  method FirstTooLarge(headers: nat, coreAddr: int, max: nat, n: H.UInt) returns (k: KmemServer, addr: int)
    requires 3 <= headers && 0 < coreAddr && 0 < max < n
    ensures fresh(k) && k.heap.maxcore == max && !k.Valid()
    ensures addr == k.heap.CoreBegin() && !(Range(addr, n) <= Range(k.heap.CoreBegin(), max))
  {
    k := new KmemServer(headers, coreAddr, max);
    var st;
    st, addr := k.Alloc(n);
    assert addr + max in Range(addr, n);
  }

  /** The calls `es` have led through the states `ss` to `s`; before the storage array is handed over
      there is nothing to log. */
  ghost predicate Logged(freed: bool, a: Arena, s: State, ss: seq<State>, es: seq<Event>) {
    if freed then Run(a, ss, es) && s == ss[|es|]
    else s.pending == multiset{} && s.out == {} && ss == [] && es == []
  }

  /** Nothing that is deferred collides, or lies outside the arena, when its turn comes. */
  lemma LogSafe(freed: bool, a: Arena, s: State, ss: seq<State>, es: seq<Event>, ps: seq<Block>)
    requires Logged(freed, a, s, ss, es) && multiset(ps) == s.pending
    ensures forall k, t :: 0 <= k < |ps| && FreeRun(s.tree, ps[..k], t) ==> !Overlaps(t, ps[k].addr, ps[k].size)
    ensures forall b :: b in ps ==> freed && a.base <= b.addr && b.addr + b.size <= a.base + a.max
  {
    if freed { RunInv(a, ss, es, |es|); }
    assert forall b :: b in ps ==> b in multiset(ps);
    assert !freed ==> forall b :: b !in ps;
    hide Inv, FreeRun, Run;
    forall k, t | 0 <= k < |ps| && FreeRun(s.tree, ps[..k], t) ensures !Overlaps(t, ps[k].addr, ps[k].size) {
      assert ps[k] in ps;
      DrainNoOverlap(a, s, ps, k, t);
    }
    forall b | b in ps ensures a.base <= b.addr && b.addr + b.size <= a.base + a.max {
      PendingNoOverlap(a, s, b);
    }
  }

  lemma LogOwned(freed: bool, a: Arena, s: State, ss: seq<State>, es: seq<Event>, p: int, n: nat)
    requires Logged(freed, a, s, ss, es) && 0 < n && Range(p, n) <= s.out
    ensures freed && !Overlaps(s.tree, p, n) && a.base <= p && p + n <= a.base + a.max
  {
    assert p in Range(p, n);
    RunInv(a, ss, es, |es|);
    OwnedNoOverlap(a, s, p, n);
  }

  lemma LogAlloc(freed: bool, a: Arena, s: State, ss: seq<State>, es: seq<Event>, ps: seq<Block>, t1: Tree, n: int,
        addr: int, s': State)
    requires Logged(freed, a, s, ss, es) && multiset(ps) == s.pending && 0 < a.max
    requires if freed then FreeRun(s.tree, ps, t1) else FreeStep(Nil, a.base, a.max, t1)
    requires AllocStep(t1, n, addr, s'.tree) && s'.pending == multiset{} && s'.out == s.out + Range(addr, n)
    ensures Logged(true, a, s', (if freed then ss else [State(t1, multiset{}, {})]) + [s'],
      es + [KmemRun.Alloc(n, addr)])
  {
    hide FreeRun, FreeStep, AllocStep;
    if freed {
      assert Drained(s.tree, s.pending, t1);
      RunMore(a, ss, es, KmemRun.Alloc(n, addr), s');
    } else {
      var s0 := State(t1, multiset{}, {});
      FreeRunNone(t1);
      assert multiset([]) == s0.pending && Drained(t1, s0.pending, t1);
      assert Run(a, [s0], []);
      RunMore(a, [s0], [], KmemRun.Alloc(n, addr), s');
    }
  }

  lemma LogFree(a: Arena, s: State, ss: seq<State>, es: seq<Event>, p: int, n: int, s': State)
    requires Logged(true, a, s, ss, es) && 0 < n && Range(p, n) <= s.out && FreeStep(s.tree, p, n, s'.tree)
    requires s'.pending == s.pending && s'.out == s.out - Range(p, n)
    ensures Logged(true, a, s', ss + [s'], es + [KmemRun.Free(p, n)])
  {
    RunMore(a, ss, es, KmemRun.Free(p, n), s');
  }

  lemma LogDefer(a: Arena, s: State, ss: seq<State>, es: seq<Event>, p: int, n: int, s': State)
    requires Logged(true, a, s, ss, es) && 0 < n && Range(p, n) <= s.out && s'.tree == s.tree
    requires s'.pending == s.pending + Pieces(p, n) && s'.out == s.out - Range(p, n)
    ensures Logged(true, a, s', ss + [s'], es + [Defer(p, n)])
  {
    RunMore(a, ss, es, Defer(p, n), s');
  }

  lemma RunMore(a: Arena, ss: seq<State>, es: seq<Event>, e: Event, s': State)
    requires Run(a, ss, es) && Next(ss[|es|], e, s')
    ensures Run(a, ss + [s'], es + [e])
  {
    hide Next;
    var ss', es' := ss + [s'], es + [e];
    forall i | 0 <= i < |es'| ensures Next(ss'[i], es'[i], ss'[i + 1]) {
      if i < |es| { assert Next(ss[i], es[i], ss[i + 1]); }
    }
  }
}
