/** Every run of the allocator, for callers that give back only bytes they own. */
module KmemRun {
  import opened CartesianTree

  /** `out` holds the bytes owned by callers, `pending` the deferred blocks. */
  datatype State = State(tree: Tree, pending: multiset<Block>, out: set<int>)

  datatype Event = Alloc(n: int, addr: int) | Free(p: int, n: int) | Defer(p: int, n: int)

  /** Managed bytes: [base, base+max). */
  datatype Arena = Arena(base: int, max: int)

  ghost function Range(p: int, n: int): set<int> {
    set x: int | p <= x < p + n && In(x, p, n)
  }

  /** One call by a well-behaved caller. */
  ghost predicate Next(s: State, e: Event, s': State) {
    match e
    case Alloc(n, addr) =>
      && (exists t1 :: Drained(s.tree, s.pending, t1) && AllocStep(t1, n, addr, s'.tree))
      && s'.pending == multiset{} && s'.out == s.out + Range(addr, n)
    case Free(p, n) =>
      && 0 < n && Range(p, n) <= s.out && FreeStep(s.tree, p, n, s'.tree)
      && s'.pending == s.pending && s'.out == s.out - Range(p, n)
    case Defer(p, n) =>
      && 0 < n && Range(p, n) <= s.out && s'.tree == s.tree
      && s'.pending == s.pending + Pieces(p, n) && s'.out == s.out - Range(p, n)
  }

  ghost predicate Start(a: Arena, s: State) {
    && 0 < a.max && FreeStep(Nil, a.base, a.max, s.tree)
    && s.pending == multiset{} && s.out == {}
  }

  ghost predicate Run(a: Arena, ss: seq<State>, es: seq<Event>) {
    && |ss| == |es| + 1 && Start(a, ss[0])
    && forall i :: 0 <= i < |es| ==> Next(ss[i], es[i], ss[i + 1])
  }

  predicate Deferred(pending: multiset<Block>, x: int) {
    exists b :: b in pending && In(x, b.addr, b.size)
  }

  predicate Separate(b: Block, b': Block) {
    b.addr + b.size <= b'.addr || b'.addr + b'.size <= b.addr
  }

  /** The deferred blocks are non-empty and pairwise disjoint. */
  predicate PendingOk(pending: multiset<Block>) {
    && (forall b :: b in pending ==> 0 < b.size && pending[b] == 1)
    && (forall b, b' :: b in pending && b' in pending && b != b' ==> Separate(b, b'))
  }

  /** The tree keeps both orders and the gaps; every byte of the arena is free, deferred or
      owned, and only one of these. */
  ghost predicate Inv(a: Arena, s: State) {
    && Spaced(s.tree, a.base - 1, a.base + a.max + 1) && HeapOrdered(s.tree)
    && PendingOk(s.pending)
    && (forall x :: CartesianTree.Free(s.tree, x) || Deferred(s.pending, x) || x in s.out <==> In(x, a.base, a.max))
    && (forall x :: !(CartesianTree.Free(s.tree, x) && Deferred(s.pending, x)))
    && (forall x :: x in s.out ==> !CartesianTree.Free(s.tree, x) && !Deferred(s.pending, x))
  }

  lemma StartInv(a: Arena, s: State)
    requires Start(a, s)
    ensures Inv(a, s)
  {
    FreeStepCorrect(Nil, a.base, a.max, s.tree, a.base - 1, a.base + a.max + 1);
  }

  /** A caller's own bytes never collide with a free block, so giving them back never panics. */
  lemma OwnedNoOverlap(a: Arena, s: State, p: int, n: int)
    requires Inv(a, s) && 0 < n && Range(p, n) <= s.out
    ensures !Overlaps(s.tree, p, n) && a.base <= p && p + n <= a.base + a.max
  {
    hide Spaced, HeapOrdered, PendingOk, Deferred, CartesianTree.Free, Overlaps;
    assert p in Range(p, n) && p + n - 1 in Range(p, n);
    if Overlaps(s.tree, p, n) {
      var x := OverlapsFree(s.tree, a.base - 1, a.base + a.max + 1, p, n);
    }
  }

  lemma FreeInv(a: Arena, s: State, p: int, n: int, s': State)
    requires Inv(a, s) && Next(s, Free(p, n), s')
    ensures Inv(a, s')
  {
    OwnedNoOverlap(a, s, p, n);
    FreeStepCorrect(s.tree, p, n, s'.tree, a.base - 1, a.base + a.max + 1);
    forall x ensures In(x, p, n) <==> x in Range(p, n) {}
  }

  lemma DeferredAdd(u: multiset<Block>, v: multiset<Block>, x: int)
    ensures Deferred(u + v, x) <==> Deferred(u, x) || Deferred(v, x)
  {
    if Deferred(u, x) {
      var b :| b in u && In(x, b.addr, b.size);
      assert b in u + v;
    }
    if Deferred(v, x) {
      var b :| b in v && In(x, b.addr, b.size);
      assert b in u + v;
    }
  }

  lemma DeferredPieces(p: int, n: int, x: int)
    requires 0 < n
    ensures Deferred(Pieces(p, n), x) <==> In(x, p, n)
  {
    var m := AlignMore(p);
    if In(x, p, n) {
      var b := if 8 <= n && p % ALIGN != 0 then if x < p + m then Block(p, m) else Block(p + m, n - m) else Block(p, n);
      assert b in Pieces(p, n) && In(x, b.addr, b.size);
    }
  }

  lemma DeferredOne(b: Block, x: int)
    ensures Deferred(multiset{b}, x) <==> x in Range(b.addr, b.size)
  {
    assert b in multiset{b};
  }

  lemma PiecesOk(p: int, n: int)
    requires 0 < n
    ensures PendingOk(Pieces(p, n))
  {
  }

  /** Two groups of deferred blocks with no byte in common. */
  lemma PendingOkAdd(u: multiset<Block>, v: multiset<Block>)
    requires PendingOk(u) && PendingOk(v) && forall x :: !(Deferred(u, x) && Deferred(v, x))
    ensures PendingOk(u + v)
  {
    forall b, b' | b in u && b' in v ensures Separate(b, b') && b != b' {
      var x := if b.addr < b'.addr then b'.addr else b.addr;
      if !Separate(b, b') || b == b' {
        assert In(x, b.addr, b.size) && In(x, b'.addr, b'.size);
        assert Deferred(u, x);
      }
    }
  }

  lemma DeferInv(a: Arena, s: State, p: int, n: int, s': State)
    requires Inv(a, s) && Next(s, Defer(p, n), s')
    ensures Inv(a, s')
  {
    var ps := Pieces(p, n);
    PiecesOk(p, n);
    forall x
      ensures Deferred(s'.pending, x) <==> Deferred(s.pending, x) || x in Range(p, n)
      ensures !(Deferred(s.pending, x) && Deferred(ps, x))
    {
      DeferredAdd(s.pending, ps, x);
      DeferredPieces(p, n, x);
      assert x in Range(p, n) <==> In(x, p, n);
    }
    PendingOkAdd(s.pending, ps);
  }

  /** One deferred block is given back. */
  lemma DrainOneInv(a: Arena, s: State, b: Block, t': Tree)
    requires Inv(a, s) && b in s.pending && FreeStep(s.tree, b.addr, b.size, t')
    ensures Inv(a, State(t', s.pending - multiset{b}, s.out))
    ensures !Overlaps(s.tree, b.addr, b.size)
  {
    hide Spaced, HeapOrdered, PendingOk, Deferred, FreeStep, CartesianTree.Free, Overlaps;
    DeferredMinus(s.pending, b);
    assert In(b.addr, b.addr, b.size) && In(b.addr + b.size - 1, b.addr, b.size);
    FreeStepCorrect(s.tree, b.addr, b.size, t', a.base - 1, a.base + a.max + 1);
    forall x ensures In(x, b.addr, b.size) <==> b.addr <= x < b.addr + b.size {}
  }

  /** The bytes of a deferred block are in no other. */
  lemma DeferredMinus(pending: multiset<Block>, b: Block)
    requires PendingOk(pending) && b in pending
    ensures PendingOk(pending - multiset{b}) && 0 < b.size
    ensures forall x :: Deferred(pending, x) <==> Deferred(pending - multiset{b}, x) || In(x, b.addr, b.size)
    ensures forall x :: In(x, b.addr, b.size) ==> !Deferred(pending - multiset{b}, x)
  {
    var rest := pending - multiset{b};
    forall x ensures Deferred(pending, x) <==> Deferred(rest, x) || In(x, b.addr, b.size) {
      if Deferred(pending, x) {
        var c :| c in pending && In(x, c.addr, c.size);
        assert c == b || c in rest;
      }
    }
    forall x | In(x, b.addr, b.size) ensures !Deferred(rest, x) {
      forall c | c in rest ensures !In(x, c.addr, c.size) { assert c != b && c in pending; }
    }
  }

  /** The deferred blocks `done` have been given back, and `rest` not yet. */
  lemma {:induction false} DrainInv(a: Arena, s: State, ts: seq<Tree>, done: seq<Block>, rest: seq<Block>)
    requires Inv(a, s) && multiset(done + rest) == s.pending && FreeTrace(ts, done) && ts[0] == s.tree
    ensures Inv(a, State(ts[|done|], multiset(rest), s.out))
    decreases |done|
  {
    if done != [] {
      Peeled(s.pending, done, rest);
      TraceTail(ts, done);
      hide Inv, FreeTrace, FreeStep;
      DrainOneInv(a, s, done[0], ts[1]);
      DrainInv(a, State(ts[1], s.pending - multiset{done[0]}, s.out), ts[1..], done[1..], rest);
    } else {
      assert [] + rest == rest;
      assert s == State(ts[0], multiset(rest), s.out);
    }
  }

  lemma Peeled(pending: multiset<Block>, done: seq<Block>, rest: seq<Block>)
    requires done != [] && multiset(done + rest) == pending
    ensures done[0] in pending && multiset(done[1..] + rest) == pending - multiset{done[0]}
  {
    assert done + rest == [done[0]] + (done[1..] + rest);
  }

  lemma TraceTail(ts: seq<Tree>, bs: seq<Block>)
    requires FreeTrace(ts, bs) && bs != []
    ensures FreeStep(ts[0], bs[0].addr, bs[0].size, ts[1]) && FreeTrace(ts[1..], bs[1..])
  {
    assert FreeStep(ts[0], bs[0].addr, bs[0].size, ts[0 + 1]);
    forall i | 0 <= i < |bs[1..]| ensures FreeStep(ts[1..][i], bs[1..][i].addr, bs[1..][i].size, ts[1..][i + 1]) {
      assert FreeStep(ts[i + 1], bs[i + 1].addr, bs[i + 1].size, ts[i + 1 + 1]);
    }
  }

  /** A deferred block lies in the arena and overlaps no free one. */
  lemma PendingNoOverlap(a: Arena, s: State, b: Block)
    requires Inv(a, s) && b in s.pending
    ensures 0 < b.size && !Overlaps(s.tree, b.addr, b.size) && a.base <= b.addr && b.addr + b.size <= a.base + a.max
  {
    forall x | In(x, b.addr, b.size) ensures Deferred(s.pending, x) && In(x, a.base, a.max) {}
    assert In(b.addr, b.addr, b.size) && In(b.addr + b.size - 1, b.addr, b.size);
    if Overlaps(s.tree, b.addr, b.size) {
      var x := OverlapsFree(s.tree, a.base - 1, a.base + a.max + 1, b.addr, b.size);
    }
  }

  /** None of the deferred blocks collides when its turn comes. */
  lemma DrainNoOverlap(a: Arena, s: State, bs: seq<Block>, k: nat, t: Tree)
    requires Inv(a, s) && multiset(bs) == s.pending && k < |bs| && FreeRun(s.tree, bs[..k], t)
    ensures !Overlaps(t, bs[k].addr, bs[k].size)
  {
    var ts :| FreeTrace(ts, bs[..k]) && ts[0] == s.tree && ts[|bs[..k]|] == t;
    assert bs == bs[..k] + bs[k..];
    assert bs[k] in bs[k..];
    hide Inv, FreeTrace;
    DrainInv(a, s, ts, bs[..k], bs[k..]);
    PendingNoOverlap(a, State(t, multiset(bs[k..]), s.out), bs[k]);
  }

  lemma AllocInv(a: Arena, s: State, n: int, addr: int, s': State)
    requires Inv(a, s) && Next(s, Alloc(n, addr), s')
    ensures Inv(a, s') && Range(addr, n) !! s.out && (ALIGN <= n ==> addr % ALIGN == 0)
    ensures a.base <= addr && addr + n <= a.base + a.max
  {
    var t1 :| Drained(s.tree, s.pending, t1) && AllocStep(t1, n, addr, s'.tree);
    var bs :| multiset(bs) == s.pending && FreeRun(s.tree, bs, t1);
    var ts :| FreeTrace(ts, bs) && ts[0] == s.tree && ts[|bs|] == t1;
    assert bs + [] == bs && s'.pending == multiset{} && s'.out == s.out + Range(addr, n);
    assert multiset([]) == s'.pending;
    hide *;
    DrainInv(a, s, ts, bs, []);
    DrainedAllocInv(a, State(t1, multiset{}, s.out), n, addr, s'.tree);
  }

  lemma InRange(p: int, n: int)
    ensures forall x :: x in Range(p, n) <==> In(x, p, n)
  {
  }

  lemma DrainedAllocInv(a: Arena, s: State, n: int, addr: int, t': Tree)
    requires Inv(a, s) && s.pending == multiset{} && AllocStep(s.tree, n, addr, t')
    ensures Inv(a, State(t', multiset{}, s.out + Range(addr, n)))
    ensures Range(addr, n) !! s.out && (ALIGN <= n ==> addr % ALIGN == 0)
    ensures a.base <= addr && addr + n <= a.base + a.max
  {
    hide Spaced, HeapOrdered, AllocStep, CartesianTree.Free, PendingOk;
    AllocStepCorrect(s.tree, n, addr, t', a.base - 1, a.base + a.max + 1);
    InRange(addr, n);
  }

  /** Safety over every run. */
  lemma {:induction false} RunInv(a: Arena, ss: seq<State>, es: seq<Event>, k: nat)
    requires Run(a, ss, es) && k <= |es|
    ensures Inv(a, ss[k])
  {
    if k == 0 {
      StartInv(a, ss[0]);
    } else {
      RunInv(a, ss, es, k - 1);
      assert Next(ss[k - 1], es[k - 1], ss[k - 1 + 1]);
      match es[k - 1]
      case Alloc(n, addr) => AllocInv(a, ss[k - 1], n, addr, ss[k]);
      case Free(p, n) => FreeInv(a, ss[k - 1], p, n, ss[k]);
      case Defer(p, n) => DeferInv(a, ss[k - 1], p, n, ss[k]);
    }
  }

  // ----- conservation of bytes -----

  lemma {:induction false} RangeSize(p: int, n: int)
    requires 0 <= n
    ensures |Range(p, n)| == n
    decreases n
  {
    if n > 0 {
      RangeSize(p, n - 1);
      assert Range(p, n) == Range(p, n - 1) + {p + n - 1};
    } else {
      assert Range(p, n) == {};
    }
  }

  ghost function FreeBytes(t: Tree): set<int> {
    match t
    case Nil => {}
    case Node(l, _, b, s, r) => FreeBytes(l) + Range(b, s) + FreeBytes(r)
  }

  lemma DisjointSize(u: set<int>, v: set<int>, w: set<int>, b: int, e: int)
    requires b <= e && (forall x :: x in u ==> x < b) && (forall x :: x in v ==> b <= x < e)
    requires forall x :: x in w ==> e < x
    ensures |u + v + w| == |u| + |v| + |w|
  {
    forall x | x in u ensures x !in v && x !in w {}
    forall x | x in v ensures x !in w {}
    assert u * v == {} && (u + v) * w == {};
  }

  lemma ThreeSizes(u: set<int>, v: set<int>, w: set<int>)
    requires forall x :: !(x in u && x in v) && (x in w ==> x !in u && x !in v)
    ensures |u + v + w| == |u| + |v| + |w|
  {
    forall x | x in u ensures x !in v {}
    forall x | x in u + v ensures x !in w {}
    assert u * v == {} && (u + v) * w == {};
  }

  lemma {:induction false} FreeBytesSize(t: Tree, lo: int, hi: int)
    requires Spaced(t, lo, hi)
    ensures |FreeBytes(t)| == Total(t)
    ensures forall x :: x in FreeBytes(t) <==> CartesianTree.Free(t, x)
    ensures forall x :: x in FreeBytes(t) ==> lo < x < hi
  {
    match t
    case Nil =>
    case Node(l, _, b, s, r) =>
      FreeBytesSize(l, lo, b);
      FreeBytesSize(r, b + s, hi);
      RangeSize(b, s);
      DisjointSize(FreeBytes(l), Range(b, s), FreeBytes(r), b, b + s);
      hide FreeBytes, Spaced, Range;
  }

  ghost function DeferredBytes(pending: multiset<Block>): set<int>
    decreases |pending|
  {
    if pending == multiset{} then {}
    else var b :| b in pending; Range(b.addr, b.size) + DeferredBytes(pending - multiset{b})
  }

  lemma {:induction false} DeferredBytesSet(pending: multiset<Block>)
    requires PendingOk(pending)
    ensures forall x :: x in DeferredBytes(pending) <==> Deferred(pending, x)
    decreases |pending|
  {
    if pending != multiset{} {
      var b :| b in pending && DeferredBytes(pending) == Range(b.addr, b.size) + DeferredBytes(pending - multiset{b});
      var rest := pending - multiset{b};
      DeferredBytesSet(rest);
      assert pending == rest + multiset{b};
      forall x ensures Deferred(pending, x) <==> Deferred(rest, x) || x in Range(b.addr, b.size) {
        DeferredAdd(rest, multiset{b}, x);
        DeferredOne(b, x);
      }
    }
  }

  lemma ThreeParts(a: Arena, s: State, f: set<int>, d: set<int>)
    requires Inv(a, s)
    requires forall x :: x in f <==> CartesianTree.Free(s.tree, x)
    requires forall x :: x in d <==> Deferred(s.pending, x)
    ensures f + d + s.out == Range(a.base, a.max)
    ensures forall x :: !(x in f && x in d) && (x in s.out ==> x !in f && x !in d)
  {
    hide Spaced, HeapOrdered, PendingOk, Deferred, CartesianTree.Free;
    forall x ensures x in f + d + s.out <==> x in Range(a.base, a.max) {}
  }

  /** Free bytes, deferred bytes and owned bytes always add up to the arena. */
  lemma Conservation(a: Arena, ss: seq<State>, es: seq<Event>, k: nat)
    requires Run(a, ss, es) && k <= |es|
    ensures Total(ss[k].tree) + |DeferredBytes(ss[k].pending)| + |ss[k].out| == a.max
  {
    RunInv(a, ss, es, k);
    var s := ss[k];
    FreeBytesSize(s.tree, a.base - 1, a.base + a.max + 1);
    DeferredBytesSet(s.pending);
    RangeSize(a.base, a.max);
    var f, d := FreeBytes(s.tree), DeferredBytes(s.pending);
    ThreeParts(a, s, f, d);
    hide *;
    ThreeSizes(f, d, s.out);
  }

  // ----- a request that is turned down although a block fits -----

  /** All 24 bytes at 4 are handed out, and 8 bytes at 5 and at 16 come back. */
  function SkewedStates(): seq<State> {
    var a, b := Node(Nil, 0, 5, 8, Nil), Node(Nil, 1, 16, 8, Nil);
    var out := set x: int | 4 <= x < 28 && In(x, 4, 24);
    [State(Node(Nil, 0, 4, 24, Nil), multiset{}, {}), State(Nil, multiset{}, out),
     State(a, multiset{}, out - set x: int | 5 <= x < 13 && In(x, 5, 8)),
     State(a.(right := b), multiset{},
       out - (set x: int | 5 <= x < 13 && In(x, 5, 8)) - set x: int | 16 <= x < 24 && In(x, 16, 8))]
  }

  function SkewedEvents(): seq<Event> {
    [Alloc(24, 4), Free(5, 8), Free(16, 8)]
  }

  /** The root test turns down a request of 6 bytes in a state that calls lead to. */
  lemma SkewedRunMisses()
    ensures Run(Arena(4, 24), SkewedStates(), SkewedEvents())
    ensures var t := SkewedStates()[3].tree; AlignedWeight(t) < 6 && Fits(t, 6)
  {
    var ss, es := SkewedStates(), SkewedEvents();
    var t0, t1, t2, t3 := ss[0].tree, ss[1].tree, ss[2].tree, ss[3].tree;
    assert FreeInto(Nil, 4, 24, 0, t0);
    FreeRunNone(t0);
    assert multiset([]) == ss[0].pending;
    assert Drained(t0, ss[0].pending, t0);
    assert AllocInto(t0, 24, 1, 4, t1);
    assert ss[1].out == ss[0].out + Range(4, 24);
    assert FreeInto(t1, 5, 8, 0, t2);
    assert ss[2].out == ss[1].out - Range(5, 8);
    assert FreeInto(t2, 16, 8, 1, t3);
    assert ss[3].out == ss[2].out - Range(16, 8);
    assert Next(ss[0], es[0], ss[1]) && Next(ss[1], es[1], ss[2]) && Next(ss[2], es[2], ss[3]);
  }
}
