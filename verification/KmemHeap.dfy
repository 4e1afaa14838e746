/** The "fast fits" kernel memory allocator: the loops over header links. */
module KmemHeap {
  import opened TreeShape
  import opened CartesianTree
  import opened HeaderStore
  import opened HeaderLinks

  /** How a call ended; a panic stops the system. */
  datatype Status = Done | IllegalPointer | Overlap | NoHeader | NoMemory | NoSlot | NullHeader

  const UINT_SPACE := 0x1_0000_0000

  /** An unsigned integer of the machine. */
  type UInt = n: nat | n < UINT_SPACE

  const NEED_TO_FREE_SIZE := 10

  /** The occupied entries of the table of small deferred blocks. */
  function Occupied(tab: seq<Block>): seq<Block> {
    if tab == [] then []
    else if tab[0].addr == 0 then Occupied(tab[1..])
    else [tab[0]] + Occupied(tab[1..])
  }

  /** A range that meets the storage array [core, end) lies in its managed part [begin, end). */
  predicate SaneRange(p: int, n: int, core: int, begin: int, end: int) {
    0 < n && p < end && core < p + n ==> begin <= p && p + n <= end
  }

  predicate SaneAll(bs: multiset<Block>, core: int, begin: int, end: int) {
    forall b :: b in bs ==> 0 <= b.size && SaneRange(b.addr, b.size, core, begin, end)
  }

  lemma SaneAdd(bs: multiset<Block>, b: Block, core: int, begin: int, end: int)
    ensures SaneAll(bs + multiset{b}, core, begin, end)
      <==> SaneAll(bs, core, begin, end) && 0 <= b.size && SaneRange(b.addr, b.size, core, begin, end)
  {
    assert b in bs + multiset{b};
    forall c | c in bs ensures c in bs + multiset{b} {}
  }

  class KmemHeap {
    const hdr: array<Hdr>        // the header table
    const core: int              // address of the storage array
    const maxcore: int           // bytes to be managed
    var freeRoot: int
    var freeHdrList: int
    var freehdrflag: bool
    var coreAlreadyFreed: bool
    var coreEnd: int
    var needList: seq<Block>     // the chain of deferred blocks, last deferred first
    const needTab: array<Block>  // small deferred blocks; a zero address marks a free entry

    ghost var tree: Tree         // the tree spelled out by the links from `freeRoot`
    ghost var spare: seq<int>    // the chain of unused headers

    ghost function S(): Store
      reads this, hdr
    {
      Store(hdr[..], freeRoot)
    }

    /** The links are those of `tree` and `spare`, which share no header. */
    ghost predicate Linked()
      reads this, hdr
    {
      && TreeAt(hdr[..], freeRoot, tree) && Distinct(tree)
      && ListAt(hdr[..], freeHdrList, spare) && NoDup(spare)
      && (forall h :: h in spare ==> h !in Headers(tree))
      && (!freehdrflag ==> tree.Nil? && spare == [])
    }

    /** Headers that can still be handed out. */
    ghost function Spare(): nat
      reads this
    {
      if freehdrflag then |spare| else hdr.Length
    }

    /** The headers in the tree or on the chain of unused ones. */
    ghost function Used(): set<int>
      reads this
    {
      Headers(tree) + set h | h in spare
    }

    ghost function Counted(): nat
      reads this
    {
      |spare| + Count(tree)
    }

    /** No other header has been written. */
    twostate predicate LooseUnchanged()
      reads this, hdr
    {
      forall i :: 0 <= i < hdr.Length && i !in old(Used()) ==> hdr[i] == old(hdr[i])
    }

    function Load(k: Hook): (v: int)
      requires ValidHook(hdr[..], k)
      reads this, hdr
      ensures v == Get(S(), k)
    {
      match k
      case Root => freeRoot
      case LeftOf(h) => hdr[h].left
      case RightOf(h) => hdr[h].right
    }

    function WeightOf(p: int): (w: int)
      requires p == NIL || 0 <= p < hdr.Length
      reads hdr
      ensures forall t :: TreeAt(hdr[..], p, t) ==> w == Weight(t)
    {
      if p == NIL then 0 else hdr[p].size
    }

    method StoreHook(k: Hook, v: int)
      requires ValidHook(hdr[..], k)
      modifies this`freeRoot, hdr
      ensures S() == Put(old(S()), k, v)
    {
      match k {
        case Root => freeRoot := v;
        case LeftOf(h) => hdr[h] := hdr[h].(left := v);
        case RightOf(h) => hdr[h] := hdr[h].(right := v);
      }
      assert S().mem == Put(old(S()), k, v).mem;
    }

    method FreeHdr(p: int)
      requires Linked() && 0 <= p < hdr.Length && p !in Headers(tree) && p !in spare && freehdrflag
      modifies this`freeHdrList, this`spare, hdr
      ensures Linked() && spare == [p] + old(spare)
      ensures SameExcept(old(hdr[..]), hdr[..], {p})
    {
      hdr[p] := Hdr(freeHdrList, NIL, 0, hdr[p].size);
      freeHdrList := p;
      ghost var s := spare;
      spare := [p] + spare;
      TreeFrame(old(hdr[..]), hdr[..], {p}, freeRoot, tree);
      ListFrame(old(hdr[..]), hdr[..], {p}, old(freeHdrList), s);
      assert spare[1..] == s;
    }

    /** Takes an unused header; the first call threads the whole table onto the chain. */
    method GetFreeHdr() returns (r: int)
      requires Linked() && 0 < Spare()
      modifies this`freeHdrList, this`spare, this`freehdrflag, hdr
      ensures Linked() && freehdrflag
      ensures 0 <= r < hdr.Length && r !in Headers(tree) && r !in spare
      ensures |spare| == old(Spare()) - 1
      ensures old(freehdrflag) ==> hdr[..] == old(hdr[..]) && old(spare) == [r] + spare
    {
      if freeHdrList != NIL {
        r := freeHdrList;
        freeHdrList := hdr[freeHdrList].left;
        ListInRange(hdr[..], r, spare);
        spare := spare[1..];
        assert forall h :: h in spare ==> h in old(spare);
      } else {
        assert spare == [];
        freehdrflag := true;
        r := 0;
        var n := 1;
        while n < hdr.Length
          invariant 1 <= n <= hdr.Length
          invariant Linked() && freehdrflag && tree.Nil?
          invariant |spare| == n - 1 && forall h :: h in spare ==> 1 <= h < n
        {
          FreeHdr(n);
          n := n + 1;
        }
      }
    }

    /** Removes the node under hook `k`. */
    method Delete(k: Hook, ghost c: Ctx, ghost tx: Tree)
      requires Linked() && freehdrflag && tx.Node? && tree == Plug(c, tx)
      requires CtxAt(S(), Root, c, k) && ValidHook(hdr[..], k) && TreeAt(hdr[..], Load(k), tx)
      requires HeapOrdered(tx.left) && HeapOrdered(tx.right)
      modifies this`freeRoot, this`freeHdrList, this`tree, this`spare, hdr
      ensures Linked() && LooseUnchanged() && spare == [tx.h] + old(spare)
      ensures Used() == old(Used()) && Counted() == old(Counted())
      ensures tree == Plug(c, Merge(tx.left, tx.right))
      ensures CtxAt(S(), Root, c, k) && ValidHook(hdr[..], k)
      ensures TreeAt(hdr[..], Load(k), Merge(tx.left, tx.right))
    {
      hide CtxAt, CtxHeaders, CtxDistinct, Plug, Headers;
      var x := Load(k);
      ghost var m0, t' := hdr[..], Merge(tx.left, tx.right);
      MergeTreeHeaders(c, tx);
      JoinBranches(k, x, c, tx);
      ListFrame(m0, hdr[..], Headers(tree) - {x}, freeHdrList, spare);
      tree := Plug(c, t');
      ghost var st := S();
      FreeHdr(x);
      CtxFrame(st, S(), {x}, Root, c, k);
      CtxHookIn(S(), Root, c, k);
      CtxHookIn(st, Root, c, k);
      assert Load(k) == Get(st, k);
      TreeFrame(st.mem, hdr[..], {x}, Load(k), t');
    }

    /** The loop of `Delete`: the subtrees of `x` are joined from the top down and attached in
        place of it. */
    method JoinBranches(k: Hook, x: int, ghost c: Ctx, ghost tx: Tree)
      requires tx.Node? && tx.h == x && Distinct(Plug(c, tx))
      requires CtxAt(S(), Root, c, k) && ValidHook(hdr[..], k) && x == Load(k) && TreeAt(hdr[..], x, tx)
      requires HeapOrdered(tx.left) && HeapOrdered(tx.right)
      modifies this`freeRoot, hdr
      ensures CtxAt(S(), Root, c, k) && ValidHook(hdr[..], k)
      ensures TreeAt(hdr[..], Load(k), Merge(tx.left, tx.right))
      ensures TreeAt(hdr[..], freeRoot, Plug(c, Merge(tx.left, tx.right)))
      ensures SameExcept(old(hdr[..]), hdr[..], Headers(Plug(c, tx)) - {x})
    {
      hide Joining, CtxAt, Distinct, CtxHeaders, CtxDistinct;
      var leftBranch, rightBranch := hdr[x].left, hdr[x].right;
      var p := k;
      ghost var m0, all := hdr[..], Headers(Plug(c, tx)) - {x};
      ghost var t' := Merge(tx.left, tx.right);
      ghost var d, tl, tr := Hole, tx.left, tx.right;
      CtxEnd(S(), Root, c, k);
      JoinStart(S(), c, k, tx);
      while leftBranch != rightBranch
        invariant Joining(m0, S(), c, d, p, leftBranch, rightBranch, tl, tr, all) && ValidHook(hdr[..], p)
        invariant TreeAt(hdr[..], leftBranch, tl) && TreeAt(hdr[..], rightBranch, tr)
        invariant HeapOrdered(tl) && HeapOrdered(tr) && Plug(d, Merge(tl, tr)) == t'
        decreases Count(tl) + Count(tr)
      {
        if WeightOf(leftBranch) >= WeightOf(rightBranch) {
          JoinLeft(m0, S(), c, d, p, leftBranch, rightBranch, tl, tr, all, Merge(tl.right, tr));
          StoreHook(p, leftBranch);
          d, tl := DownRight(d, tl), tl.right;
          p := RightOf(leftBranch);
          leftBranch := hdr[leftBranch].right;
        } else {
          JoinRight(m0, S(), c, d, p, leftBranch, rightBranch, tl, tr, all, Merge(tl, tr.left));
          StoreHook(p, rightBranch);
          d, tr := DownLeft(d, tr), tr.left;
          p := LeftOf(rightBranch);
          rightBranch := hdr[rightBranch].left;
        }
      }
      JoinMet(m0, S(), c, d, p, leftBranch, rightBranch, tl, tr, all);
      JoinClose(m0, S(), c, d, p, leftBranch, rightBranch, all, k);
      StoreHook(p, NIL);
    }

    /** Moves the node under hook `k` down to where no descendant is larger. */
    method Demote(k: Hook, ghost c: Ctx, ghost tx: Tree)
      requires Linked() && freehdrflag && tx.Node? && 0 < tx.size && tree == Plug(c, tx)
      requires CtxAt(S(), Root, c, k) && ValidHook(hdr[..], k) && TreeAt(hdr[..], Load(k), tx)
      modifies this`freeRoot, this`tree, hdr
      ensures Linked() && LooseUnchanged()
      ensures Used() == old(Used()) && Counted() == old(Counted())
      ensures tree == Plug(c, CartesianTree.Demote(tx.left, tx.h, tx.block, tx.size, tx.right))
    {
      hide CtxAt, CtxHeaders, CtxDistinct, Plug;
      ghost var m0 := hdr[..];
      DemoteTreeHeaders(c, tx);
      SinkNode(k, c, tx);
      ListFrame(m0, hdr[..], Headers(tree), freeHdrList, spare);
      tree := Plug(c, CartesianTree.Demote(tx.left, tx.h, tx.block, tx.size, tx.right));
    }

    /** The loop of `Demote`: larger nodes on the inner edges of the two subtrees are pulled up,
        then the node is attached. */
    method SinkNode(k: Hook, ghost c: Ctx, ghost tx: Tree)
      requires tx.Node? && 0 < tx.size && Distinct(Plug(c, tx))
      requires CtxAt(S(), Root, c, k) && ValidHook(hdr[..], k) && TreeAt(hdr[..], Load(k), tx)
      modifies this`freeRoot, hdr
      ensures TreeAt(hdr[..], freeRoot, Plug(c, CartesianTree.Demote(tx.left, tx.h, tx.block, tx.size, tx.right)))
      ensures SameExcept(old(hdr[..]), hdr[..], Headers(Plug(c, tx)))
    {
      hide Joining, CtxAt, Distinct, CtxHeaders, CtxDistinct, Plug;
      var x := Load(k);
      var leftBranch, rightBranch := hdr[x].left, hdr[x].right;
      var wx := hdr[x].size;
      var p := k;
      ghost var m0, all := hdr[..], Headers(Plug(c, tx)) - {x};
      ghost var t' := CartesianTree.Demote(tx.left, x, tx.block, wx, tx.right);
      ghost var d, tl, tr := Hole, tx.left, tx.right;
      PlugHole(t');
      JoinStart(S(), c, k, tx);
      while WeightOf(leftBranch) > wx || WeightOf(rightBranch) > wx
        invariant Joining(m0, S(), c, d, p, leftBranch, rightBranch, tl, tr, all) && ValidHook(hdr[..], p)
        invariant TreeAt(hdr[..], leftBranch, tl) && TreeAt(hdr[..], rightBranch, tr)
        invariant Plug(d, CartesianTree.Demote(tl, x, tx.block, wx, tr)) == t'
        decreases Count(tl) + Count(tr)
      {
        if WeightOf(leftBranch) >= WeightOf(rightBranch) {
          JoinLeft(m0, S(), c, d, p, leftBranch, rightBranch, tl, tr, all,
                   CartesianTree.Demote(tl.right, x, tx.block, wx, tr));
          StoreHook(p, leftBranch);
          d, tl := DownRight(d, tl), tl.right;
          p := RightOf(leftBranch);
          leftBranch := Load(p);
        } else {
          JoinRight(m0, S(), c, d, p, leftBranch, rightBranch, tl, tr, all,
                    CartesianTree.Demote(tl, x, tx.block, wx, tr.left));
          StoreHook(p, rightBranch);
          d, tr := DownLeft(d, tr), tr.left;
          p := LeftOf(rightBranch);
          rightBranch := Load(p);
        }
      }
      JoinAttach(m0, S(), c, d, p, leftBranch, rightBranch, tl, tr, all, x);
      StoreHook(p, x);
      StoreHook(LeftOf(x), leftBranch);
      StoreHook(RightOf(x), rightBranch);
    }

    /** The search of `Insert`: down to the first node that is smaller than the new block. */
    method FindPlace(p: int, len: int) returns (k: Hook, x: int, ghost c: Ctx, ghost tx: Tree)
      requires Linked() && 0 < len
      ensures CtxAt(S(), Root, c, k) && ValidHook(hdr[..], k) && x == Load(k) && TreeAt(hdr[..], x, tx)
      ensures tree == Plug(c, tx)
      ensures forall h :: CartesianTree.Insert(tree, h, p, len) == Plug(c, Node(Below(tx, p), h, p, len, Above(tx, p)))
    {
      k := Root;
      x := Load(k);
      c, tx := Hole, tree;
      while WeightOf(x) >= len
        invariant CtxAt(S(), Root, c, k) && ValidHook(hdr[..], k) && x == Load(k) && TreeAt(hdr[..], x, tx)
        invariant tree == Plug(c, tx)
        invariant forall h :: CartesianTree.Insert(tree, h, p, len) == Plug(c, CartesianTree.Insert(tx, h, p, len))
        decreases Count(tx)
      {
        PlugHeaders(c, tx);
        StepDown(S(), Root, c, k, tx);
        InsertDescends(c, tx, p, len);
        if p < hdr[x].block {
          k := LeftOf(x);
          c, tx := DownLeft(c, tx), tx.left;
        } else {
          k := RightOf(x);
          c, tx := DownRight(c, tx), tx.right;
        }
        x := Load(k);
      }
    }

    /** Inserts [p, p+len): the subtree found by the search is split in two. */
    method Insert(p: int, len: int) returns (ghost h: int)
      requires Linked() && 0 < len && 0 < Spare()
      modifies this`freeRoot, this`freeHdrList, this`freehdrflag, this`tree, this`spare, hdr
      ensures Linked() && freehdrflag && |spare| == old(Spare()) - 1
      ensures old(freehdrflag) ==> LooseUnchanged() && Used() == old(Used())
      ensures Counted() == if old(freehdrflag) then old(Counted()) else hdr.Length
      ensures h !in Headers(old(tree)) && tree == CartesianTree.Insert(old(tree), h, p, len)
    {
      hide CtxAt, CtxHeaders, CtxDistinct, Plug, ListAt, TreeAt;
      var k, x, c, tx := FindPlace(p, len);
      CtxNil(c, tx);
      ghost var st, s := S(), spare;
      var newhdr := GetFreeHdr();
      h := newhdr;
      if old(freehdrflag) {
        assert S() == st && forall i :: i in s <==> i == newhdr || i in spare;
      } else {
        CtxStart(st, Root, c, k);
        CtxHoleAt(st, S(), c, k);
      }
      ghost var m0 := hdr[..];
      SplitAt(k, x, newhdr, p, len, c, tx);
      SplitTreeHeaders(c, tx, newhdr, p, len);
      ListFrame(m0, hdr[..], Headers(tree) + {newhdr}, freeHdrList, spare);
      tree := Plug(c, Node(Below(tx, p), newhdr, p, len, Above(tx, p)));
    }

    /** The second half of `Insert`: the links of the subtree `tx` under `k` that cross the
        address `p` are rewritten, with `newhdr` as the new root. */
    method SplitAt(k: Hook, x0: int, newhdr: int, p: int, len: int, ghost c: Ctx, ghost tx: Tree)
      requires Distinct(Plug(c, tx)) && 0 <= newhdr < hdr.Length && newhdr !in Headers(Plug(c, tx))
      requires CtxAt(S(), Root, c, k) && ValidHook(hdr[..], k) && x0 == Load(k) && TreeAt(hdr[..], x0, tx)
      modifies this`freeRoot, hdr
      ensures TreeAt(hdr[..], freeRoot, Plug(c, Node(Below(tx, p), newhdr, p, len, Above(tx, p))))
      ensures SameExcept(old(hdr[..]), hdr[..], Headers(Plug(c, tx)) + {newhdr})
    {
      hide Splitting, CtxAt, CtxDistinct, CtxHeaders, Extend, Distinct;
      var x := x0;
      ghost var m0, st0, below := hdr[..], S(), Headers(tx);
      StoreHook(k, newhdr);
      var leftHook, rightHook := LeftOf(newhdr), RightOf(newhdr);
      hdr[newhdr] := Hdr(NIL, NIL, p, len);
      ghost var cl, cr, tw := Hole, Hole, tx;
      SplitStart(st0, S(), c, k, newhdr, x, tx, p, len);
      while x != NIL
        invariant Splitting(m0, S(), c, k, newhdr, cl, leftHook, cr, rightHook, x, tw, below)
        invariant ValidHook(hdr[..], leftHook) && ValidHook(hdr[..], rightHook) && TreeAt(hdr[..], x, tw)
        invariant Plug(cl, Below(tw, p)) == Below(tx, p) && Plug(cr, Above(tw, p)) == Above(tx, p)
        invariant hdr[newhdr].block == p && hdr[newhdr].size == len
        decreases Count(tw)
      {
        if hdr[x].block < p {
          SplitBelow(m0, S(), c, k, newhdr, cl, leftHook, cr, rightHook, x, tw, below);
          DownPlug(cl, tw, Below(tw.right, p));
          StoreHook(leftHook, x);
          cl, tw := DownRight(cl, tw), tw.right;
          leftHook := RightOf(x);
          x := hdr[x].right;
        } else {
          SplitAbove(m0, S(), c, k, newhdr, cl, leftHook, cr, rightHook, x, tw, below);
          DownPlug(cr, tw, Above(tw.left, p));
          StoreHook(rightHook, x);
          cr, tw := DownLeft(cr, tw), tw.left;
          rightHook := LeftOf(x);
          x := hdr[x].left;
        }
      }
      SplitClose(m0, S(), c, k, newhdr, cl, leftHook, cr, rightHook, x, below);
      SplitTreeHeaders(c, tx, newhdr, p, len);
      StoreHook(rightHook, NIL);
      StoreHook(leftHook, NIL);
    }

    // ----- the allocator's own state -----

    function CoreBegin(): int {
      (core + 3) / 4 * 4
    }

    ghost predicate Ordered()
      reads this
    {
      Spaced(tree, CoreBegin() - 1, coreEnd + 1) && HeapOrdered(tree)
    }

    /** All deferred blocks in the order in which they will be given back. */
    ghost function Pending(): seq<Block>
      reads this, needTab
    {
      needList + Occupied(needTab[..])
    }

    predicate InArena(p: int, n: int)
      reads this
    {
      CoreBegin() <= p && p + n <= coreEnd
    }

    /** A range that meets the storage array lies in the managed part of it. */
    predicate Sane(p: int, n: int)
      reads this
    {
      SaneRange(p, n, core, CoreBegin(), coreEnd)
    }

    /** The deferred blocks are such that giving them back is within the rules of `KmemFree`. */
    ghost predicate PendingSane()
      reads this, needTab
    {
      && needTab.Length == NEED_TO_FREE_SIZE
      && SaneAll(multiset(Pending()), core, CoreBegin(), coreEnd)
    }

    ghost predicate Valid()
      reads this, hdr, needTab
    {
      && Linked() && Ordered() && PendingSane()
      && 0 < core && 0 <= maxcore && 0 < hdr.Length
      && (freehdrflag ==> Counted() == hdr.Length)
      && (if coreAlreadyFreed then coreEnd == CoreBegin() + maxcore
          else coreEnd == 0 && tree.Nil? && !freehdrflag)
    }

    /** No header appeared or got lost, and none was used up. */
    twostate predicate Kept()
      reads this, hdr
    {
      LooseUnchanged() && Used() == old(Used()) && Counted() == old(Counted()) && |spare| >= old(|spare|)
    }

    /** Takes the node under `np` out of the tree. */
    method Absorb(np: Hook, ghost c: Ctx, ghost tx: Tree, ghost lo: int, ghost hi: int) returns (ghost tx': Tree)
      requires Linked() && freehdrflag && tx.Node? && tree == Plug(c, tx)
      requires CtxAt(S(), Root, c, np) && ValidHook(hdr[..], np) && TreeAt(hdr[..], Load(np), tx)
      requires Spaced(tx, lo, hi) && HeapOrdered(tx)
      modifies this`freeRoot, this`freeHdrList, this`tree, this`spare, hdr
      ensures tx' == Merge(tx.left, tx.right) && Count(tx') < Count(tx)
      ensures Linked() && Kept() && tree == Plug(c, tx')
      ensures CtxAt(S(), Root, c, np) && ValidHook(hdr[..], np) && TreeAt(hdr[..], Load(np), tx')
      ensures Spaced(tx', lo, hi) && HeapOrdered(tx')
    {
      hide CtxAt, CtxHeaders, CtxDistinct, Plug, ListAt, Distinct, TreeAt;
      MergeCount(tx.left, tx.right);
      MergeOrders(tx.left, tx.right, lo, tx.block, tx.block + tx.size, hi);
      Delete(np, c, tx);
      tx' := Merge(tx.left, tx.right);
    }

    /** The search is at the tree `tx` under `np`, and is after the result `q`. */
    ghost predicate Searching(np: Hook, c: Ctx, tx: Tree, lo: int, hi: int, ptr: int, nbytes: int, q: Search)
      reads this, hdr
    {
      && Linked() && tree == Plug(c, tx) && 0 < nbytes && lo < hi
      && CtxAt(S(), Root, c, np) && ValidHook(hdr[..], np) && TreeAt(hdr[..], Load(np), tx)
      && Spaced(tx, lo, hi) && HeapOrdered(tx)
      && q == WrapSearch(c, CartesianTree.Coalesce(tx, ptr, nbytes))
    }

    /** One turn of the search of `KmemFree`: a free neighbour of the range is taken out of the tree and
        joined with it, or the search goes down. */
    method SearchOn(np0: Hook, ptr0: int, nbytes0: int, ghost c0: Ctx, ghost tx0: Tree, ghost lo0: int, ghost hi0: int,
        ghost q: Search)
      returns (ok: bool, np: Hook, ptr: int, nbytes: int, ghost c: Ctx, ghost tx: Tree, ghost lo: int, ghost hi: int)
      requires Searching(np0, c0, tx0, lo0, hi0, ptr0, nbytes0, q) && Load(np0) != NIL
      modifies this`freeRoot, this`freeHdrList, this`tree, this`spare, hdr
      ensures !ok ==> !q.Vacant?
      ensures ok ==> Searching(np, c, tx, lo, hi, ptr, nbytes, q) && Count(tx) < Count(tx0) && Kept()
    {
      hide CtxAt, CtxHeaders, CtxDistinct, Plug, ListAt, Distinct, TreeAt, Spaced, HeapOrdered, Count;
      hide CartesianTree.Coalesce, WrapSearch;
      ptr, nbytes, np, ok := ptr0, nbytes0, np0, true;
      c, tx, lo, hi := c0, tx0, lo0, hi0;
      var neighbor := Load(np);
      TreeTop(hdr[..], neighbor, tx);
      var neighBlock, neighSize := hdr[neighbor].block, hdr[neighbor].size;
      SearchDescends(c, tx, ptr, nbytes);
      SearchTurn(c, tx, ptr, nbytes, lo, hi);
      FocusDown(S(), c, np, tx);
      if ptr < neighBlock {
        if ptr + nbytes == neighBlock {
          nbytes := nbytes + neighSize;
          tx := Absorb(np, c, tx, lo, hi);
        } else if ptr + nbytes > neighBlock {
          ok := false;
        } else {
          np := LeftOf(neighbor);
          c, hi, tx := DownLeft(c, tx), tx.block, tx.left;
        }
      } else if ptr > neighBlock {
        if neighBlock + neighSize == ptr {
          ptr := neighBlock;
          nbytes := nbytes + neighSize;
          tx := Absorb(np, c, tx, lo, hi);
        } else if neighBlock + neighSize > ptr {
          ok := false;
        } else {
          np := RightOf(neighbor);
          c, lo, tx := DownRight(c, tx), tx.block + tx.size, tx.right;
        }
      } else {
        ok := false;
      }
    }

    /** The search loop of `KmemFree`: free neighbours of the range are taken out of the tree
        and joined with it. */
    method Coalesce(ptr0: int, nbytes0: nat, ghost lo0: int, ghost hi0: int)
      returns (ok: bool, ptr: int, nbytes: int)
      requires Linked() && Spaced(tree, lo0, hi0) && HeapOrdered(tree) && 0 < nbytes0 && lo0 < hi0
      modifies this`freeRoot, this`freeHdrList, this`tree, this`spare, hdr
      ensures ok <==> CartesianTree.Coalesce(old(tree), ptr0, nbytes0).Vacant?
      ensures ok ==> CartesianTree.Coalesce(old(tree), ptr0, nbytes0) == Vacant(tree, ptr, nbytes) && 0 < nbytes
      ensures ok ==> Linked() && Kept()
    {
      hide CtxAt, CtxHeaders, CtxDistinct, Plug, ListAt, Distinct, TreeAt, Spaced, HeapOrdered, Count;
      hide CartesianTree.Coalesce, WrapSearch;
      ptr, nbytes := ptr0, nbytes0;
      var np := Root;
      ghost var c, tx, lo, hi := Hole, tree, lo0, hi0;
      ghost var q := CartesianTree.Coalesce(tree, ptr, nbytes);
      WrapHole(S(), tree, q);
      ok := true;
      assert Searching(np, c, tx, lo, hi, ptr, nbytes, q);
      hide KmemHeap.Searching, KmemHeap.Linked;
      while ok && Load(np) != NIL
        invariant ok ==> Searching(np, c, tx, lo, hi, ptr, nbytes, q) && ValidHook(hdr[..], np) && Kept()
        invariant !ok ==> !q.Vacant?
        decreases ok, Count(tx)
      {
        ok, np, ptr, nbytes, c, tx, lo, hi := SearchOn(np, ptr, nbytes, c, tx, lo, hi, q);
        if ok { SearchHook(np, c, tx, lo, hi, ptr, nbytes, q); }
      }
      if ok { SearchOver(np, c, tx, lo, hi, ptr, nbytes, q); }
    }

    lemma SearchHook(np: Hook, c: Ctx, tx: Tree, lo: int, hi: int, ptr: int, nbytes: int, q: Search)
      requires Searching(np, c, tx, lo, hi, ptr, nbytes, q)
      ensures ValidHook(hdr[..], np)
    {
    }

    /** The search has come to an empty place. */
    lemma SearchOver(np: Hook, c: Ctx, tx: Tree, lo: int, hi: int, ptr: int, nbytes: int, q: Search)
      requires Searching(np, c, tx, lo, hi, ptr, nbytes, q) && Load(np) == NIL
      ensures q == Vacant(tree, ptr, nbytes) && 0 < nbytes && Linked()
    {
      hide CtxAt, Plug, Distinct, Spaced, HeapOrdered, CartesianTree.Coalesce, WrapSearch;
      SearchEnd(c, ptr, nbytes);
    }

    /** Gives back [ptr, ptr+nbytes). */
    method KmemFree(ptr: int, nbytes: nat) returns (st: Status)
      requires Linked() && Ordered() && 0 < core && 0 < hdr.Length
      requires 0 < nbytes && core <= ptr < coreEnd ==> InArena(ptr, nbytes)
      modifies this`freeRoot, this`freeHdrList, this`freehdrflag, this`tree, this`spare, hdr
      ensures 0 < nbytes ==> (st == IllegalPointer <==> !(core <= ptr < coreEnd))
      ensures 0 < nbytes ==> (st == Overlap <==> core <= ptr < coreEnd && Overlaps(old(tree), ptr, nbytes))
      ensures st == NoHeader ==> old(Spare()) == 0
      ensures st.Done? || st.IllegalPointer? || st.Overlap? || st.NoHeader?
      ensures nbytes == 0 ==> st == Done && freehdrflag == old(freehdrflag) && Counted() == old(Counted())
      ensures st == Done ==>
        && Linked() && Ordered() && FreeStep(old(tree), ptr, nbytes, tree)
        && (0 < nbytes ==> freehdrflag && Counted() == if old(freehdrflag) then old(Counted()) else hdr.Length)
        && (old(freehdrflag) ==> LooseUnchanged() && Used() == old(Used()))
        && Spare() >= old(Spare()) - 1
    {
      hide Spaced, HeapOrdered, CartesianTree.Coalesce, CartesianTree.Insert, Counted, Used;
      if nbytes == 0 {
        return Done;
      }
      if ptr < core || ptr >= coreEnd {
        return IllegalPointer;
      }
      ghost var t0, lo, hi := tree, CoreBegin() - 1, coreEnd + 1;
      CoalesceCorrect(tree, ptr, nbytes, lo, hi);
      var ok, p, n := Coalesce(ptr, nbytes, lo, hi);
      if !ok {
        return Overlap;
      }
      ghost var q := CartesianTree.Coalesce(t0, ptr, nbytes);
      if freehdrflag && freeHdrList == NIL {
        return NoHeader;
      }
      SpareNonEmpty(hdr[..], freeHdrList, spare);
      ghost var h := Insert(p, n);
      InsertCorrect(q.tree, h, p, n, lo, hi);
      assert FreeInto(t0, ptr, nbytes, h, tree);
      st := Done;
    }

    // ----- allocation -----

    function AlignedWeightOf(p: int): (w: int)
      requires p == NIL || 0 <= p < hdr.Length
      reads hdr
      ensures forall t :: TreeAt(hdr[..], p, t) ==> w == AlignedWeight(t)
    {
      if p == NIL then 0
      else if hdr[p].block % ALIGN != 0 && hdr[p].size > AlignMore(hdr[p].block) then
        hdr[p].size - AlignMore(hdr[p].block)
      else hdr[p].size
    }

    /** Best fit: descends to a block that can serve the request, as small as the search finds. */
    method FindFit(nbytes: int) returns (p: Hook, a: int, ghost c: Ctx, ghost tx: Tree)
      requires Linked() && HeapOrdered(tree) && tree.Node? && 0 < nbytes <= AlignedWeight(tree)
      ensures CtxAt(S(), Root, c, p) && ValidHook(hdr[..], p) && a == Load(p) && TreeAt(hdr[..], a, tx)
      ensures tx.Node? && tree == Plug(c, tx) && HeapOrdered(tx) && nbytes <= AlignedWeight(tx)
      ensures AlignedWeight(tx.left) < nbytes && AlignedWeight(tx.right) < nbytes && HeapOrdered(tx.left)
      ensures HeapOrdered(tx.right)
      ensures forall h :: Take(tree, nbytes, h) == WrapGrant(c, Take(tx, nbytes, h))
    {
      p := Root;
      a := Load(p);
      c, tx := Hole, tree;
      var leftSon, rightSon := hdr[a].left, hdr[a].right;
      while AlignedWeightOf(leftSon) >= nbytes || AlignedWeightOf(rightSon) >= nbytes
        invariant CtxAt(S(), Root, c, p) && ValidHook(hdr[..], p) && a == Load(p) && TreeAt(hdr[..], a, tx)
        invariant tx.Node? && tree == Plug(c, tx) && HeapOrdered(tx) && nbytes <= AlignedWeight(tx)
        invariant leftSon == hdr[a].left && rightSon == hdr[a].right
        invariant forall h :: Take(tree, nbytes, h) == WrapGrant(c, Take(tx, nbytes, h))
        decreases Count(tx)
      {
        FocusDown(S(), c, p, tx);
        TakeDescends(c, tx, nbytes);
        if AlignedWeightOf(leftSon) <= AlignedWeightOf(rightSon) {
          if AlignedWeightOf(leftSon) >= nbytes {
            p := LeftOf(a);
            a := leftSon;
            c, tx := DownLeft(c, tx), tx.left;
          } else {
            p := RightOf(a);
            a := rightSon;
            c, tx := DownRight(c, tx), tx.right;
          }
        } else {
          if AlignedWeightOf(rightSon) >= nbytes {
            p := RightOf(a);
            a := rightSon;
            c, tx := DownRight(c, tx), tx.right;
          } else {
            p := LeftOf(a);
            a := leftSon;
            c, tx := DownLeft(c, tx), tx.left;
          }
        }
        leftSon, rightSon := hdr[a].left, hdr[a].right;
      }
    }

    /** The node under `p` gives way to header `x` with the smaller block [b, b+s), which is then
        demoted. */
    method Shrink(p: Hook, x: int, b: int, s: int, ghost c: Ctx, ghost tx: Tree)
      requires Linked() && freehdrflag && tx.Node? && 0 < s && tree == Plug(c, tx)
      requires CtxAt(S(), Root, c, p) && ValidHook(hdr[..], p) && TreeAt(hdr[..], Load(p), tx)
      requires 0 <= x < hdr.Length && x !in Headers(tree) && x !in spare
      modifies this`freeRoot, this`tree, hdr
      ensures Linked() && tree == Plug(c, CartesianTree.Demote(tx.left, x, b, s, tx.right))
      ensures Used() == old(Used()) - {tx.h} + {x} && Counted() == old(Counted())
      ensures hdr[tx.h] == old(hdr[tx.h]) && tx.h !in Headers(tree) && tx.h in old(Headers(tree))
    {
      hide CtxAt, CtxHeaders, CtxDistinct, Plug, ListAt, Distinct, Count, Headers;
      ghost var st := S();
      Replace(st, c, p, tx, x, b, s);
      ReplaceHeaders(c, tx, x, b, s);
      ghost var m0 := hdr[..];
      var a := Load(p);
      hdr[x] := Hdr(hdr[a].left, hdr[a].right, b, s);
      assert hdr[..] == m0[x := Hdr(m0[a].left, m0[a].right, b, s)];
      StoreHook(p, x);
      ListFrame(m0, hdr[..], Headers(tree) - {a} + {x}, freeHdrList, spare);
      ghost var tx' := Node(tx.left, x, b, s, tx.right);
      tree := Plug(c, tx');
      Demote(p, c, tx');
    }

    /** The chosen block starts off the alignment: its head stays free under header `x`, the part
        after it is handed out, and what remains is given back. */
    method CarveSkewed(p: Hook, x: int, nbytes: int, ghost c: Ctx, ghost tx: Tree) returns (st: Status, addr: int)
      requires Linked() && freehdrflag && tx.Node? && tree == Plug(c, tx) && 0 < core <= CoreBegin()
      requires CtxAt(S(), Root, c, p) && ValidHook(hdr[..], p) && TreeAt(hdr[..], Load(p), tx)
      requires 0 <= x < hdr.Length && x !in Headers(tree) && x !in spare
      requires Skewed(tx.block, tx.size) && 0 < nbytes <= tx.size - AlignMore(tx.block)
      requires Granted(SkewedGrant(c, tx, nbytes, x), tree, nbytes, CoreBegin() - 1, coreEnd + 1)
      modifies this`freeRoot, this`freeHdrList, this`freehdrflag, this`tree, this`spare, hdr
      ensures st.Done? || (st.NoHeader? && old(spare) == [])
      ensures st == Done ==>
        && Linked() && Ordered() && freehdrflag && Counted() == old(Counted()) + 1
        && var g := SkewedGrant(c, tx, nbytes, x); addr == g.addr && FreeStep(g.tree, g.rest, g.restLen, tree)
    {
      hide CtxAt, CtxHeaders, CtxDistinct, Plug, ListAt, Distinct, Count, Headers, Spaced, Free, TreeAt, HeapOrdered;
      NodeAt(hdr[..], Load(p), tx);
      var a := Load(p);
      var block, size := hdr[a].block, hdr[a].size;
      var n := nbytes + AlignMore(block);
      Shrink(p, x, block, AlignMore(block), c, tx);
      addr := block + AlignMore(block);
      if size > n {
        ClearNoOverlap(tree, block + n, size - n, CoreBegin() - 1, coreEnd + 1);
        st := KmemFree(block + n, size - n);
        if st != Done { return; }
      }
      FreeHdr(a);
      st := Done;
    }

    /** The block is cut at its start; `rest` is the size that header `x` is given. */
    method CarvePlain(p: Hook, x: int, nbytes: int, rest: int, ghost c: Ctx, ghost tx: Tree) returns (addr: int)
      requires Linked() && freehdrflag && tx.Node? && tree == Plug(c, tx)
      requires CtxAt(S(), Root, c, p) && ValidHook(hdr[..], p) && TreeAt(hdr[..], Load(p), tx)
      requires 0 <= x < hdr.Length && x !in Headers(tree) && x !in spare
      requires 0 < rest
      modifies this`freeRoot, this`freeHdrList, this`tree, this`spare, hdr
      ensures Linked() && Counted() == old(Counted()) + 1 && addr == tx.block
      ensures tree == Plug(c, CartesianTree.Demote(tx.left, x, tx.block + nbytes, rest, tx.right))
    {
      hide CtxAt, CtxHeaders, CtxDistinct, Plug, ListAt, Distinct, Count, Headers, TreeAt;
      NodeAt(hdr[..], Load(p), tx);
      var a := Load(p);
      var block := hdr[a].block;
      Shrink(p, x, block + nbytes, rest, c, tx);
      addr := block;
      FreeHdr(a);
    }

    /** Hands out `nbytes` bytes from the tree; the unused parts of the chosen block stay free. */
    method Allocate(nbytes: int) returns (st: Status, addr: int)
      requires Linked() && Ordered() && freehdrflag && 0 < core <= CoreBegin()
      requires tree.Node? && 0 < nbytes <= AlignedWeight(tree)
      modifies this`freeRoot, this`freeHdrList, this`freehdrflag, this`tree, this`spare, hdr
      ensures st.Done? || (st.NoHeader? && old(Spare()) < 2)
      ensures st == Done ==>
        && Linked() && Ordered() && freehdrflag && AllocStep(old(tree), nbytes, addr, tree)
        && BestFit(old(tree), nbytes, addr)
        && Counted() == old(Counted())
    {
      hide CtxAt, CtxHeaders, CtxDistinct, Plug, ListAt, Distinct, Count, Spaced, Free, Headers, TreeAt, Take;
      hide CartesianTree.Demote, Merge, Overlaps, Clear, CartesianTree.Coalesce, BestFit;
      ghost var t0, lo, hi := tree, CoreBegin() - 1, coreEnd + 1;
      var p, a, c, tx := FindFit(nbytes);
      NodeAt(hdr[..], a, tx);
      TakeBottom(c, tx, nbytes);
      TreeHeadersInRange(hdr[..], freeRoot, tree);
      SpareNonEmpty(hdr[..], freeHdrList, spare);
      if hdr[a].size - nbytes < 1 {
        TakeCorrect(t0, nbytes, NIL, lo, hi);
        TakeBest(t0, nbytes, NIL, lo, hi);
        st, addr := Done, hdr[a].block;
        Delete(p, c, tx);
        assert AllocInto(t0, nbytes, NIL, addr, tree);
        return;
      }
      if freeHdrList == NIL {
        return NoHeader, 0;
      }
      var x := GetFreeHdr();
      TakeCorrect(t0, nbytes, x, lo, hi);
      TakeBest(t0, nbytes, x, lo, hi);
      if hdr[a].block % ALIGN != 0 && hdr[a].size > AlignMore(hdr[a].block) {
        st, addr := CarveSkewed(p, x, nbytes, c, tx);
      } else {
        addr := CarvePlain(p, x, nbytes, hdr[a].size - nbytes, c, tx);
        st := Done;
      }
      assert st == Done ==> AllocInto(t0, nbytes, x, addr, tree);
    }

    // ----- deferred calls, and the calls seen by the rest of the system -----

    constructor (headers: nat, coreAddr: int, max: nat)
      requires 0 < headers && 0 < coreAddr
      ensures Valid() && tree == Nil && Pending() == [] && !coreAlreadyFreed
      ensures hdr.Length == headers && core == coreAddr && maxcore == max && fresh(hdr) && fresh(needTab)
    {
      hdr := new Hdr[headers](_ => Hdr(NIL, NIL, 0, 0));
      needTab := new Block[NEED_TO_FREE_SIZE](_ => Block(0, 0));
      core, maxcore := coreAddr, max;
      freeRoot, freeHdrList, freehdrflag := NIL, NIL, false;
      coreAlreadyFreed, coreEnd := false, 0;
      needList := [];
      tree, spare := Nil, [];
      new;
      OccupiedNone(needTab[..]);
    }

    /** Records a short block in the table. */
    method DeferShort(ptr: int, nbytes: nat) returns (st: Status)
      requires PendingSane() && 0 < ptr && Sane(ptr, nbytes)
      modifies needTab
      ensures PendingSane()
      ensures st.Done? || st.NoSlot?
      ensures st == NoSlot <==> |Occupied(old(needTab[..]))| == NEED_TO_FREE_SIZE
      ensures st == Done ==> |Occupied(needTab[..])| == |Occupied(old(needTab[..]))| + 1 && needList == old(needList)
      ensures st == Done ==> multiset(Pending()) == multiset(old(Pending())) + multiset{Block(ptr, nbytes)}
    {
      hide SaneAll, Occupied;
      OccupiedFits(needTab[..]);
      SaneAdd(multiset(Pending()), Block(ptr, nbytes), core, CoreBegin(), coreEnd);
      var i := 0;
      while i < NEED_TO_FREE_SIZE
        invariant 0 <= i <= NEED_TO_FREE_SIZE && needTab[..] == old(needTab[..])
        invariant forall j :: 0 <= j < i ==> needTab[j].addr != 0
      {
        if needTab[i].addr == 0 {
          OccupiedAdd(needTab[..], i, Block(ptr, nbytes));
          OccupiedFits(needTab[..][i := Block(ptr, nbytes)]);
          needTab[i] := Block(ptr, nbytes);
          assert needTab[..] == old(needTab[..])[i := Block(ptr, nbytes)];
          assert multiset(Pending()) == multiset(old(Pending())) + multiset{Block(ptr, nbytes)};
          return Done;
        }
        i := i + 1;
      }
      OccupiedAll(needTab[..]);
      st := NoSlot;
    }

    /** Chains a long block, which has room for its own record. */
    method DeferLong(ptr: int, nbytes: nat)
      requires PendingSane() && Sane(ptr, nbytes)
      modifies this`needList
      ensures PendingSane()
      ensures multiset(Pending()) == multiset(old(Pending())) + multiset{Block(ptr, nbytes)}
    {
      hide SaneAll, Occupied;
      SaneAdd(multiset(Pending()), Block(ptr, nbytes), core, CoreBegin(), coreEnd);
      needList := [Block(ptr, nbytes)] + needList;
      assert Pending() == [Block(ptr, nbytes)] + old(Pending());
      assert multiset(Pending()) == multiset(old(Pending())) + multiset{Block(ptr, nbytes)};
    }

    /** Defers giving back [ptr, ptr+nbytes): a long block carries its own record, a short one
        takes an entry of the table. */
    method KmemFreeIntr(ptr: int, nbytes: nat) returns (st: Status)
      requires PendingSane() && 0 < core && 0 < ptr && Sane(ptr, nbytes)
      modifies this`needList, needTab
      ensures PendingSane()
      ensures st.Done? || st.NoSlot?
      ensures st == NoSlot <==> |Occupied(old(needTab[..]))| + Slots(ptr, nbytes) > NEED_TO_FREE_SIZE
      ensures st == Done ==> |Occupied(needTab[..])| == |Occupied(old(needTab[..]))| + Slots(ptr, nbytes)
      ensures st == Done ==> multiset(Pending()) == multiset(old(Pending())) + Pieces(ptr, nbytes)
      decreases nbytes
    {
      hide SaneAll, Occupied, Pieces, Pending;
      OccupiedFits(needTab[..]);
      PiecesOne(ptr, nbytes);
      if nbytes >= NEED_TO_FREE_BYTES {
        if ptr % ALIGN != 0 {
          var i := AlignMore(ptr);
          PiecesSplit(ptr, nbytes);
          st := KmemFreeIntr(ptr, i);
          if st == Done {
            st := KmemFreeIntr(ptr + i, nbytes - i);
          }
          return;
        }
        DeferLong(ptr, nbytes);
        return Done;
      }
      st := DeferShort(ptr, nbytes);
    }

    /** Takes the next deferred block off the chain, or else out of the table. */
    method TakePending() returns (found: bool, b: Block)
      requires PendingSane()
      modifies this`needList, needTab
      ensures PendingSane()
      ensures found ==> old(Pending()) == [b] + Pending() && 0 <= b.size && Sane(b.addr, b.size)
      ensures !found ==> old(Pending()) == [] && Pending() == []
    {
      hide SaneAll, Occupied;
      if |needList| > 0 {
        b := needList[0];
        needList := needList[1..];
        assert old(Pending()) == [b] + Pending();
        assert multiset(old(Pending())) == multiset(Pending()) + multiset{b};
        SaneAdd(multiset(Pending()), b, core, CoreBegin(), coreEnd);
        return true, b;
      }
      var i := 0;
      while i < NEED_TO_FREE_SIZE
        invariant 0 <= i <= NEED_TO_FREE_SIZE && needTab[..] == old(needTab[..]) && needList == []
        invariant forall j :: 0 <= j < i ==> needTab[j].addr == 0
      {
        if needTab[i].addr != 0 {
          b := needTab[i];
          OccupiedTake(needTab[..], i);
          needTab[i] := Block(0, b.size);
          assert needTab[..] == old(needTab[..])[i := Block(0, b.size)];
          assert old(Pending()) == [b] + Pending();
          assert multiset(old(Pending())) == multiset(Pending()) + multiset{b};
          SaneAdd(multiset(Pending()), b, core, CoreBegin(), coreEnd);
          return true, b;
        }
        i := i + 1;
      }
      OccupiedNone(needTab[..]);
      found, b := false, Block(0, 0);
    }

    /** `TakePending`, which leaves the tree and the headers alone. */
    method NextPending() returns (found: bool, b: Block)
      requires Valid()
      modifies this`needList, needTab
      ensures Valid() && Spare() == old(Spare())
      ensures found ==> old(Pending()) == [b] + Pending() && 0 <= b.size && Sane(b.addr, b.size)
      ensures !found ==> old(Pending()) == [] && Pending() == []
    {
      hide Occupied, SaneAll, Spaced, HeapOrdered, TreeAt, Distinct, ListAt, NoDup, Headers, Count;
      found, b := TakePending();
    }

    lemma Bounds()
      requires Valid()
      ensures 0 < core <= CoreBegin() && (if coreAlreadyFreed then coreEnd == CoreBegin() + maxcore else coreEnd == 0)
    {
    }

    /** `KmemFree`, between calls. */
    method FreeRange(p: int, n: nat) returns (st: Status)
      requires Valid() && Sane(p, n)
      modifies this`freeRoot, this`freeHdrList, this`freehdrflag, this`tree, this`spare, hdr
      ensures st == Done ==> Valid() && FreeStep(old(tree), p, n, tree) && Spare() >= old(Spare()) - 1
      ensures st == Overlap ==> Overlaps(old(tree), p, n)
      ensures st == IllegalPointer ==> 0 < n && !(core <= p < coreEnd)
      ensures st == NoHeader ==> old(Spare()) == 0
      ensures st != NoMemory && st != NoSlot && st != NullHeader && Pending() == old(Pending())
    {
      hide Occupied, SaneAll, Spaced, HeapOrdered, FreeStep, TreeAt, Distinct, ListAt, NoDup;
      st := KmemFree(p, n);
    }

    /** `KmemFreeIntr`, between calls. */
    method DeferRange(p: int, n: nat) returns (st: Status)
      requires Valid() && 0 < p && Sane(p, n)
      modifies this`needList, needTab
      ensures st.Done? || st.NoSlot?
      ensures st == NoSlot <==> |Occupied(old(needTab[..]))| + Slots(p, n) > NEED_TO_FREE_SIZE
      ensures st == Done ==> Valid() && multiset(Pending()) == multiset(old(Pending())) + Pieces(p, n)
    {
      hide Occupied, SaneAll, Spaced, HeapOrdered, TreeAt, Distinct, ListAt, NoDup, Pieces, Headers, Count;
      st := KmemFreeIntr(p, n);
    }

    /** Gives back all deferred blocks, looking at the chain and the table again after each. */
    method CheckNeedToFree() returns (st: Status)
      requires Valid()
      modifies this`needList, needTab, this`freeRoot, this`freeHdrList, this`freehdrflag, this`tree, this`spare, hdr
      ensures st == Done ==>
        && Valid() && Pending() == [] && FreeRun(old(tree), old(Pending()), tree)
        && Spare() >= old(Spare()) - |old(Pending())|
      ensures st == NoHeader ==> old(Spare()) < |old(Pending())|
      ensures st == Overlap ==>
        exists k, t1 :: 0 <= k < |old(Pending())| && FreeRun(old(tree), old(Pending())[..k], t1)
          && Overlaps(t1, old(Pending())[k].addr, old(Pending())[k].size)
      ensures st == IllegalPointer ==> exists b :: b in old(Pending()) && 0 < b.size && !(core <= b.addr < coreEnd)
      ensures st != NoMemory && st != NoSlot && st != NullHeader
    {
      hide Occupied, SaneAll, Spaced, HeapOrdered, FreeStep, FreeRun, TreeAt, Distinct, ListAt, NoDup, Headers, Count;
      hide Linked, Ordered, PendingSane;
      ghost var ps, k := Pending(), 0;
      FreeRunNone(tree);
      var more, b := NextPending();
      AtFront(ps, 0, more, b, Pending());
      while more
        invariant Valid() && k <= |ps| && FreeRun(old(tree), ps[..k], tree) && coreEnd == old(coreEnd)
        invariant more ==> 0 <= b.size && Sane(b.addr, b.size)
        invariant if more then k < |ps| && b == ps[k] && Pending() == ps[k + 1..] else k == |ps| && Pending() == []
        invariant Spare() >= old(Spare()) - k
        decreases |ps| - k
      {
        ghost var t1 := tree;
        st := FreeRange(b.addr, b.size);
        if st != Done { return; }
        FreeRunStep(old(tree), ps[..k], t1, b, tree);
        k := k + 1;
        more, b := NextPending();
        AtFront(ps, k, more, b, Pending());
      }
      assert ps[..k] == ps;
      st := Done;
    }

    /** Hands the whole storage array over to the tree; this works once. */
    method Morecore(nbytes: int) returns (more: bool, st: Status)
      requires Valid() && (coreAlreadyFreed || Pending() == [])
      modifies this`coreAlreadyFreed, this`coreEnd
      modifies this`freeRoot, this`freeHdrList, this`freehdrflag, this`tree, this`spare, hdr
      ensures Valid() && st == Done && coreAlreadyFreed
      ensures more <==> !old(coreAlreadyFreed)
      ensures !more ==> tree == old(tree)
      ensures more ==> FreeStep(Nil, CoreBegin(), maxcore, tree) && Spare() == hdr.Length - Count(tree)
    {
      if coreAlreadyFreed {
        return false, Done;
      }
      coreAlreadyFreed := true;
      coreEnd := CoreBegin() + maxcore;
      st := KmemFree(CoreBegin(), maxcore);
      more := true;
    }

    /** The guard of the failing branch: the storage array has been handed over, and once the deferred
        blocks have been given back the root block is too small for the request. */
    ghost predicate Short(nbytes: nat)
      reads this, needTab
    {
      coreAlreadyFreed && AlignedWeight(GiveBackAll(Bare(tree), Pending())) < nbytes
    }

    /** A first request that the storage array is too small for; nothing checks that. */
    predicate Exceeds(nbytes: nat)
      reads this
    {
      !coreAlreadyFreed && maxcore < nbytes
    }

    /** The request is larger than the only block there is.  The search ends at that block at once,
        and what is taken to be left of it has a size that has wrapped around. */
    method AllocateBeyond(nbytes: UInt) returns (st: Status, addr: int)
      requires Linked() && freehdrflag && tree.Node? && tree.left.Nil? && tree.right.Nil?
      requires 0 < tree.size < nbytes && tree.block + tree.size == coreEnd
      modifies this`freeRoot, this`freeHdrList, this`freehdrflag, this`tree, this`spare, hdr
      ensures st.Done? || (st.NoHeader? && old(spare) == [])
      ensures st == Done ==>
        && Linked() && !Ordered() && addr == old(tree.block)
        && tree.Node? && tree == Node(Nil, tree.h, addr + nbytes, old(tree.size) - nbytes + UINT_SPACE, Nil)
    {
      hide CtxHeaders, CtxDistinct, ListAt, Distinct, Count, Headers;
      NodeAt(hdr[..], freeRoot, tree);
      SpareNonEmpty(hdr[..], freeHdrList, spare);
      var a := freeRoot;
      if freeHdrList == NIL {
        return NoHeader, 0;
      }
      var x := GetFreeHdr();
      st := Done;
      addr := CarvePlain(Root, x, nbytes, (hdr[a].size - nbytes) % UINT_SPACE, Hole, tree);
    }

    /** The allocation call.  The memory handed out is the heap's own unless the first request
        exceeds the storage array. */
    method KmemAlloc(nbytes: UInt) returns (st: Status, addr: int)
      requires Valid()
      modifies this`needList, needTab, this`coreAlreadyFreed, this`coreEnd
      modifies this`freeRoot, this`freeHdrList, this`freehdrflag, this`tree, this`spare, hdr
      ensures nbytes == 0 ==>
        st == Done && addr == 0 && Valid() && tree == old(tree) && Pending() == old(Pending())
        && coreAlreadyFreed == old(coreAlreadyFreed)
      ensures st == Done ==> (Valid() <==> !old(Exceeds(nbytes)))
      ensures 0 < nbytes && st == Done && !old(Exceeds(nbytes)) ==>
        && Pending() == [] && coreAlreadyFreed
        && exists t1 ::
          && (if old(coreAlreadyFreed) then FreeRun(old(tree), old(Pending()), t1)
              else FreeStep(Nil, CoreBegin(), maxcore, t1))
          && AllocStep(t1, nbytes, addr, tree) && BestFit(t1, nbytes, addr)
      ensures st == Done && old(Exceeds(nbytes)) ==>
        && addr == CoreBegin() && coreEnd == CoreBegin() + maxcore < addr + nbytes && Linked()
        && tree.Node? && tree == Node(Nil, tree.h, addr + nbytes, maxcore - nbytes + UINT_SPACE, Nil)
      ensures st == NullHeader ==> old(Exceeds(nbytes)) && maxcore == 0
      ensures old(Pending()) == [] && old(Exceeds(nbytes)) && maxcore == 0 ==> st == NullHeader
      ensures st == NoMemory <==>
        0 < nbytes && old(Short(nbytes)) && !st.Overlap? && !st.IllegalPointer? && !st.NoHeader?
      ensures st == NoMemory ==>
        FreeRun(old(tree), old(Pending()), tree) && Valid() && Pending() == [] && coreAlreadyFreed
      ensures old(Pending()) == [] ==> (st == NoMemory <==> 0 < nbytes && old(Short(nbytes)))
      ensures st == NoHeader ==> old(Spare()) < |old(Pending())| + 3
      ensures st == Overlap ==>
        exists k, t1 :: 0 <= k < |old(Pending())| && FreeRun(old(tree), old(Pending())[..k], t1)
          && Overlaps(t1, old(Pending())[k].addr, old(Pending())[k].size)
      ensures st == IllegalPointer ==>
        exists b :: b in old(Pending()) && 0 < b.size && !(core <= b.addr < old(coreEnd))
      ensures st != NoSlot
    {
      hide Count, HeapOrdered, SaneRange, Headers, Weight, BestFit;
      hide Occupied, SaneAll, Spaced, FreeStep, FreeRun, AllocStep, Distinct, ListAt, NoDup, GiveBackAll, Bare;
      addr := 0;
      if nbytes == 0 {
        return Done, 0;
      }
      ghost var t0, ps := tree, Pending();
      st := CheckNeedToFree();
      if st != Done { return; }
      RunShape(t0, ps, tree);
      if AlignedWeightOf(freeRoot) < nbytes {
        var more;
        more, st := Morecore(nbytes);
        if !more {
          return NoMemory, 0;
        }
        FreshArena(CoreBegin(), maxcore, tree);
        if freeRoot == NIL {
          return NullHeader, 0;
        }
        if maxcore < nbytes {
          st, addr := AllocateBeyond(nbytes);
          return;
        }
      }
      ghost var t1 := tree;
      st, addr := Allocate(nbytes);
    }
  }

  /** The block taken from those pending, if there are more than the first `k`. */
  lemma AtFront(ps: seq<Block>, k: nat, more: bool, b: Block, rest: seq<Block>)
    requires k <= |ps| && ps[k..] == if more then [b] + rest else []
    ensures if more then k < |ps| && b == ps[k] && rest == ps[k + 1..] else k == |ps|
    ensures k > 0 ==> ps[..k] == ps[..k - 1] + [ps[k - 1]]
    ensures ps[..0] == []
  {
    if more { assert ps[k..][0] == b && ps[k..][1..] == rest; }
  }

  lemma FreshArena(base: int, max: int, t: Tree)
    requires FreeStep(Nil, base, max, t) && base % ALIGN == 0 && 0 <= max
    ensures max == 0 ==> t == Nil
    ensures 0 < max ==> t.Node? && t == Node(Nil, t.h, base, max, Nil) && AlignedWeight(t) == max && Count(t) == 1
  {
    if 0 < max {
      var h :| FreeInto(Nil, base, max, h, t);
    }
  }

  lemma PiecesOne(p: int, n: int)
    ensures n < NEED_TO_FREE_BYTES || p % ALIGN == 0 ==> Pieces(p, n) == multiset{Block(p, n)}
  {
  }

  lemma PiecesSplit(p: int, n: int)
    requires NEED_TO_FREE_BYTES <= n && p % ALIGN != 0
    ensures Pieces(p, n) == Pieces(p, AlignMore(p)) + Pieces(p + AlignMore(p), n - AlignMore(p))
  {
    assert (p + AlignMore(p)) % ALIGN == 0;
  }

  lemma {:induction false} OccupiedNone(tab: seq<Block>)
    requires forall b :: b in tab ==> b.addr == 0
    ensures Occupied(tab) == []
  {
    if tab != [] { OccupiedNone(tab[1..]); }
  }

  lemma {:induction false} OccupiedAll(tab: seq<Block>)
    requires forall b :: b in tab ==> b.addr != 0
    ensures Occupied(tab) == tab
  {
    if tab != [] { OccupiedAll(tab[1..]); }
  }

  lemma {:induction false} OccupiedFits(tab: seq<Block>)
    ensures |Occupied(tab)| <= |tab|
  {
    if tab != [] { OccupiedFits(tab[1..]); }
  }

  /** The entries of the table that a deferred range needs: for all of a short one, and for a head and a rest that
      are short when a longer one is off the alignment. */
  function Slots(p: int, n: int): nat {
    if n < NEED_TO_FREE_BYTES then 1
    else if p % ALIGN == 0 then 0
    else if n - AlignMore(p) < NEED_TO_FREE_BYTES then 2
    else 1
  }

  lemma {:induction false} OccupiedAdd(tab: seq<Block>, i: nat, b: Block)
    requires i < |tab| && tab[i].addr == 0 && b.addr != 0
    ensures multiset(Occupied(tab[i := b])) == multiset(Occupied(tab)) + multiset{b}
    ensures |Occupied(tab[i := b])| == |Occupied(tab)| + 1
  {
    if i > 0 {
      OccupiedAdd(tab[1..], i - 1, b);
      assert tab[i := b][1..] == tab[1..][i - 1 := b];
    } else {
      assert tab[i := b][1..] == tab[1..];
    }
  }

  lemma {:induction false} OccupiedTake(tab: seq<Block>, i: nat)
    requires i < |tab| && tab[i].addr != 0 && forall j :: 0 <= j < i ==> tab[j].addr == 0
    ensures Occupied(tab) == [tab[i]] + Occupied(tab[i := Block(0, tab[i].size)])
  {
    var tab' := tab[i := Block(0, tab[i].size)];
    if i > 0 {
      OccupiedTake(tab[1..], i - 1);
      assert tab'[1..] == tab[1..][i - 1 := Block(0, tab[i].size)];
    } else {
      assert tab'[1..] == tab[1..];
    }
  }

  lemma TakeBottom(c: Ctx, tx: Tree, n: int)
    requires tx.Node? && 0 < n <= AlignedWeight(tx) && AlignedWeight(tx.left) < n && AlignedWeight(tx.right) < n
    ensures forall h :: Take(tx, n, h) == Carve(tx.left, tx.block, tx.size, tx.right, n, h)
    ensures n <= tx.size
  {
  }

  ghost function SkewedGrant(c: Ctx, tx: Tree, n: int, h: int): Grant
    requires tx.Node? && Skewed(tx.block, tx.size) && 0 < n <= tx.size - AlignMore(tx.block)
  {
    WrapGrant(c, Carve(tx.left, tx.block, tx.size, tx.right, n, h))
  }

  lemma NodeAt(mem: seq<Hdr>, p: int, t: Tree)
    requires TreeAt(mem, p, t) && t.Node?
    ensures p == t.h && 0 <= p < |mem| && mem[p].block == t.block && mem[p].size == t.size
  {
  }

  lemma ClearNoOverlap(t: Tree, p: int, n: int, lo: int, hi: int)
    requires Spaced(t, lo, hi) && HeapOrdered(t) && Clear(t, p, n) && 0 < n && lo < p && p + n < hi
    ensures !Overlaps(t, p, n)
  {
    CoalesceClear(t, p, n, lo, hi);
    CoalesceCorrect(t, p, n, lo, hi);
  }

  lemma SpareNonEmpty(mem: seq<Hdr>, p: int, s: seq<int>)
    requires ListAt(mem, p, s)
    ensures p != NIL <==> s != []
  {
  }

  lemma WrapHole(st: Store, t: Tree, q: Search)
    ensures q == WrapSearch(Hole, q) && Plug(Hole, t) == t && CtxAt(st, Root, Hole, Root)
  {
  }

  lemma TreeTop(mem: seq<Hdr>, x: int, t: Tree)
    requires TreeAt(mem, x, t)
    ensures x == NIL <==> t.Nil?
    ensures t.Node? ==>
      && x == t.h && 0 <= x < |mem| && mem[x].block == t.block && mem[x].size == t.size
      && TreeAt(mem, mem[x].left, t.left) && TreeAt(mem, mem[x].right, t.right)
  {
  }

  /** One turn of the search: a collision, a neighbour to take in, or a way down. */
  lemma SearchTurn(c: Ctx, tx: Tree, p: int, n: int, lo: int, hi: int)
    requires tx.Node? && Spaced(tx, lo, hi) && HeapOrdered(tx)
    ensures lo < tx.block && 0 < tx.size && tx.block + tx.size < hi && Plug(c, tx).Node?
    ensures Spaced(tx.left, lo, tx.block) && Spaced(tx.right, tx.block + tx.size, hi)
    ensures HeapOrdered(tx.left) && HeapOrdered(tx.right) && Count(tx.left) < Count(tx) && Count(tx.right) < Count(tx)
    ensures p < tx.block && p + n == tx.block ==>
      CartesianTree.Coalesce(tx, p, n) == CartesianTree.Coalesce(Merge(tx.left, tx.right), p, n + tx.size)
    ensures p > tx.block && tx.block + tx.size == p ==>
      CartesianTree.Coalesce(tx, p, n) == CartesianTree.Coalesce(Merge(tx.left, tx.right), tx.block, n + tx.size)
    ensures p == tx.block || (p < tx.block && p + n > tx.block) || (p > tx.block && tx.block + tx.size > p) ==>
      !WrapSearch(c, CartesianTree.Coalesce(tx, p, n)).Vacant?
  {
    PlugNode(c, tx);
  }

  lemma {:induction false} PlugNode(c: Ctx, t: Tree)
    requires t.Node?
    ensures Plug(c, t).Node?
  {
    if !c.Hole? { PlugNode(c.inner, t); }
  }

  lemma SearchEnd(c: Ctx, p: int, n: int)
    ensures WrapSearch(c, CartesianTree.Coalesce(Nil, p, n)) == Vacant(Plug(c, Nil), p, n)
  {
  }

  lemma FocusDown(st: Store, c: Ctx, k: Hook, tx: Tree)
    requires CtxAt(st, Root, c, k) && ValidHook(st.mem, k) && tx.Node? && TreeAt(st.mem, Get(st, k), tx)
    requires Distinct(Plug(c, tx))
    ensures CtxAt(st, Root, DownLeft(c, tx), LeftOf(tx.h)) && CtxAt(st, Root, DownRight(c, tx), RightOf(tx.h))
  {
    PlugHeaders(c, tx);
    StepDown(st, Root, c, k, tx);
  }

  lemma InsertDescends(c: Ctx, tx: Tree, p: int, len: int)
    requires tx.Node? && len <= tx.size
    ensures forall h ::
      Plug(c, CartesianTree.Insert(tx, h, p, len))
      == if p < tx.block then Plug(DownLeft(c, tx), CartesianTree.Insert(tx.left, h, p, len))
         else Plug(DownRight(c, tx), CartesianTree.Insert(tx.right, h, p, len))
    ensures Plug(c, tx) == Plug(DownLeft(c, tx), tx.left) == Plug(DownRight(c, tx), tx.right)
  {
    forall h
      ensures Plug(c, CartesianTree.Insert(tx, h, p, len))
        == if p < tx.block then Plug(DownLeft(c, tx), CartesianTree.Insert(tx.left, h, p, len))
           else Plug(DownRight(c, tx), CartesianTree.Insert(tx.right, h, p, len))
    {
      DownPlug(c, tx, CartesianTree.Insert(tx.left, h, p, len));
      DownPlug(c, tx, CartesianTree.Insert(tx.right, h, p, len));
    }
    DownPlug(c, tx, tx.left);
    DownPlug(c, tx, tx.right);
  }
}
