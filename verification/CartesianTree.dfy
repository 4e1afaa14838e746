/** The free list of the kernel allocator as a mathematical value.

    Free blocks form a Cartesian tree: ordered by address from left to right and by
    size from the root downwards.  The functions below say what each operation on the
    linked tree does to that value; `KmemHeap` proves that the loops over header links
    compute them. */
module CartesianTree {

  /** `h` is the header (an index into the header table) describing the block. */
  datatype Tree = Nil | Node(left: Tree, h: int, block: int, size: int, right: Tree)

  datatype Block = Block(addr: int, size: int)

  function Weight(t: Tree): int {
    if t.Nil? then 0 else t.size
  }

  /** The free blocks from left to right. */
  function Blocks(t: Tree): seq<Block> {
    match t
    case Nil => []
    case Node(l, _, b, s, r) => Blocks(l) + [Block(b, s)] + Blocks(r)
  }

  function Count(t: Tree): nat {
    match t
    case Nil => 0
    case Node(l, _, _, _, r) => Count(l) + 1 + Count(r)
  }

  function Headers(t: Tree): set<int> {
    match t
    case Nil => {}
    case Node(l, h, _, _, r) => Headers(l) + {h} + Headers(r)
  }

  /** No header occurs twice. */
  predicate Distinct(t: Tree) {
    match t
    case Nil => true
    case Node(l, h, _, _, r) =>
      && Distinct(l) && Distinct(r)
      && h !in Headers(l) && h !in Headers(r) && Headers(l) !! Headers(r)
  }

  /** Every block is non-empty and no block is larger than its parent. */
  predicate HeapOrdered(t: Tree) {
    match t
    case Nil => true
    case Node(l, _, _, s, r) =>
      && 0 < s && Weight(l) <= s && Weight(r) <= s
      && HeapOrdered(l) && HeapOrdered(r)
  }

  /** Address order with gaps: all blocks lie strictly between `lo` and `hi`, and two
      neighbouring blocks neither overlap nor touch. */
  predicate Spaced(t: Tree, lo: int, hi: int) {
    match t
    case Nil => true
    case Node(l, _, b, s, r) =>
      && lo < b && 0 < s && b + s < hi
      && Spaced(l, lo, b) && Spaced(r, b + s, hi)
  }

  /** Byte `x` is free. */
  predicate Free(t: Tree, x: int) {
    match t
    case Nil => false
    case Node(l, _, b, s, r) => b <= x < b + s || Free(l, x) || Free(r, x)
  }

  function Total(t: Tree): int {
    match t
    case Nil => 0
    case Node(l, _, _, s, r) => Total(l) + s + Total(r)
  }

  /** Some free block shares a byte with [p, p+n). */
  predicate Overlaps(t: Tree, p: int, n: int) {
    match t
    case Nil => false
    case Node(l, _, b, s, r) => (b < p + n && p < b + s) || Overlaps(l, p, n) || Overlaps(r, p, n)
  }

  /** No free block overlaps or touches [p, p+n). */
  predicate Clear(t: Tree, p: int, n: int) {
    match t
    case Nil => true
    case Node(l, _, b, s, r) => (b + s < p || p + n < b) && Clear(l, p, n) && Clear(r, p, n)
  }

  // ----- the operations on the value -----

  /** What stays to the left of a node inserted at address `p` ... */
  function Below(t: Tree, p: int): Tree {
    match t
    case Nil => Nil
    case Node(l, h, b, s, r) => if b < p then Node(l, h, b, s, Below(r, p)) else Below(l, p)
  }

  /** ... and what stays to its right. */
  function Above(t: Tree, p: int): Tree {
    match t
    case Nil => Nil
    case Node(l, h, b, s, r) => if b < p then Above(r, p) else Node(Above(l, p), h, b, s, r)
  }

  /** Root insertion at the first node that is smaller than the new block. */
  function Insert(t: Tree, h: int, p: int, len: int): Tree {
    match t
    case Nil => Node(Nil, h, p, len, Nil)
    case Node(l, h0, b, s, r) =>
      if s < len then Node(Below(t, p), h, p, len, Above(t, p))
      else if p < b then Node(Insert(l, h, p, len), h0, b, s, r)
      else Node(l, h0, b, s, Insert(r, h, p, len))
  }

  /** The two subtrees of a deleted node, joined along their inner edges. */
  function Merge(l: Tree, r: Tree): Tree
    decreases Count(l) + Count(r)
  {
    if l.Nil? && r.Nil? then Nil
    else if r.Nil? || (l.Node? && r.size <= l.size) then
      Node(l.left, l.h, l.block, l.size, Merge(l.right, r))
    else
      Node(Merge(l, r.left), r.h, r.block, r.size, r.right)
  }

  /** A node with subtrees `l` and `r` moved down until no descendant is larger. */
  function Demote(l: Tree, h: int, b: int, s: int, r: Tree): Tree
    requires 0 <= s
    decreases Count(l) + Count(r)
  {
    if Weight(l) > s || Weight(r) > s then
      if Weight(l) >= Weight(r) then
        Node(l.left, l.h, l.block, l.size, Demote(l.right, h, b, s, r))
      else
        Node(Demote(l, h, b, s, r.left), r.h, r.block, r.size, r.right)
    else Node(l, h, b, s, r)
  }

  datatype Search = DoubleFree | Vacant(tree: Tree, addr: int, size: int)

  /** The search of `kmem_free` for the place of [p, p+n): neighbours that touch the range
      are taken out of the tree and added to it; a collision on the path is reported. */
  function Coalesce(t: Tree, p: int, n: int): Search
    decreases Count(t)
  {
    match t
    case Nil => Vacant(Nil, p, n)
    case Node(l, h, b, s, r) =>
      if p < b then
        if p + n == b then (MergeCount(l, r); Coalesce(Merge(l, r), p, n + s))
        else if p + n > b then DoubleFree
        else
          var q := Coalesce(l, p, n);
          if q.DoubleFree? then q else Vacant(Node(q.tree, h, b, s, r), q.addr, q.size)
      else if p > b then
        if b + s == p then (MergeCount(l, r); Coalesce(Merge(l, r), b, n + s))
        else if b + s > p then DoubleFree
        else
          var q := Coalesce(r, p, n);
          if q.DoubleFree? then q else Vacant(Node(l, h, b, s, q.tree), q.addr, q.size)
      else DoubleFree
  }

  // ----- what the operations mean -----

  lemma {:induction false} MergeCount(l: Tree, r: Tree)
    ensures Count(Merge(l, r)) == Count(l) + Count(r)
    decreases Count(l) + Count(r)
  {
    if l.Nil? && r.Nil? {
    } else if r.Nil? || (l.Node? && r.size <= l.size) {
      MergeCount(l.right, r);
    } else {
      MergeCount(l, r.left);
    }
  }

  lemma SpacedWiden(t: Tree, lo: int, hi: int, lo': int, hi': int)
    requires Spaced(t, lo, hi) && lo' <= lo && hi <= hi'
    ensures Spaced(t, lo', hi')
  {
  }

  /** Deleting a node keeps both orders. */
  lemma {:induction false} MergeOrders(l: Tree, r: Tree, lo: int, mid: int, mid': int, hi: int)
    requires Spaced(l, lo, mid) && Spaced(r, mid', hi) && lo <= mid <= mid' <= hi
    requires HeapOrdered(l) && HeapOrdered(r)
    ensures Spaced(Merge(l, r), lo, hi) && HeapOrdered(Merge(l, r))
    ensures Weight(Merge(l, r)) == if Weight(l) < Weight(r) then Weight(r) else Weight(l)
    decreases Count(l) + Count(r)
  {
    if l.Nil? && r.Nil? {
    } else if r.Nil? || (l.Node? && r.size <= l.size) {
      MergeOrders(l.right, r, l.block + l.size, mid, mid', hi);
    } else {
      MergeOrders(l, r.left, lo, mid, mid', r.block);
    }
  }

  lemma {:induction false} MergeBlocks(l: Tree, r: Tree)
    ensures Blocks(Merge(l, r)) == Blocks(l) + Blocks(r)
    ensures forall x :: Free(Merge(l, r), x) <==> Free(l, x) || Free(r, x)
    decreases Count(l) + Count(r)
  {
    if l.Nil? && r.Nil? {
    } else if r.Nil? || (l.Node? && r.size <= l.size) {
      MergeBlocks(l.right, r);
    } else {
      MergeBlocks(l, r.left);
    }
  }

  /** Deleting a node keeps both orders and removes just that node's block. */
  lemma MergeCorrect(l: Tree, h: int, b: int, n: int, r: Tree, lo: int, hi: int)
    requires Spaced(Node(l, h, b, n, r), lo, hi) && HeapOrdered(Node(l, h, b, n, r))
    ensures Spaced(Merge(l, r), lo, hi) && HeapOrdered(Merge(l, r))
    ensures var bs := Blocks(Node(l, h, b, n, r)); var k := |Blocks(l)|;
      bs[k] == Block(b, n) && Blocks(Merge(l, r)) == bs[..k] + bs[k + 1..]
  {
    MergeOrders(l, r, lo, b, b + n, hi);
    MergeBlocks(l, r);
  }

  lemma {:induction false} MergeHeaders(l: Tree, r: Tree)
    requires Distinct(l) && Distinct(r) && Headers(l) !! Headers(r)
    ensures Headers(Merge(l, r)) == Headers(l) + Headers(r) && Distinct(Merge(l, r))
    decreases Count(l) + Count(r)
  {
    if l.Nil? && r.Nil? {
    } else if r.Nil? || (l.Node? && r.size <= l.size) {
      MergeHeaders(l.right, r);
    } else {
      MergeHeaders(l, r.left);
    }
  }

  /** Demotion repairs the size order at the root. */
  lemma {:induction false} DemoteOrders(l: Tree, h: int, b: int, s: int, r: Tree, lo: int, hi: int)
    requires 0 < s && lo < b && b + s < hi
    requires Spaced(l, lo, b) && Spaced(r, b + s, hi)
    requires HeapOrdered(l) && HeapOrdered(r)
    ensures Spaced(Demote(l, h, b, s, r), lo, hi) && HeapOrdered(Demote(l, h, b, s, r))
    ensures Weight(Demote(l, h, b, s, r)) <= s || Weight(Demote(l, h, b, s, r)) <= Weight(l)
            || Weight(Demote(l, h, b, s, r)) <= Weight(r)
    decreases Count(l) + Count(r)
  {
    if Weight(l) > s || Weight(r) > s {
      if Weight(l) >= Weight(r) {
        DemoteOrders(l.right, h, b, s, r, l.block + l.size, hi);
      } else {
        DemoteOrders(l, h, b, s, r.left, lo, r.block);
      }
    }
  }

  lemma {:induction false} DemoteBlocks(l: Tree, h: int, b: int, s: int, r: Tree)
    requires 0 <= s
    ensures Blocks(Demote(l, h, b, s, r)) == Blocks(l) + [Block(b, s)] + Blocks(r)
    ensures forall x :: Free(Demote(l, h, b, s, r), x) <==> Free(l, x) || Free(r, x) || b <= x < b + s
    decreases Count(l) + Count(r)
  {
    if Weight(l) > s || Weight(r) > s {
      if Weight(l) >= Weight(r) {
        DemoteBlocks(l.right, h, b, s, r);
        Regroup(Blocks(l.left), [Block(l.block, l.size)], Blocks(l.right), [Block(b, s)], Blocks(r));
      } else {
        DemoteBlocks(l, h, b, s, r.left);
        Regroup(Blocks(l), [Block(b, s)], Blocks(r.left), [Block(r.block, r.size)], Blocks(r.right));
      }
    }
  }

  lemma Regroup(a: seq<Block>, b: seq<Block>, c: seq<Block>, d: seq<Block>, e: seq<Block>)
    ensures a + b + (c + d + e) == (a + b + c) + d + e
    ensures (a + b + c) + d + e == a + b + (c + d + e)
  {
  }

  /** Demotion of a root that breaks only the size order restores both orders, and the blocks
      come out as they were. */
  lemma DemoteCorrect(l: Tree, h: int, b: int, s: int, r: Tree, lo: int, hi: int)
    requires Spaced(Node(l, h, b, s, r), lo, hi) && HeapOrdered(l) && HeapOrdered(r)
    ensures Spaced(Demote(l, h, b, s, r), lo, hi) && HeapOrdered(Demote(l, h, b, s, r))
    ensures Blocks(Demote(l, h, b, s, r)) == Blocks(Node(l, h, b, s, r))
  {
    DemoteOrders(l, h, b, s, r, lo, hi);
    DemoteBlocks(l, h, b, s, r);
  }

  lemma {:induction false} DemoteHeaders(l: Tree, h: int, b: int, s: int, r: Tree)
    requires 0 <= s
    requires Distinct(l) && Distinct(r) && Headers(l) !! Headers(r) && h !in Headers(l) && h !in Headers(r)
    ensures Headers(Demote(l, h, b, s, r)) == Headers(l) + {h} + Headers(r)
    ensures Distinct(Demote(l, h, b, s, r))
    ensures Count(Demote(l, h, b, s, r)) == Count(l) + 1 + Count(r)
    decreases Count(l) + Count(r)
  {
    if Weight(l) > s || Weight(r) > s {
      if Weight(l) >= Weight(r) {
        DemoteHeaders(l.right, h, b, s, r);
      } else {
        DemoteHeaders(l, h, b, s, r.left);
      }
    }
  }

  /** The split made by root insertion: nothing is lost, and the two parts lie on either
      side of the new block. */
  lemma {:induction false} SplitCorrect(t: Tree, p: int, len: int, lo: int, hi: int)
    requires Spaced(t, lo, hi) && HeapOrdered(t) && Clear(t, p, len) && 0 < len
    requires lo < p && p + len < hi
    ensures Spaced(Below(t, p), lo, p) && Spaced(Above(t, p), p + len, hi)
    ensures HeapOrdered(Below(t, p)) && HeapOrdered(Above(t, p))
    ensures Weight(Below(t, p)) <= Weight(t) && Weight(Above(t, p)) <= Weight(t)
    ensures forall x :: Free(Below(t, p), x) || Free(Above(t, p), x) <==> Free(t, x)
  {
    match t
    case Nil =>
    case Node(l, h, b, s, r) =>
      if b < p { SplitCorrect(r, p, len, b + s, hi); } else { SplitCorrect(l, p, len, lo, b); }
  }

  lemma {:induction false} SplitBlocks(t: Tree, p: int)
    ensures Blocks(Below(t, p)) + Blocks(Above(t, p)) == Blocks(t)
  {
    match t
    case Nil =>
    case Node(l, h, b, s, r) =>
      if b < p {
        SplitBlocks(r, p);
        assert Blocks(Below(t, p)) + Blocks(Above(t, p))
            == Blocks(l) + [Block(b, s)] + (Blocks(Below(r, p)) + Blocks(Above(r, p)));
      } else {
        SplitBlocks(l, p);
        assert Blocks(Below(t, p)) + Blocks(Above(t, p))
            == (Blocks(Below(l, p)) + Blocks(Above(l, p))) + [Block(b, s)] + Blocks(r);
      }
  }

  lemma {:induction false} SplitHeaders(t: Tree, p: int)
    requires Distinct(t)
    ensures Headers(Below(t, p)) + Headers(Above(t, p)) == Headers(t)
    ensures Headers(Below(t, p)) !! Headers(Above(t, p))
    ensures Distinct(Below(t, p)) && Distinct(Above(t, p))
    ensures Count(Below(t, p)) + Count(Above(t, p)) == Count(t)
  {
    match t
    case Nil =>
    case Node(l, h, b, s, r) => if b < p { SplitHeaders(r, p); } else { SplitHeaders(l, p); }
  }

  /** Inserting a block that touches no other keeps both orders and adds exactly it. */
  lemma {:induction false} InsertCorrect(t: Tree, h: int, p: int, len: int, lo: int, hi: int)
    requires Spaced(t, lo, hi) && HeapOrdered(t) && Clear(t, p, len) && 0 < len
    requires lo < p && p + len < hi
    ensures Spaced(Insert(t, h, p, len), lo, hi) && HeapOrdered(Insert(t, h, p, len))
    ensures Weight(Insert(t, h, p, len)) == if Weight(t) < len then len else Weight(t)
    ensures forall x :: Free(Insert(t, h, p, len), x) <==> Free(t, x) || p <= x < p + len
  {
    match t
    case Nil =>
    case Node(l, h0, b, s, r) =>
      if s < len {
        SplitCorrect(t, p, len, lo, hi);
      } else if p < b {
        InsertCorrect(l, h, p, len, lo, b);
      } else {
        InsertCorrect(r, h, p, len, b + s, hi);
      }
  }

  /** Insertion adds one block to the list of blocks and moves none of the others. */
  lemma {:induction false} InsertBlocks(t: Tree, h: int, p: int, len: int) returns (k: nat)
    ensures k <= |Blocks(t)|
    ensures Blocks(Insert(t, h, p, len)) == Blocks(t)[..k] + [Block(p, len)] + Blocks(t)[k..]
  {
    match t
    case Nil => k := 0;
    case Node(l, h0, b, s, r) =>
      if s < len {
        SplitBlocks(t, p);
        k := |Blocks(Below(t, p))|;
      } else if p < b {
        k := InsertBlocks(l, h, p, len);
        assert Blocks(t) == Blocks(l) + ([Block(b, s)] + Blocks(r));
      } else {
        var j := InsertBlocks(r, h, p, len);
        k := |Blocks(l)| + 1 + j;
        assert Blocks(t) == (Blocks(l) + [Block(b, s)]) + Blocks(r);
      }
  }

  lemma {:induction false} FarFromRange(t: Tree, lo: int, hi: int, p: int, n: int)
    requires Spaced(t, lo, hi) && 0 < n && (hi <= p || p + n <= lo)
    ensures !Overlaps(t, p, n) && Clear(t, p, n)
  {
    if t.Node? {
      FarFromRange(t.left, lo, t.block, p, n);
      FarFromRange(t.right, t.block + t.size, hi, p, n);
    }
  }

  lemma {:induction false} MergeOverlaps(l: Tree, r: Tree, p: int, n: int)
    ensures Overlaps(Merge(l, r), p, n) <==> Overlaps(l, p, n) || Overlaps(r, p, n)
    decreases Count(l) + Count(r)
  {
    if l.Nil? && r.Nil? {
    } else if r.Nil? || (l.Node? && r.size <= l.size) {
      MergeOverlaps(l.right, r, p, n);
    } else {
      MergeOverlaps(l, r.left, p, n);
    }
  }

  /** The range [q.addr, q.addr+q.size) together with the tree `q.tree` holds the free bytes
      of `t` and those of [p, p+n), and touches nothing in `q.tree`. */
  ghost predicate Settled(q: Search, t: Tree, p: int, n: int, lo: int, hi: int)
    requires q.Vacant?
  {
    && Spaced(q.tree, lo, hi) && HeapOrdered(q.tree) && Weight(q.tree) <= Weight(t)
    && lo < q.addr <= p && p + n <= q.addr + q.size < hi
    && Clear(q.tree, q.addr, q.size)
    && (forall x :: Free(q.tree, x) || q.addr <= x < q.addr + q.size <==> Free(t, x) || p <= x < p + n)
  }

  /** The search looks at one path only, yet it reports a collision exactly when the range
      shares a byte with some free block; otherwise the range it ends with is the given one
      plus the free neighbours it took out, and touches nothing that is left. */
  lemma {:induction false} CoalesceCorrect(t: Tree, p: int, n: int, lo: int, hi: int)
    requires Spaced(t, lo, hi) && HeapOrdered(t) && 0 < n && lo < p && p + n < hi
    ensures Coalesce(t, p, n).DoubleFree? <==> Overlaps(t, p, n)
    ensures Coalesce(t, p, n).Vacant? ==> Settled(Coalesce(t, p, n), t, p, n, lo, hi)
    decreases Count(t)
  {
    match t
    case Nil =>
    case Node(l, h, b, s, r) =>
      if p < b {
        if p + n == b {
          AbsorbRight(t, p, n, lo, hi);
        } else if p + n < b {
          CoalesceCorrect(l, p, n, lo, b);
          FarFromRange(r, b + s, hi, p, n);
          var q := Coalesce(l, p, n);
          if q.Vacant? { FarFromRange(r, b + s, hi, q.addr, q.size); }
        }
      } else if p > b {
        if b + s == p {
          AbsorbLeft(t, p, n, lo, hi);
        } else if b + s < p {
          CoalesceCorrect(r, p, n, b + s, hi);
          FarFromRange(l, lo, b, p, n);
          var q := Coalesce(r, p, n);
          if q.Vacant? { FarFromRange(l, lo, b, q.addr, q.size); }
        }
      }
  }

  lemma {:induction false} AbsorbRight(t: Tree, p: int, n: int, lo: int, hi: int)
    requires Spaced(t, lo, hi) && HeapOrdered(t) && 0 < n && lo < p && t.Node? && p + n == t.block
    ensures Coalesce(t, p, n).DoubleFree? <==> Overlaps(t, p, n)
    ensures Coalesce(t, p, n).Vacant? ==> Settled(Coalesce(t, p, n), t, p, n, lo, hi)
    decreases Count(t), 0
  {
    var Node(l, _, b, s, r) := t;
    MergeCount(l, r);
    MergeOrders(l, r, lo, b, b + s, hi);
    MergeBlocks(l, r);
    CoalesceCorrect(Merge(l, r), p, n + s, lo, hi);
    MergeOverlaps(l, r, p, n + s);
    FarFromRange(r, b + s, hi, p, n);
    FarFromRange(r, b + s, hi, p, n + s);
    OverlapsPrefix(l, lo, b, p, n, n + s);
  }

  lemma {:induction false} AbsorbLeft(t: Tree, p: int, n: int, lo: int, hi: int)
    requires Spaced(t, lo, hi) && HeapOrdered(t) && 0 < n && p + n < hi && t.Node? && t.block + t.size == p
    ensures Coalesce(t, p, n).DoubleFree? <==> Overlaps(t, p, n)
    ensures Coalesce(t, p, n).Vacant? ==> Settled(Coalesce(t, p, n), t, p, n, lo, hi)
    decreases Count(t), 0
  {
    var Node(l, _, b, s, r) := t;
    MergeCount(l, r);
    MergeOrders(l, r, lo, b, b + s, hi);
    MergeBlocks(l, r);
    CoalesceCorrect(Merge(l, r), b, n + s, lo, hi);
    MergeOverlaps(l, r, b, n + s);
    FarFromRange(l, lo, b, p, n);
    FarFromRange(l, lo, b, b, n + s);
    OverlapsSuffix(r, b + s, hi, b, p, p + n);
  }

  lemma {:induction false} OverlapsPrefix(t: Tree, lo: int, hi: int, p: int, n: int, n': int)
    requires Spaced(t, lo, hi) && hi <= p + n && n <= n'
    ensures Overlaps(t, p, n) <==> Overlaps(t, p, n')
  {
    if t.Node? {
      OverlapsPrefix(t.left, lo, t.block, p, n, n');
      OverlapsPrefix(t.right, t.block + t.size, hi, p, n, n');
    }
  }

  lemma {:induction false} OverlapsSuffix(t: Tree, lo: int, hi: int, p': int, p: int, e: int)
    requires Spaced(t, lo, hi) && p' <= p <= lo
    ensures Overlaps(t, p, e - p) <==> Overlaps(t, p', e - p')
  {
    if t.Node? {
      OverlapsSuffix(t.left, lo, t.block, p', p, e);
      OverlapsSuffix(t.right, t.block + t.size, hi, p', p, e);
    }
  }

  /** A range that touches no free block is left as it is by the search. */
  lemma {:induction false} CoalesceClear(t: Tree, p: int, n: int, lo: int, hi: int)
    requires Spaced(t, lo, hi) && Clear(t, p, n) && 0 < n
    ensures Coalesce(t, p, n) == Vacant(t, p, n)
  {
    match t
    case Nil =>
    case Node(l, h, b, s, r) =>
      if p < b { CoalesceClear(l, p, n, lo, b); } else { CoalesceClear(r, p, n, b + s, hi); }
  }

  // ----- one call of `kmem_free` -----

  ghost predicate FreeInto(t: Tree, p: int, n: int, h: int, t': Tree) {
    var q := Coalesce(t, p, n);
    q.Vacant? && h !in Headers(q.tree) && t' == Insert(q.tree, h, q.addr, q.size)
  }

  /** `t'` is `t` after [p, p+n) has been given back (an empty range changes nothing). */
  ghost predicate FreeStep(t: Tree, p: int, n: int, t': Tree) {
    if n == 0 then t' == t else exists h :: FreeInto(t, p, n, h, t')
  }

  /** Giving back a range that lies in the arena and overlaps no free block adds exactly its
      bytes and keeps both orders and the gaps. */
  lemma FreeStepCorrect(t: Tree, p: int, n: int, t': Tree, lo: int, hi: int)
    requires Spaced(t, lo, hi) && HeapOrdered(t) && 0 <= n && (0 < n ==> lo < p && p + n < hi)
    requires FreeStep(t, p, n, t')
    ensures Spaced(t', lo, hi) && HeapOrdered(t')
    ensures !Overlaps(t, p, n) || n == 0
    ensures forall x :: Free(t', x) <==> Free(t, x) || p <= x < p + n
  {
    if 0 < n {
      var h :| FreeInto(t, p, n, h, t');
      CoalesceCorrect(t, p, n, lo, hi);
      var q := Coalesce(t, p, n);
      InsertCorrect(q.tree, h, q.addr, q.size, lo, hi);
    }
  }

  // ----- allocation -----

  const ALIGN := 4

  /** Distance from `addr` to the next multiple of ALIGN above it. */
  function AlignMore(addr: int): int {
    ALIGN - addr % ALIGN
  }

  predicate Skewed(b: int, s: int) {
    b % ALIGN != 0 && s > AlignMore(b)
  }

  /** What a block can give to an aligned request. */
  function AlignedWeight(t: Tree): int {
    match t
    case Nil => 0
    case Node(_, _, b, s, _) => if Skewed(b, s) then s - AlignMore(b) else s
  }

  /** The tree after an allocation, the address handed out, and a tail (possibly empty)
      that still has to be given back. */
  datatype Grant = Grant(tree: Tree, addr: int, rest: int, restLen: int)

  /** True when the search descends to the left: the smaller son if it is large enough,
      otherwise the larger one. */
  predicate GoLeft(l: Tree, r: Tree, n: int) {
    if AlignedWeight(l) <= AlignedWeight(r) then AlignedWeight(l) >= n else AlignedWeight(r) < n
  }

  /** Best-fit descent, then the chosen block is used up or cut. */
  function Take(t: Tree, n: int, h': int): Grant
    requires t.Node? && 0 < n <= AlignedWeight(t)
  {
    var Node(l, h, b, s, r) := t;
    if AlignedWeight(l) >= n || AlignedWeight(r) >= n then
      if GoLeft(l, r, n) then var g := Take(l, n, h'); g.(tree := Node(g.tree, h, b, s, r))
      else var g := Take(r, n, h'); g.(tree := Node(l, h, b, s, g.tree))
    else Carve(l, b, s, r, n, h')
  }

  function Carve(l: Tree, b: int, s: int, r: Tree, n: int, h': int): Grant
    requires 0 < n <= s && (Skewed(b, s) ==> n <= s - AlignMore(b))
  {
    if s - n < 1 then Grant(Merge(l, r), b, b, 0)
    else if Skewed(b, s) then
      Grant(Demote(l, h', b, AlignMore(b), r), b + AlignMore(b), b + AlignMore(b) + n, s - AlignMore(b) - n)
    else Grant(Demote(l, h', b + n, s - n, r), b, b, 0)
  }

  predicate In(x: int, p: int, n: int) {
    p <= x < p + n
  }

  /** What an allocation promises: the free bytes of `t` are split, without overlap, into
      those of the new tree, the range handed out and the tail; both orders hold; a result of
      four or more bytes is aligned. */
  ghost predicate Granted(g: Grant, t: Tree, n: int, lo: int, hi: int) {
    && Spaced(g.tree, lo, hi) && HeapOrdered(g.tree) && Weight(g.tree) <= Weight(t)
    && lo < g.addr && g.addr + n < hi
    && (0 < g.restLen ==> g.rest == g.addr + n && g.rest + g.restLen < hi && Clear(g.tree, g.rest, g.restLen))
    && 0 <= g.restLen
    && !Overlaps(g.tree, g.addr, n)
    && (forall x :: Free(t, x) <==> Free(g.tree, x) || In(x, g.addr, n) || In(x, g.rest, g.restLen))
    && (ALIGN <= n ==> g.addr % ALIGN == 0)
  }

  lemma {:induction false} CarveCorrect(l: Tree, h: int, b: int, s: int, r: Tree, n: int, h': int, lo: int, hi: int)
    requires var t := Node(l, h, b, s, r);
      Spaced(t, lo, hi) && HeapOrdered(t) && 0 < n <= AlignedWeight(t)
    ensures Granted(Carve(l, b, s, r, n, h'), Node(l, h, b, s, r), n, lo, hi)
  {
    if s - n < 1 {
      FarFromRange(l, lo, b, b, s);
      FarFromRange(r, b + s, hi, b, s);
      MergeOrders(l, r, lo, b, b + s, hi);
      MergeBlocks(l, r);
      MergeOverlaps(l, r, b, n);
    } else if Skewed(b, s) {
      CarveSkewed(l, h, b, s, r, n, h', lo, hi);
    } else {
      CutCorrect(l, h', b + n, s - n, r, b + s, lo, hi, b, n);
    }
  }

  lemma {:induction false} CarveSkewed(l: Tree, h: int, b: int, s: int, r: Tree, n: int, h': int, lo: int, hi: int)
    requires var t := Node(l, h, b, s, r); Spaced(t, lo, hi) && HeapOrdered(t)
    requires 0 < n < s && Skewed(b, s) && n <= s - AlignMore(b)
    ensures Granted(Carve(l, b, s, r, n, h'), Node(l, h, b, s, r), n, lo, hi)
  {
    var a := AlignMore(b);
    var g := Carve(l, b, s, r, n, h');
    assert g == Grant(Demote(l, h', b, a, r), b + a, b + a + n, s - a - n);
    assert (b + a) % ALIGN == 0;
    CutCorrect(l, h', b, a, r, b + s, lo, hi, b + a, n);
    if 0 < s - a - n { CutCorrect(l, h', b, a, r, b + s, lo, hi, b + a + n, s - a - n); }
  }

  /** A block cut down to [b, b+s) and demoted, next to a range [p, p+n) cut from the same
      block (which ended at `e`). */
  lemma {:induction false} CutCorrect(l: Tree, h: int, b: int, s: int, r: Tree, e: int, lo: int, hi: int, p: int,
        n: int)
    requires Spaced(l, lo, if b < p then b else p) && Spaced(r, e, hi) && HeapOrdered(l) && HeapOrdered(r)
    requires 0 < s && 0 < n && lo < b && lo < p && b + s <= e && p + n <= e < hi
    requires b + s <= p || p + n <= b
    ensures var t' := Demote(l, h, b, s, r);
      && Spaced(t', lo, hi) && HeapOrdered(t')
      && !Overlaps(t', p, n) && (b + s < p ==> Clear(t', p, n))
      && (forall x :: Free(t', x) <==> Free(l, x) || Free(r, x) || In(x, b, s))
    ensures Weight(Demote(l, h, b, s, r)) <= s || Weight(Demote(l, h, b, s, r)) <= Weight(l)
            || Weight(Demote(l, h, b, s, r)) <= Weight(r)
  {
    var m := if b < p then b else p;
    SpacedWiden(l, lo, m, lo, b);
    SpacedWiden(r, e, hi, b + s, hi);
    DemoteOrders(l, h, b, s, r, lo, hi);
    DemoteBlocks(l, h, b, s, r);
    DemoteOverlaps(l, h, b, s, r, p, n);
    FarFromRange(l, lo, m, p, n);
    FarFromRange(r, e, hi, p, n);
  }

  lemma {:induction false} DemoteOverlaps(l: Tree, h: int, b: int, s: int, r: Tree, p: int, n: int)
    requires 0 <= s
    ensures Overlaps(Demote(l, h, b, s, r), p, n) <==>
      Overlaps(l, p, n) || Overlaps(r, p, n) || (b < p + n && p < b + s)
    ensures Clear(Demote(l, h, b, s, r), p, n) <==> Clear(l, p, n) && Clear(r, p, n) && (b + s < p || p + n < b)
    decreases Count(l) + Count(r)
  {
    if Weight(l) > s || Weight(r) > s {
      if Weight(l) >= Weight(r) {
        DemoteOverlaps(l.right, h, b, s, r, p, n);
      } else {
        DemoteOverlaps(l, h, b, s, r.left, p, n);
      }
    }
  }

  lemma {:induction false} TakeCorrect(t: Tree, n: int, h': int, lo: int, hi: int)
    requires t.Node? && 0 < n <= AlignedWeight(t) && Spaced(t, lo, hi) && HeapOrdered(t)
    ensures Granted(Take(t, n, h'), t, n, lo, hi)
  {
    var Node(l, h, b, s, r) := t;
    if AlignedWeight(l) >= n || AlignedWeight(r) >= n {
      if GoLeft(l, r, n) {
        TakeCorrect(l, n, h', lo, b);
        GrantedLeft(t, Take(l, n, h'), n, lo, hi);
      } else {
        TakeCorrect(r, n, h', b + s, hi);
        GrantedRight(t, Take(r, n, h'), n, lo, hi);
      }
    } else {
      CarveCorrect(l, h, b, s, r, n, h', lo, hi);
    }
    hide Granted;
  }

  lemma GrantedLeft(t: Tree, g: Grant, n: int, lo: int, hi: int)
    requires t.Node? && 0 < n && Spaced(t, lo, hi) && HeapOrdered(t) && Granted(g, t.left, n, lo, t.block)
    ensures Granted(g.(tree := t.(left := g.tree)), t, n, lo, hi)
  {
    FarFromRange(t.right, t.block + t.size, hi, g.addr, n);
    if 0 < g.restLen { FarFromRange(t.right, t.block + t.size, hi, g.rest, g.restLen); }
  }

  lemma GrantedRight(t: Tree, g: Grant, n: int, lo: int, hi: int)
    requires t.Node? && 0 < n && Spaced(t, lo, hi) && HeapOrdered(t) && Granted(g, t.right, n, t.block + t.size, hi)
    ensures Granted(g.(tree := t.(right := g.tree)), t, n, lo, hi)
  {
    FarFromRange(t.left, lo, t.block, g.addr, n);
    if 0 < g.restLen { FarFromRange(t.left, lo, t.block, g.rest, g.restLen); }
  }

  // ----- which block is chosen -----

  function Subtrees(t: Tree): set<Tree> {
    match t
    case Nil => {}
    case Node(l, _, _, _, r) => {t} + Subtrees(l) + Subtrees(r)
  }

  /** Memory at `addr` was taken from tree `u`: out of the better fitting son that is large enough, or, if
      none is, from the beginning of the block at the root. */
  predicate Chosen(u: Tree, n: int, addr: int)
    requires u.Node?
  {
    var wl, wr := AlignedWeight(u.left), AlignedWeight(u.right);
    && (wl >= n && (wr < n || wl <= wr) ==> Free(u.left, addr))
    && (wr >= n && (wl < n || wr < wl) ==> Free(u.right, addr))
    && (wl < n && wr < n ==> u.block <= addr < u.block + u.size && addr < u.block + ALIGN)
  }

  /** So it is all the way down from the root. */
  ghost predicate BestFit(t: Tree, n: int, addr: int) {
    forall u :: u in Subtrees(t) && Free(u, addr) ==> Chosen(u, n, addr)
  }

  lemma {:induction false} SubtreesIn(t: Tree, u: Tree, lo: int, hi: int, x: int)
    requires Spaced(t, lo, hi) && u in Subtrees(t) && Free(u, x)
    ensures u.Node? && Free(t, x) && lo < x < hi
  {
    if u == t {
      FreeWithin(t, lo, hi, x);
    } else if u in Subtrees(t.left) {
      SubtreesIn(t.left, u, lo, t.block, x);
    } else {
      SubtreesIn(t.right, u, t.block + t.size, hi, x);
    }
  }

  lemma {:induction false} FreeWithin(t: Tree, lo: int, hi: int, x: int)
    requires Spaced(t, lo, hi) && Free(t, x)
    ensures lo < x < hi
  {
    if Free(t.left, x) {
      FreeWithin(t.left, lo, t.block, x);
    } else if Free(t.right, x) {
      FreeWithin(t.right, t.block + t.size, hi, x);
    }
  }

  lemma {:induction false} TakeBest(t: Tree, n: int, h': int, lo: int, hi: int)
    requires t.Node? && 0 < n <= AlignedWeight(t) && Spaced(t, lo, hi) && HeapOrdered(t)
    ensures Free(t, Take(t, n, h').addr) && BestFit(t, n, Take(t, n, h').addr)
  {
    var Node(l, h, b, s, r) := t;
    var addr := Take(t, n, h').addr;
    if AlignedWeight(l) >= n || AlignedWeight(r) >= n {
      if GoLeft(l, r, n) { TakeBest(l, n, h', lo, b); } else { TakeBest(r, n, h', b + s, hi); }
    }
    forall u | u in Subtrees(t) && Free(u, addr) ensures Chosen(u, n, addr) {
      if u in Subtrees(l) { SubtreesIn(l, u, lo, b, addr); }
      if u in Subtrees(r) { SubtreesIn(r, u, b + s, hi, addr); }
      if Free(l, addr) { FreeWithin(l, lo, b, addr); }
      if Free(r, addr) { FreeWithin(r, b + s, hi, addr); }
    }
  }

  /** Some free block could satisfy an aligned request of `n` bytes. */
  predicate Fits(t: Tree, n: int) {
    match t
    case Nil => false
    case Node(l, _, _, _, r) => AlignedWeight(t) >= n || Fits(l, n) || Fits(r, n)
  }

  /** Block `b` has room for `n` bytes from an aligned address on. */
  ghost predicate HasRoom(b: Block, n: int) {
    exists a :: RoomAt(b, n, a)
  }

  predicate RoomAt(b: Block, n: int, a: int) {
    a % ALIGN == 0 && b.addr <= a && a + n <= b.addr + b.size
  }

  /** A request of four bytes or more fits exactly when some free block has room for it. */
  lemma {:induction false} FitsExact(t: Tree, n: int)
    requires ALIGN <= n
    ensures t.Node? ==> (AlignedWeight(t) >= n <==> HasRoom(Block(t.block, t.size), n))
    ensures Fits(t, n) <==> exists b :: b in Blocks(t) && HasRoom(b, n)
  {
    if t.Node? {
      var b := Block(t.block, t.size);
      var a := if t.block % ALIGN == 0 then t.block else t.block + AlignMore(t.block);
      if AlignedWeight(t) >= n { assert RoomAt(b, n, a); }
      if a' :| RoomAt(b, n, a') { assert a <= a'; }
      FitsExact(t.left, n);
      FitsExact(t.right, n);
      assert Blocks(t) == Blocks(t.left) + [b] + Blocks(t.right);
      hide HasRoom;
      assert b in Blocks(t);
      assert forall c :: c in Blocks(t) <==> c == b || c in Blocks(t.left) || c in Blocks(t.right);
    }
  }

  lemma {:induction false} FitsBound(t: Tree, n: int)
    requires HeapOrdered(t) && 0 < n && Fits(t, n)
    ensures n <= Weight(t)
  {
    if AlignedWeight(t) < n {
      if Fits(t.left, n) { FitsBound(t.left, n); } else { FitsBound(t.right, n); }
    }
  }

  /** The test at the root turns a request down that some free block fits exactly when the root
      block is skewed, the request is within its alignment loss of its size, and a block below fits. */
  lemma RootTestMisses(t: Tree, n: int)
    requires HeapOrdered(t) && 0 < n && t.Node?
    ensures AlignedWeight(t) < n && Fits(t, n) <==>
      Skewed(t.block, t.size) && t.size - AlignMore(t.block) < n <= t.size && (Fits(t.left, n) || Fits(t.right, n))
    ensures AlignedWeight(t) >= n ==> Fits(t, n)
  {
    if Fits(t, n) { FitsBound(t, n); }
  }

  // ----- one call of `kmem_alloc` -----

  ghost predicate AllocInto(t: Tree, n: int, h: int, addr: int, t': Tree)
    requires t.Node? && 0 < n <= AlignedWeight(t)
  {
    var g := Take(t, n, h);
    h !in Headers(t) && addr == g.addr && FreeStep(g.tree, g.rest, g.restLen, t')
  }

  /** `t'` is `t` after `n` bytes at `addr` have been handed out. */
  ghost predicate AllocStep(t: Tree, n: int, addr: int, t': Tree) {
    t.Node? && 0 < n <= AlignedWeight(t) && exists h :: AllocInto(t, n, h, addr, t')
  }

  /** An allocation removes exactly the range it returns, from inside the arena, and keeps
      both orders and the gaps. */
  lemma AllocStepCorrect(t: Tree, n: int, addr: int, t': Tree, lo: int, hi: int)
    requires Spaced(t, lo, hi) && HeapOrdered(t) && AllocStep(t, n, addr, t')
    ensures Spaced(t', lo, hi) && HeapOrdered(t')
    ensures lo < addr && addr + n < hi && (ALIGN <= n ==> addr % ALIGN == 0)
    ensures forall x :: Free(t', x) <==> Free(t, x) && !In(x, addr, n)
    ensures forall x :: In(x, addr, n) ==> Free(t, x)
  {
    var h :| AllocInto(t, n, h, addr, t');
    TakeCorrect(t, n, h, lo, hi);
    var g := Take(t, n, h);
    FreeStepCorrect(g.tree, g.rest, g.restLen, t', lo, hi);
    forall x | In(x, addr, n) && Free(g.tree, x) ensures false { FreeOverlaps(g.tree, addr, n, x); }
  }

  /** An allocation is a best fit. */
  lemma AllocStepBest(t: Tree, n: int, addr: int, t': Tree, lo: int, hi: int)
    requires Spaced(t, lo, hi) && HeapOrdered(t) && AllocStep(t, n, addr, t')
    ensures Free(t, addr) && BestFit(t, n, addr)
  {
    var h :| AllocInto(t, n, h, addr, t');
    TakeBest(t, n, h, lo, hi);
  }

  lemma {:induction false} FreeOverlaps(t: Tree, p: int, n: int, x: int)
    requires Free(t, x) && In(x, p, n)
    ensures Overlaps(t, p, n)
  {
    if !(t.block <= x < t.block + t.size) {
      if Free(t.left, x) { FreeOverlaps(t.left, p, n, x); } else { FreeOverlaps(t.right, p, n, x); }
    }
  }

  lemma {:induction false} OverlapsFree(t: Tree, lo: int, hi: int, p: int, n: int) returns (x: int)
    requires Spaced(t, lo, hi) && 0 < n && Overlaps(t, p, n)
    ensures Free(t, x) && In(x, p, n)
  {
    if t.block < p + n && p < t.block + t.size {
      x := if p < t.block then t.block else p;
    } else if Overlaps(t.left, p, n) {
      x := OverlapsFree(t.left, lo, t.block, p, n);
    } else {
      x := OverlapsFree(t.right, t.block + t.size, hi, p, n);
    }
  }

  // ----- a list of deferred calls of `kmem_free` -----

  ghost predicate FreeTrace(ts: seq<Tree>, bs: seq<Block>) {
    && |ts| == |bs| + 1
    && forall i :: 0 <= i < |bs| ==> FreeStep(ts[i], bs[i].addr, bs[i].size, ts[i + 1])
  }

  /** `t'` is `t` after all the ranges of `bs` have been given back in turn. */
  ghost predicate FreeRun(t: Tree, bs: seq<Block>, t': Tree) {
    exists ts :: FreeTrace(ts, bs) && ts[0] == t && ts[|bs|] == t'
  }

  lemma FreeRunNone(t: Tree)
    ensures FreeRun(t, [], t)
  {
    assert FreeTrace([t], []);
  }

  lemma FreeRunStep(t: Tree, bs: seq<Block>, t1: Tree, b: Block, t': Tree)
    requires FreeRun(t, bs, t1) && FreeStep(t1, b.addr, b.size, t')
    ensures FreeRun(t, bs + [b], t')
  {
    var ts :| FreeTrace(ts, bs) && ts[0] == t && ts[|bs|] == t1;
    assert FreeTrace(ts + [t'], bs + [b]);
  }

  /** Size of a deferred-free record, which is kept inside the deferred block itself. */
  const NEED_TO_FREE_BYTES := 8

  /** How a deferred block is recorded: a long one that starts off the alignment in two parts. */
  function Pieces(p: int, n: int): multiset<Block> {
    if NEED_TO_FREE_BYTES <= n && p % ALIGN != 0 then
      multiset{Block(p, AlignMore(p)), Block(p + AlignMore(p), n - AlignMore(p))}
    else multiset{Block(p, n)}
  }

  /** `t'` is `t` after all deferred blocks have been given back in some order. */
  ghost predicate Drained(t: Tree, pending: multiset<Block>, t': Tree) {
    exists bs :: multiset(bs) == pending && FreeRun(t, bs, t')
  }
}
