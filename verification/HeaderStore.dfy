/** The header table as linked memory.

    A `Store` is the contents of the header table together with the root pointer.  A `Hook`
    is the address of a tree pointer: the root, or the `left` or `right` field of a header.
    The predicates relate links to the trees of `CartesianTree`; a tree with one place left
    open is a `Ctx`. */
module HeaderStore {
  import opened CartesianTree

  /** The null header pointer; other pointers are indices into the table. */
  const NIL := -1

  datatype Hdr = Hdr(left: int, right: int, block: int, size: int)

  datatype Store = Store(mem: seq<Hdr>, root: int)

  datatype Hook = Root | LeftOf(h: int) | RightOf(h: int)

  predicate ValidHook(mem: seq<Hdr>, k: Hook) {
    match k
    case Root => true
    case LeftOf(h) => 0 <= h < |mem|
    case RightOf(h) => 0 <= h < |mem|
  }

  function Get(st: Store, k: Hook): int
    requires ValidHook(st.mem, k)
  {
    match k
    case Root => st.root
    case LeftOf(h) => st.mem[h].left
    case RightOf(h) => st.mem[h].right
  }

  function Put(st: Store, k: Hook, v: int): (st': Store)
    requires ValidHook(st.mem, k)
    ensures |st'.mem| == |st.mem|
  {
    match k
    case Root => st.(root := v)
    case LeftOf(h) => st.(mem := st.mem[h := st.mem[h].(left := v)])
    case RightOf(h) => st.(mem := st.mem[h := st.mem[h].(right := v)])
  }

  /** The links from header `p` on spell out the tree `t`. */
  predicate TreeAt(mem: seq<Hdr>, p: int, t: Tree)
    decreases t
  {
    match t
    case Nil => p == NIL
    case Node(l, h, b, s, r) =>
      && p == h && 0 <= h < |mem|
      && mem[h].block == b && mem[h].size == s
      && TreeAt(mem, mem[h].left, l) && TreeAt(mem, mem[h].right, r)
  }

  /** A tree with a hole: at the top, or inside a left or right subtree. */
  datatype Ctx =
    | Hole
    | InLeft(inner: Ctx, h: int, block: int, size: int, sib: Tree)
    | InRight(sib: Tree, h: int, block: int, size: int, inner: Ctx)

  function Plug(c: Ctx, t: Tree): Tree {
    match c
    case Hole => t
    case InLeft(c', h, b, s, r) => Node(Plug(c', t), h, b, s, r)
    case InRight(l, h, b, s, c') => Node(l, h, b, s, Plug(c', t))
  }

  function CtxHeaders(c: Ctx): set<int> {
    match c
    case Hole => {}
    case InLeft(c', h, _, _, r) => CtxHeaders(c') + {h} + Headers(r)
    case InRight(l, h, _, _, c') => Headers(l) + {h} + CtxHeaders(c')
  }

  predicate CtxDistinct(c: Ctx) {
    match c
    case Hole => true
    case _ =>
      && CtxDistinct(c.inner) && Distinct(c.sib)
      && c.h !in CtxHeaders(c.inner) && c.h !in Headers(c.sib) && CtxHeaders(c.inner) !! Headers(c.sib)
  }

  /** Following the links of `c` from hook `k` leads to hook `k'`, whose contents are left
      unspecified. */
  predicate CtxAt(st: Store, k: Hook, c: Ctx, k': Hook)
    decreases c
  {
    match c
    case Hole => k == k' && ValidHook(st.mem, k)
    case InLeft(c', h, b, s, r) =>
      && ValidHook(st.mem, k)
      && 0 <= h < |st.mem| && Get(st, k) == h && st.mem[h].block == b && st.mem[h].size == s
      && TreeAt(st.mem, st.mem[h].right, r) && CtxAt(st, LeftOf(h), c', k')
    case InRight(l, h, b, s, c') =>
      && ValidHook(st.mem, k)
      && 0 <= h < |st.mem| && Get(st, k) == h && st.mem[h].block == b && st.mem[h].size == s
      && TreeAt(st.mem, st.mem[h].left, l) && CtxAt(st, RightOf(h), c', k')
  }

  /** The hole of `c` filled with the context `d`. */
  function Extend(c: Ctx, d: Ctx): Ctx {
    match c
    case Hole => d
    case InLeft(c', h, b, s, r) => InLeft(Extend(c', d), h, b, s, r)
    case InRight(l, h, b, s, c') => InRight(l, h, b, s, Extend(c', d))
  }

  /** Outside of header `h`, or of the headers in `hs`, the two tables agree. */
  predicate SameExcept(m: seq<Hdr>, m': seq<Hdr>, hs: set<int>) {
    |m| == |m'| && forall i :: 0 <= i < |m| && i !in hs ==> m[i] == m'[i]
  }

  function HookHeader(k: Hook): set<int> {
    if k.Root? then {} else {k.h}
  }

  // ----- framing -----

  lemma {:induction false} TreeFrame(m: seq<Hdr>, m': seq<Hdr>, hs: set<int>, p: int, t: Tree)
    requires TreeAt(m, p, t) && SameExcept(m, m', hs) && Headers(t) !! hs
    ensures TreeAt(m', p, t)
    decreases t
  {
    if t.Node? {
      TreeFrame(m, m', hs, m[p].left, t.left);
      TreeFrame(m, m', hs, m[p].right, t.right);
    }
  }

  lemma {:induction false} CtxFrame(st: Store, st': Store, hs: set<int>, k: Hook, c: Ctx, k': Hook)
    requires CtxAt(st, k, c, k') && SameExcept(st.mem, st'.mem, hs) && CtxHeaders(c) !! hs
    requires Get(st, k) == Get(st', k)
    ensures CtxAt(st', k, c, k')
    decreases c
  {
    match c
    case Hole =>
    case InLeft(c', h, b, s, r) =>
      TreeFrame(st.mem, st'.mem, hs, st.mem[h].right, r);
      CtxFrame(st, st', hs, LeftOf(h), c', k');
    case InRight(l, h, b, s, c') =>
      TreeFrame(st.mem, st'.mem, hs, st.mem[h].left, l);
      CtxFrame(st, st', hs, RightOf(h), c', k');
  }

  lemma {:induction false} CtxHookIn(st: Store, k: Hook, c: Ctx, k': Hook)
    requires CtxAt(st, k, c, k')
    ensures ValidHook(st.mem, k')
    ensures c.Hole? ==> k' == k
    ensures !c.Hole? ==> !k'.Root? && k'.h in CtxHeaders(c)
    decreases c
  {
    match c
    case Hole =>
    case InLeft(c', h, b, s, r) => CtxHookIn(st, LeftOf(h), c', k');
    case InRight(l, h, b, s, c') => CtxHookIn(st, RightOf(h), c', k');
  }

  /** Writing the open hook disturbs nothing on the way to it. */
  lemma {:induction false} CtxPut(st: Store, k: Hook, c: Ctx, k': Hook, v: int)
    requires CtxAt(st, k, c, k') && CtxDistinct(c) && HookHeader(k) !! CtxHeaders(c)
    ensures ValidHook(st.mem, k') && CtxAt(Put(st, k', v), k, c, k')
    ensures !c.Hole? ==> Get(Put(st, k', v), k) == Get(st, k)
    decreases c
  {
    CtxHookIn(st, k, c, k');
    var st' := Put(st, k', v);
    var hs := HookHeader(k');
    match c
    case Hole =>
    case InLeft(c', h, b, s, r) =>
      CtxHookIn(st, LeftOf(h), c', k');
      CtxPut(st, LeftOf(h), c', k', v);
      TreeFrame(st.mem, st'.mem, hs, st.mem[h].right, r);
    case InRight(l, h, b, s, c') =>
      CtxHookIn(st, RightOf(h), c', k');
      CtxPut(st, RightOf(h), c', k', v);
      TreeFrame(st.mem, st'.mem, hs, st.mem[h].left, l);
  }

  lemma {:induction false} CtxExtend(st: Store, k: Hook, c: Ctx, k': Hook, d: Ctx, k'': Hook)
    requires CtxAt(st, k, c, k') && CtxAt(st, k', d, k'')
    ensures CtxAt(st, k, Extend(c, d), k'')
    decreases c
  {
    match c
    case Hole =>
    case InLeft(c', h, b, s, r) => CtxExtend(st, LeftOf(h), c', k', d, k'');
    case InRight(l, h, b, s, c') => CtxExtend(st, RightOf(h), c', k', d, k'');
  }

  lemma {:induction false} ExtendFacts(c: Ctx, d: Ctx, t: Tree)
    ensures Plug(Extend(c, d), t) == Plug(c, Plug(d, t))
    ensures CtxHeaders(Extend(c, d)) == CtxHeaders(c) + CtxHeaders(d)
    ensures CtxDistinct(c) && CtxDistinct(d) && CtxHeaders(c) !! CtxHeaders(d) ==> CtxDistinct(Extend(c, d))
  {
    if !c.Hole? { ExtendFacts(c.inner, d, t); }
  }

  lemma {:induction false} CtxFill(st: Store, k: Hook, c: Ctx, k': Hook, t: Tree)
    requires CtxAt(st, k, c, k') && ValidHook(st.mem, k') && TreeAt(st.mem, Get(st, k'), t)
    ensures TreeAt(st.mem, Get(st, k), Plug(c, t))
    decreases c
  {
    match c
    case Hole =>
    case InLeft(c', h, b, s, r) => CtxFill(st, LeftOf(h), c', k', t);
    case InRight(l, h, b, s, c') => CtxFill(st, RightOf(h), c', k', t);
  }

  lemma PlugHole(t: Tree)
    ensures Plug(Hole, t) == t
  {
  }

  lemma {:induction false} PlugHeaders(c: Ctx, t: Tree)
    ensures Headers(Plug(c, t)) == CtxHeaders(c) + Headers(t)
    ensures Distinct(Plug(c, t)) <==> CtxDistinct(c) && Distinct(t) && CtxHeaders(c) !! Headers(t)
    ensures Count(Plug(c, t)) == Count(Plug(c, Nil)) + Count(t)
  {
    if !c.Hole? { PlugHeaders(c.inner, t); }
  }

  /** The chain of unused headers, linked through `left`. */
  predicate ListAt(mem: seq<Hdr>, p: int, s: seq<int>)
    decreases s
  {
    if s == [] then p == NIL
    else p == s[0] && 0 <= p < |mem| && ListAt(mem, mem[p].left, s[1..])
  }

  predicate NoDup(s: seq<int>) {
    forall i, j :: 0 <= i < j < |s| ==> s[i] != s[j]
  }

  lemma {:induction false} ListFrame(m: seq<Hdr>, m': seq<Hdr>, hs: set<int>, p: int, s: seq<int>)
    requires ListAt(m, p, s) && SameExcept(m, m', hs) && forall x :: x in s ==> x !in hs
    ensures ListAt(m', p, s)
    decreases s
  {
    if s != [] {
      assert s[0] in s;
      forall x | x in s[1..] ensures x !in hs { assert x in s; }
      ListFrame(m, m', hs, m[p].left, s[1..]);
    }
  }

  lemma {:induction false} TreeHeadersInRange(mem: seq<Hdr>, p: int, t: Tree)
    requires TreeAt(mem, p, t)
    ensures forall h :: h in Headers(t) ==> 0 <= h < |mem|
    decreases t
  {
    if t.Node? {
      TreeHeadersInRange(mem, mem[p].left, t.left);
      TreeHeadersInRange(mem, mem[p].right, t.right);
    }
  }

  // ----- moving a hole -----

  function EndHook(k: Hook, c: Ctx): Hook
    decreases c
  {
    match c
    case Hole => k
    case InLeft(c', h, _, _, _) => EndHook(LeftOf(h), c')
    case InRight(_, h, _, _, c') => EndHook(RightOf(h), c')
  }

  lemma {:induction false} CtxSplit(st: Store, k: Hook, c: Ctx, d: Ctx, k'': Hook)
    requires CtxAt(st, k, Extend(c, d), k'')
    ensures CtxAt(st, k, c, EndHook(k, c)) && CtxAt(st, EndHook(k, c), d, k'')
    decreases c
  {
    match c
    case Hole => CtxHookIn(st, k, d, k'');
    case InLeft(c', h, b, s, r) => CtxSplit(st, LeftOf(h), c', d, k'');
    case InRight(l, h, b, s, c') => CtxSplit(st, RightOf(h), c', d, k'');
  }

  lemma {:induction false} CtxEnd(st: Store, k: Hook, c: Ctx, k': Hook)
    requires CtxAt(st, k, c, k')
    ensures k' == EndHook(k, c)
    decreases c
  {
    match c
    case Hole =>
    case InLeft(c', h, b, s, r) => CtxEnd(st, LeftOf(h), c', k');
    case InRight(l, h, b, s, c') => CtxEnd(st, RightOf(h), c', k');
  }

  function DownLeft(c: Ctx, x: Tree): Ctx
    requires x.Node?
  {
    Extend(c, InLeft(Hole, x.h, x.block, x.size, x.right))
  }

  function DownRight(c: Ctx, x: Tree): Ctx
    requires x.Node?
  {
    Extend(c, InRight(x.left, x.h, x.block, x.size, Hole))
  }

  /** The hole moves from node `x` into one of its subtrees. */
  lemma StepDown(st: Store, k: Hook, c: Ctx, k': Hook, x: Tree)
    requires CtxAt(st, k, c, k') && ValidHook(st.mem, k') && x.Node? && TreeAt(st.mem, Get(st, k'), x)
    requires CtxDistinct(c) && Distinct(x) && CtxHeaders(c) !! Headers(x)
    ensures CtxAt(st, k, DownLeft(c, x), LeftOf(x.h)) && CtxAt(st, k, DownRight(c, x), RightOf(x.h))
    ensures CtxDistinct(DownLeft(c, x)) && CtxDistinct(DownRight(c, x))
    ensures CtxHeaders(DownLeft(c, x)) == CtxHeaders(c) + {x.h} + Headers(x.right)
    ensures CtxHeaders(DownRight(c, x)) == CtxHeaders(c) + {x.h} + Headers(x.left)
  {
    var dl := InLeft(Hole, x.h, x.block, x.size, x.right);
    var dr := InRight(x.left, x.h, x.block, x.size, Hole);
    assert CtxHeaders(dl) == {x.h} + Headers(x.right) && CtxDistinct(dl);
    assert CtxHeaders(dr) == {x.h} + Headers(x.left) && CtxDistinct(dr);
    CtxExtend(st, k, c, k', dl, LeftOf(x.h));
    CtxExtend(st, k, c, k', dr, RightOf(x.h));
    ExtendFacts(c, dl, Nil);
    ExtendFacts(c, dr, Nil);
  }

  lemma DownPlug(c: Ctx, x: Tree, t: Tree)
    requires x.Node?
    ensures Plug(DownLeft(c, x), t) == Plug(c, Node(t, x.h, x.block, x.size, x.right))
    ensures Plug(DownRight(c, x), t) == Plug(c, Node(x.left, x.h, x.block, x.size, t))
  {
    ExtendFacts(c, InLeft(Hole, x.h, x.block, x.size, x.right), t);
    ExtendFacts(c, InRight(x.left, x.h, x.block, x.size, Hole), t);
  }

  lemma {:induction false} ExtendAssoc(c: Ctx, d: Ctx, e: Ctx)
    ensures Extend(Extend(c, d), e) == Extend(c, Extend(d, e))
  {
    if !c.Hole? { ExtendAssoc(c.inner, d, e); }
  }

  /** Writing header `v` into the open hook leaves every tree apart from the way to the hook
      as it was. */
  lemma Hang(st: Store, k: Hook, c: Ctx, k': Hook, v: int)
    requires CtxAt(st, k, c, k') && CtxDistinct(c) && HookHeader(k) !! CtxHeaders(c)
    ensures ValidHook(st.mem, k') && CtxAt(Put(st, k', v), k, c, k') && Get(Put(st, k', v), k') == v
    ensures SameExcept(st.mem, Put(st, k', v).mem, CtxHeaders(c) + HookHeader(k))
    ensures forall h :: 0 <= h < |st.mem| ==>
      Put(st, k', v).mem[h].block == st.mem[h].block && Put(st, k', v).mem[h].size == st.mem[h].size
  {
    CtxHookIn(st, k, c, k');
    CtxPut(st, k, c, k', v);
  }

  lemma {:induction false} ExtendHole(c: Ctx)
    ensures Extend(c, Hole) == c
  {
    if !c.Hole? { ExtendHole(c.inner); }
  }

  /** Node `x` is hung under the open hook `p` at the end of `e`, and the hole moves on into
      `x`. */
  lemma HangNode(st: Store, st': Store, k: Hook, e: Ctx, p: Hook, x: Tree)
    requires x.Node? && CtxAt(st, k, e, p) && CtxDistinct(e) && HookHeader(k) !! CtxHeaders(e)
    requires ValidHook(st.mem, p) && st' == Put(st, p, x.h)
    requires TreeAt(st.mem, x.h, x) && Distinct(x) && CtxHeaders(e) + HookHeader(k) !! Headers(x)
    ensures TreeAt(st'.mem, x.h, x)
    ensures SameExcept(st.mem, st'.mem, CtxHeaders(e) + HookHeader(k))
    ensures CtxAt(st', k, DownLeft(e, x), LeftOf(x.h)) && CtxAt(st', k, DownRight(e, x), RightOf(x.h))
    ensures CtxDistinct(DownLeft(e, x)) && CtxDistinct(DownRight(e, x))
    ensures CtxHeaders(DownLeft(e, x)) == CtxHeaders(e) + {x.h} + Headers(x.right)
    ensures CtxHeaders(DownRight(e, x)) == CtxHeaders(e) + {x.h} + Headers(x.left)
  {
    Hang(st, k, e, p, x.h);
    TreeFrame(st.mem, st'.mem, CtxHeaders(e) + HookHeader(k), x.h, x);
    StepDown(st', k, e, p, x);
  }

  lemma ListInRange(mem: seq<Hdr>, p: int, s: seq<int>)
    requires ListAt(mem, p, s) && NoDup(s) && p != NIL
    ensures s != [] && s == [p] + s[1..] && p !in s[1..] && NoDup(s[1..])
  {
  }
}
