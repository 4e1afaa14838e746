/** The intermediate states of the three loops that rewrite tree links, and the proofs that
    one round, and the end, of each loop keep or close them. */
module HeaderLinks {
  import opened CartesianTree
  import opened HeaderStore

  // ----- joining two subtrees from the top down (`delete`, `demote`) -----

  /** The way from the root through `c` and `d` ends at the open hook `p`; two subtrees `tl`
      and `tr`, reached through `lb` and `rb`, are still to be joined there.  All of it uses
      the headers `all`, the only ones written since memory `m0`. */
  ghost predicate Joining(m0: seq<Hdr>, st: Store, c: Ctx, d: Ctx, p: Hook,
                          lb: int, rb: int, tl: Tree, tr: Tree, all: set<int>)
  {
    && CtxAt(st, Root, Extend(c, d), p) && CtxDistinct(Extend(c, d)) && ValidHook(st.mem, p)
    && TreeAt(st.mem, lb, tl) && TreeAt(st.mem, rb, tr) && Distinct(tl) && Distinct(tr)
    && Headers(tl) !! Headers(tr)
    && CtxHeaders(Extend(c, d)) !! Headers(tl) && CtxHeaders(Extend(c, d)) !! Headers(tr)
    && CtxHeaders(Extend(c, d)) + Headers(tl) + Headers(tr) == all
    && SameExcept(m0, st.mem, all)
  }

  lemma JoinStart(st: Store, c: Ctx, k: Hook, tx: Tree)
    requires CtxAt(st, Root, c, k) && ValidHook(st.mem, k) && TreeAt(st.mem, Get(st, k), tx) && tx.Node?
    requires Distinct(Plug(c, tx))
    ensures Joining(st.mem, st, c, Hole, k, st.mem[tx.h].left, st.mem[tx.h].right, tx.left, tx.right,
                    Headers(Plug(c, tx)) - {tx.h})
    ensures tx.h in Headers(Plug(c, tx))
  {
    PlugHeaders(c, tx);
    ExtendHole(c);
  }

  lemma JoinSets(e: set<int>, x: set<int>, h: int, u: set<int>, v: set<int>, other: set<int>, all: set<int>)
    requires x == u + {h} + v && u !! v && h !in u && h !in v
    requires e !! x && e !! other && x !! other && (e + x + other == all || e + other + x == all)
    ensures var e' := e + {h} + u;
      e' !! v && e' !! other && v !! other && other !! v && e' + v + other == all && e' + other + v == all
  {
  }

  lemma JoinLeft(m0: seq<Hdr>, st: Store, c: Ctx, d: Ctx, p: Hook,
                 lb: int, rb: int, tl: Tree, tr: Tree, all: set<int>, rest: Tree)
    requires Joining(m0, st, c, d, p, lb, rb, tl, tr, all) && tl.Node?
    ensures var st' := Put(st, p, lb);
      && 0 <= lb < |st'.mem|
      && Joining(m0, st', c, DownRight(d, tl), RightOf(lb), st'.mem[lb].right, rb, tl.right, tr, all)
      && ValidHook(st'.mem, RightOf(lb)) && TreeAt(st'.mem, st'.mem[lb].right, tl.right) && TreeAt(st'.mem, rb, tr)
    ensures Plug(DownRight(d, tl), rest) == Plug(d, Node(tl.left, tl.h, tl.block, tl.size, rest))
  {
    var st' := Put(st, p, lb);
    var e := Extend(c, d);
    HangNode(st, st', Root, e, p, tl);
    assert Headers(tl) == Headers(tl.left) + {tl.h} + Headers(tl.right);
    assert Headers(tl.left) !! Headers(tl.right) && tl.h !in Headers(tl.left) && tl.h !in Headers(tl.right);
    assert Distinct(tl.right);
    JoinSets(CtxHeaders(e), Headers(tl), tl.h, Headers(tl.left), Headers(tl.right), Headers(tr), all);
    hide Headers, Distinct, CtxHeaders, CtxDistinct, CtxAt;
    ExtendAssoc(c, d, InRight(tl.left, tl.h, tl.block, tl.size, Hole));
    TreeFrame(st.mem, st'.mem, CtxHeaders(e), rb, tr);
    DownPlug(d, tl, rest);
  }

  lemma JoinRight(m0: seq<Hdr>, st: Store, c: Ctx, d: Ctx, p: Hook,
                  lb: int, rb: int, tl: Tree, tr: Tree, all: set<int>, rest: Tree)
    requires Joining(m0, st, c, d, p, lb, rb, tl, tr, all) && tr.Node?
    ensures var st' := Put(st, p, rb);
      && 0 <= rb < |st'.mem|
      && Joining(m0, st', c, DownLeft(d, tr), LeftOf(rb), lb, st'.mem[rb].left, tl, tr.left, all)
      && ValidHook(st'.mem, LeftOf(rb)) && TreeAt(st'.mem, st'.mem[rb].left, tr.left) && TreeAt(st'.mem, lb, tl)
    ensures Plug(DownLeft(d, tr), rest) == Plug(d, Node(rest, tr.h, tr.block, tr.size, tr.right))
  {
    var st' := Put(st, p, rb);
    var e := Extend(c, d);
    HangNode(st, st', Root, e, p, tr);
    assert Headers(tr) == Headers(tr.right) + {tr.h} + Headers(tr.left);
    assert Headers(tr.right) !! Headers(tr.left) && tr.h !in Headers(tr.right) && tr.h !in Headers(tr.left);
    assert Distinct(tr.left);
    JoinSets(CtxHeaders(e), Headers(tr), tr.h, Headers(tr.right), Headers(tr.left), Headers(tl), all);
    hide Headers, Distinct, CtxHeaders, CtxDistinct, CtxAt;
    ExtendAssoc(c, d, InLeft(Hole, tr.h, tr.block, tr.size, tr.right));
    TreeFrame(st.mem, st'.mem, CtxHeaders(e), lb, tl);
    DownPlug(d, tr, rest);
  }

  lemma JoinMet(m0: seq<Hdr>, st: Store, c: Ctx, d: Ctx, p: Hook,
                lb: int, rb: int, tl: Tree, tr: Tree, all: set<int>)
    requires Joining(m0, st, c, d, p, lb, rb, tl, tr, all) && lb == rb
    ensures tl.Nil? && tr.Nil?
  {
  }

  /** The two branches have met: both are empty, and the open hook is closed. */
  lemma JoinClose(m0: seq<Hdr>, st: Store, c: Ctx, d: Ctx, p: Hook, lb: int, rb: int, all: set<int>, k: Hook)
    requires Joining(m0, st, c, d, p, lb, rb, Nil, Nil, all) && k == EndHook(Root, c)
    ensures var st' := Put(st, p, NIL);
      && CtxAt(st', Root, c, k) && ValidHook(st'.mem, k)
      && TreeAt(st'.mem, Get(st', k), Plug(d, Nil)) && TreeAt(st'.mem, st'.root, Plug(c, Plug(d, Nil)))
      && SameExcept(m0, st'.mem, all)
  {
    var st' := Put(st, p, NIL);
    Hang(st, Root, Extend(c, d), p, NIL);
    CtxSplit(st', Root, c, d, p);
    CtxHookIn(st', Root, c, k);
    CtxFill(st', k, d, p, Nil);
    CtxFill(st', Root, c, k, Plug(d, Nil));
  }

  /** The moved node `x` is attached at the open hook, with what is left of the branches
      below it. */
  lemma JoinAttach(m0: seq<Hdr>, st: Store, c: Ctx, d: Ctx, p: Hook, lb: int, rb: int, tl: Tree, tr: Tree,
                   all: set<int>, x: int)
    requires Joining(m0, st, c, d, p, lb, rb, tl, tr, all) && 0 <= x < |st.mem| && x !in all
    ensures var st' := Put(Put(Put(st, p, x), LeftOf(x), lb), RightOf(x), rb);
      && TreeAt(st'.mem, st'.root, Plug(c, Plug(d, Node(tl, x, m0[x].block, m0[x].size, tr))))
      && SameExcept(m0, st'.mem, all + {x})
  {
    var e := Extend(c, d);
    var st1 := Put(st, p, x);
    var st' := Put(Put(st1, LeftOf(x), lb), RightOf(x), rb);
    Hang(st, Root, e, p, x);
    TreeFrame(st.mem, st'.mem, CtxHeaders(e) + {x}, lb, tl);
    TreeFrame(st.mem, st'.mem, CtxHeaders(e) + {x}, rb, tr);
    CtxFrame(st1, st', {x}, Root, e, p);
    var bottom := Node(tl, x, m0[x].block, m0[x].size, tr);
    CtxHookIn(st1, Root, e, p);
    CtxFill(st', Root, e, p, bottom);
    ExtendFacts(c, d, bottom);
  }

  // ----- splitting a subtree at an address (`insert`) -----

  /** The new node `h` hangs at `k`, below `c`.  The parts of the split subtree that are
      already sorted out form `cl` on its left and `cr` on its right, ending at the open hooks
      `lh` and `rh`; `tw`, reached through `x`, is still to be split. */
  ghost predicate Splitting(m0: seq<Hdr>, st: Store, c: Ctx, k: Hook, h: int, cl: Ctx, lh: Hook, cr: Ctx, rh: Hook,
                            x: int, tw: Tree, below: set<int>)
  {
    && 0 <= h < |st.mem| && CtxAt(st, Root, c, k) && ValidHook(st.mem, k) && Get(st, k) == h
    && CtxAt(st, LeftOf(h), cl, lh) && CtxAt(st, RightOf(h), cr, rh)
    && ValidHook(st.mem, lh) && ValidHook(st.mem, rh)
    && CtxDistinct(cl) && CtxDistinct(cr) && Distinct(tw) && TreeAt(st.mem, x, tw)
    && CtxHeaders(cl) + CtxHeaders(cr) + Headers(tw) == below
    && CtxHeaders(cl) !! CtxHeaders(cr) && CtxHeaders(cl) !! Headers(tw) && CtxHeaders(cr) !! Headers(tw)
    && h !in below && h !in CtxHeaders(c) && CtxHeaders(c) !! below
    && SameExcept(m0, st.mem, CtxHeaders(c) + below + {h})
  }

  lemma SplitStart(st: Store, st': Store, c: Ctx, k: Hook, h: int, x: int, tx: Tree, p: int, len: int)
    requires CtxAt(st, Root, c, k) && ValidHook(st.mem, k) && x == Get(st, k) && TreeAt(st.mem, x, tx)
    requires Distinct(Plug(c, tx)) && h !in Headers(Plug(c, tx)) && 0 <= h < |st.mem|
    requires st' == Store(Put(st, k, h).mem[h := Hdr(NIL, NIL, p, len)], Put(st, k, h).root)
    ensures Splitting(st.mem, st', c, k, h, Hole, LeftOf(h), Hole, RightOf(h), x, tx, Headers(tx))
    ensures TreeAt(st'.mem, x, tx)
  {
    hide CtxAt, TreeAt, Distinct, CtxDistinct, Headers, CtxHeaders, Plug, Get, Put;
    PlugHeaders(c, tx);
    SplitHang(st, st', c, k, h, x, tx, p, len);
    HoleAt(st', LeftOf(h));
    HoleAt(st', RightOf(h));
  }

  lemma HoleAt(st: Store, k: Hook)
    requires ValidHook(st.mem, k)
    ensures CtxAt(st, k, Hole, k) && CtxHeaders(Hole) == {} && CtxDistinct(Hole)
  {
  }

  /** The new header hangs where the tree hung, and the tree is as it was. */
  lemma SplitHang(st: Store, st': Store, c: Ctx, k: Hook, h: int, x: int, tx: Tree, p: int, len: int)
    requires CtxAt(st, Root, c, k) && ValidHook(st.mem, k) && TreeAt(st.mem, x, tx) && CtxDistinct(c)
    requires CtxHeaders(c) !! Headers(tx) && h !in CtxHeaders(c) && h !in Headers(tx) && 0 <= h < |st.mem|
    requires st' == Store(Put(st, k, h).mem[h := Hdr(NIL, NIL, p, len)], Put(st, k, h).root)
    ensures |st'.mem| == |st.mem| && CtxAt(st', Root, c, k) && ValidHook(st'.mem, k) && Get(st', k) == h
    ensures TreeAt(st'.mem, x, tx) && SameExcept(st.mem, st'.mem, CtxHeaders(c) + {h})
  {
    hide CtxAt, TreeAt, CtxDistinct, Headers, CtxHeaders;
    Hang(st, Root, c, k, h);
    CtxHookIn(st, Root, c, k);
    CtxFrame(Put(st, k, h), st', {h}, Root, c, k);
    TreeFrame(st.mem, st'.mem, CtxHeaders(c) + {h}, x, tx);
  }

  /** A write at the open hook at the end of one way disturbs no other way. */
  lemma OtherWay(st: Store, k1: Hook, c1: Ctx, h1: Hook, v: int, k2: Hook, c2: Ctx, h2: Hook)
    requires CtxAt(st, k1, c1, h1) && CtxDistinct(c1) && CtxAt(st, k2, c2, h2)
    requires CtxHeaders(c1) !! CtxHeaders(c2) && HookHeader(k1) !! CtxHeaders(c1) && HookHeader(k1) !! CtxHeaders(c2)
    requires k1 != k2 && HookHeader(k2) !! CtxHeaders(c1)
    ensures ValidHook(st.mem, h1) && CtxAt(Put(st, h1, v), k2, c2, h2) && ValidHook(st.mem, k2)
    ensures Get(Put(st, h1, v), k2) == Get(st, k2)
  {
    hide CtxAt, CtxDistinct, CtxHeaders;
    CtxHookIn(st, k1, c1, h1);
    Hang(st, k1, c1, h1, v);
    CtxHookIn(st, k2, c2, h2);
    CtxStart(st, k2, c2, h2);
    assert h1 != k2;
    CtxFrame(st, Put(st, h1, v), CtxHeaders(c1) + HookHeader(k1), k2, c2, h2);
  }

  lemma CtxStart(st: Store, k: Hook, c: Ctx, k': Hook)
    requires CtxAt(st, k, c, k')
    ensures ValidHook(st.mem, k)
  {
  }

  /** The new node's own way: one side grows, the other side and the way to the node stay. */
  lemma SplitWrite(st: Store, c: Ctx, k: Hook, h: int, k1: Hook, c1: Ctx, h1: Hook, k2: Hook, c2: Ctx, h2: Hook, v: int)
    requires 0 <= h < |st.mem| && CtxAt(st, Root, c, k) && ValidHook(st.mem, k) && Get(st, k) == h
    requires (k1 == LeftOf(h) && k2 == RightOf(h)) || (k1 == RightOf(h) && k2 == LeftOf(h))
    requires CtxAt(st, k1, c1, h1) && CtxAt(st, k2, c2, h2)
    requires CtxDistinct(c1) && h !in CtxHeaders(c1) && h !in CtxHeaders(c2) && CtxHeaders(c1) !! CtxHeaders(c2)
    requires h !in CtxHeaders(c) && CtxHeaders(c) !! CtxHeaders(c1)
    ensures ValidHook(st.mem, h1) && ValidHook(st.mem, h2)
    ensures var st' := Put(st, h1, v);
      && st'.mem[h].block == st.mem[h].block && st'.mem[h].size == st.mem[h].size
      && CtxAt(st', Root, c, k) && Get(st', k) == h && CtxAt(st', k2, c2, h2)
      && SameExcept(st.mem, st'.mem, CtxHeaders(c1) + {h})
      && Get(st', h2) == Get(st, h2)
  {
    hide CtxAt, CtxDistinct, CtxHeaders;
    OtherWay(st, k1, c1, h1, v, Root, c, k);
    OtherWay(st, k1, c1, h1, v, k2, c2, h2);
    Hang(st, k1, c1, h1, v);
    CtxHookIn(st, k1, c1, h1);
    CtxHookIn(st, k2, c2, h2);
    CtxHookIn(st, Root, c, k);
  }

  lemma NodeFacts(mem: seq<Hdr>, x: int, t: Tree)
    requires TreeAt(mem, x, t) && Distinct(t) && t.Node?
    ensures x == t.h && 0 <= x < |mem| && mem[x].block == t.block && mem[x].size == t.size
    ensures TreeAt(mem, mem[x].left, t.left) && TreeAt(mem, mem[x].right, t.right)
    ensures Headers(t) == Headers(t.left) + {x} + Headers(t.right)
    ensures Distinct(t.left) && Distinct(t.right) && Headers(t.left) !! Headers(t.right)
    ensures x !in Headers(t.left) && x !in Headers(t.right)
  {
  }

  /** Writing the open hook on the left of the new node ... */
  lemma WriteLeft(m0: seq<Hdr>, st: Store, c: Ctx, k: Hook, h: int, cl: Ctx, lh: Hook, cr: Ctx, rh: Hook,
                   x: int, tw: Tree, below: set<int>)
    requires Splitting(m0, st, c, k, h, cl, lh, cr, rh, x, tw, below)
    ensures ValidHook(st.mem, lh) && ValidHook(st.mem, rh)
    ensures forall v :: var st' := Put(st, lh, v);
      && st'.mem[h].block == st.mem[h].block && st'.mem[h].size == st.mem[h].size
      && CtxAt(st', Root, c, k) && Get(st', k) == h && CtxAt(st', RightOf(h), cr, rh)
      && SameExcept(st.mem, st'.mem, CtxHeaders(cl) + {h})
  {
    hide CtxAt, CtxDistinct, CtxHeaders, TreeAt, Distinct, Headers;
    forall v ensures var st' := Put(st, lh, v);
      && st'.mem[h].block == st.mem[h].block && st'.mem[h].size == st.mem[h].size
      && CtxAt(st', Root, c, k) && Get(st', k) == h && CtxAt(st', RightOf(h), cr, rh)
      && SameExcept(st.mem, st'.mem, CtxHeaders(cl) + {h})
    {
      SplitWrite(st, c, k, h, LeftOf(h), cl, lh, RightOf(h), cr, rh, v);
    }
  }

  /** ... or on its right. */
  lemma WriteRight(m0: seq<Hdr>, st: Store, c: Ctx, k: Hook, h: int, cl: Ctx, lh: Hook, cr: Ctx, rh: Hook,
                   x: int, tw: Tree, below: set<int>)
    requires Splitting(m0, st, c, k, h, cl, lh, cr, rh, x, tw, below)
    ensures ValidHook(st.mem, lh) && ValidHook(st.mem, rh)
    ensures forall v :: var st' := Put(st, rh, v);
      && st'.mem[h].block == st.mem[h].block && st'.mem[h].size == st.mem[h].size
      && CtxAt(st', Root, c, k) && Get(st', k) == h && CtxAt(st', LeftOf(h), cl, lh)
      && SameExcept(st.mem, st'.mem, CtxHeaders(cr) + {h})
  {
    hide CtxAt, CtxDistinct, CtxHeaders, TreeAt, Distinct, Headers;
    forall v ensures var st' := Put(st, rh, v);
      && st'.mem[h].block == st.mem[h].block && st'.mem[h].size == st.mem[h].size
      && CtxAt(st', Root, c, k) && Get(st', k) == h && CtxAt(st', LeftOf(h), cl, lh)
      && SameExcept(st.mem, st'.mem, CtxHeaders(cr) + {h})
    {
      SplitWrite(st, c, k, h, RightOf(h), cr, rh, LeftOf(h), cl, lh, v);
    }
  }

  lemma SplitBelow(m0: seq<Hdr>, st: Store, c: Ctx, k: Hook, h: int, cl: Ctx, lh: Hook, cr: Ctx, rh: Hook,
                   x: int, tw: Tree, below: set<int>)
    requires Splitting(m0, st, c, k, h, cl, lh, cr, rh, x, tw, below) && tw.Node?
    ensures var st' := Put(st, lh, x);
      && 0 <= x < |st'.mem| && st'.mem[h].block == st.mem[h].block && st'.mem[h].size == st.mem[h].size
      && ValidHook(st'.mem, RightOf(x)) && ValidHook(st'.mem, rh) && TreeAt(st'.mem, st'.mem[x].right, tw.right)
      && Splitting(m0, st', c, k, h, DownRight(cl, tw), RightOf(x), cr, rh, st'.mem[x].right, tw.right, below)
  {
    hide CtxAt, CtxDistinct, CtxHeaders, Extend, DownLeft, DownRight, TreeAt, Distinct, Headers;
    NodeFacts(st.mem, x, tw);
    WriteLeft(m0, st, c, k, h, cl, lh, cr, rh, x, tw, below);
    HangNode(st, Put(st, lh, x), LeftOf(h), cl, lh, tw);
    NodeFacts(Put(st, lh, x).mem, x, tw);
  }

  lemma SplitAbove(m0: seq<Hdr>, st: Store, c: Ctx, k: Hook, h: int, cl: Ctx, lh: Hook, cr: Ctx, rh: Hook,
                   x: int, tw: Tree, below: set<int>)
    requires Splitting(m0, st, c, k, h, cl, lh, cr, rh, x, tw, below) && tw.Node?
    ensures var st' := Put(st, rh, x);
      && 0 <= x < |st'.mem| && st'.mem[h].block == st.mem[h].block && st'.mem[h].size == st.mem[h].size
      && ValidHook(st'.mem, lh) && ValidHook(st'.mem, LeftOf(x)) && TreeAt(st'.mem, st'.mem[x].left, tw.left)
      && Splitting(m0, st', c, k, h, cl, lh, DownLeft(cr, tw), LeftOf(x), st'.mem[x].left, tw.left, below)
  {
    hide CtxAt, CtxDistinct, CtxHeaders, Extend, DownLeft, DownRight, TreeAt, Distinct, Headers;
    NodeFacts(st.mem, x, tw);
    WriteRight(m0, st, c, k, h, cl, lh, cr, rh, x, tw, below);
    HangNode(st, Put(st, rh, x), RightOf(h), cr, rh, tw);
    NodeFacts(Put(st, rh, x).mem, x, tw);
  }

  /** The last hook, on the left, is closed. */
  lemma CloseLeft(st: Store, c: Ctx, k: Hook, h: int, cl: Ctx, lh: Hook, cr: Ctx, rh: Hook)
    requires 0 <= h < |st.mem| && CtxAt(st, Root, c, k) && ValidHook(st.mem, k) && Get(st, k) == h
    requires CtxAt(st, LeftOf(h), cl, lh) && CtxAt(st, RightOf(h), cr, rh) && ValidHook(st.mem, rh)
    requires Get(st, rh) == NIL
    requires CtxDistinct(cl) && h !in CtxHeaders(cl) && h !in CtxHeaders(cr) && CtxHeaders(cl) !! CtxHeaders(cr)
    requires h !in CtxHeaders(c) && CtxHeaders(c) !! CtxHeaders(cl)
    ensures ValidHook(st.mem, lh)
    ensures var st' := Put(st, lh, NIL);
      && TreeAt(st'.mem, st'.root, Plug(c, Node(Plug(cl, Nil), h, st.mem[h].block, st.mem[h].size, Plug(cr, Nil))))
      && SameExcept(st.mem, st'.mem, CtxHeaders(cl) + {h})
  {
    hide CtxAt, CtxDistinct, CtxHeaders, Plug;
    SplitWrite(st, c, k, h, LeftOf(h), cl, lh, RightOf(h), cr, rh, NIL);
    var st' := Put(st, lh, NIL);
    Hang(st, LeftOf(h), cl, lh, NIL);
    CtxFill(st', LeftOf(h), cl, lh, Nil);
    CtxFill(st', RightOf(h), cr, rh, Nil);
    CtxFill(st', Root, c, k, Node(Plug(cl, Nil), h, st.mem[h].block, st.mem[h].size, Plug(cr, Nil)));
  }

  lemma SplitClose(m0: seq<Hdr>, st: Store, c: Ctx, k: Hook, h: int, cl: Ctx, lh: Hook, cr: Ctx, rh: Hook,
                   x: int, below: set<int>)
    requires Splitting(m0, st, c, k, h, cl, lh, cr, rh, x, Nil, below)
    ensures ValidHook(st.mem, rh) && ValidHook(st.mem, lh)
    ensures var st' := Put(Put(st, rh, NIL), lh, NIL);
      && TreeAt(st'.mem, st'.root, Plug(c, Node(Plug(cl, Nil), h, st.mem[h].block, st.mem[h].size, Plug(cr, Nil))))
      && SameExcept(m0, st'.mem, CtxHeaders(c) + below + {h})
  {
    hide CtxAt, CtxDistinct, CtxHeaders, Plug, TreeAt;
    WriteRight(m0, st, c, k, h, cl, lh, cr, rh, x, Nil, below);
    Hang(st, RightOf(h), cr, rh, NIL);
    CloseLeft(Put(st, rh, NIL), c, k, h, cl, lh, cr, rh);
  }

  // ----- headers of the results -----

  lemma SplitTreeHeaders(c: Ctx, tx: Tree, h: int, p: int, len: int)
    requires Distinct(Plug(c, tx)) && h !in Headers(Plug(c, tx))
    ensures var t' := Plug(c, Node(Below(tx, p), h, p, len, Above(tx, p)));
      Distinct(t') && Headers(t') == Headers(Plug(c, tx)) + {h} && Count(t') == Count(Plug(c, tx)) + 1
    ensures Headers(tx) + CtxHeaders(c) == Headers(Plug(c, tx))
  {
    PlugHeaders(c, tx);
    SplitNode(tx, h, p, len);
    var n := Node(Below(tx, p), h, p, len, Above(tx, p));
    PlugHeaders(c, n);
    hide *;
    assert CtxHeaders(c) + Headers(n) == CtxHeaders(c) + Headers(tx) + {h};
  }

  lemma SplitNode(tx: Tree, h: int, p: int, len: int)
    requires Distinct(tx) && h !in Headers(tx)
    ensures var n := Node(Below(tx, p), h, p, len, Above(tx, p));
      Distinct(n) && Headers(n) == Headers(tx) + {h} && Count(n) == Count(tx) + 1
  {
    SplitHeaders(tx, p);
    hide Below, Above;
  }

  lemma DemoteTreeHeaders(c: Ctx, tx: Tree)
    requires tx.Node? && 0 <= tx.size && Distinct(Plug(c, tx))
    ensures var t' := Plug(c, Demote(tx.left, tx.h, tx.block, tx.size, tx.right));
      Distinct(t') && Headers(t') == Headers(Plug(c, tx)) && Count(t') == Count(Plug(c, tx))
  {
    PlugHeaders(c, tx);
    DemoteHeaders(tx.left, tx.h, tx.block, tx.size, tx.right);
    PlugHeaders(c, Demote(tx.left, tx.h, tx.block, tx.size, tx.right));
  }

  lemma MergeTreeHeaders(c: Ctx, tx: Tree)
    requires tx.Node? && Distinct(Plug(c, tx))
    ensures var t' := Plug(c, Merge(tx.left, tx.right));
      Distinct(t') && Headers(t') == Headers(Plug(c, tx)) - {tx.h} && tx.h in Headers(Plug(c, tx))
      && Count(t') + 1 == Count(Plug(c, tx))
    ensures CtxHeaders(c) + Headers(Merge(tx.left, tx.right)) == Headers(Plug(c, tx)) - {tx.h}
  {
    hide Merge;
    PlugHeaders(c, tx);
    MergeHeaders(tx.left, tx.right);
    MergeCount(tx.left, tx.right);
    PlugHeaders(c, Merge(tx.left, tx.right));
  }

  lemma CtxNil(c: Ctx, tx: Tree)
    ensures Plug(c, tx).Nil? ==> c.Hole? && tx.Nil?
  {
  }

  /** In an empty tree the only hook is the root. */
  lemma CtxHoleAt(st: Store, st': Store, c: Ctx, k: Hook)
    requires CtxAt(st, Root, c, k) && c.Hole? && st'.root == st.root
    ensures k == Root && CtxAt(st', Root, c, k) && Get(st', k) == Get(st, k)
  {
  }

  // ----- the search of `kmem_free`, and of `kmem_alloc`, seen from the root -----

  function WrapSearch(c: Ctx, q: Search): Search {
    if q.DoubleFree? then q else Vacant(Plug(c, q.tree), q.addr, q.size)
  }

  function WrapGrant(c: Ctx, g: Grant): Grant {
    g.(tree := Plug(c, g.tree))
  }

  lemma SearchDescends(c: Ctx, tx: Tree, p: int, n: int)
    requires tx.Node?
    ensures p < tx.block && p + n < tx.block ==>
      WrapSearch(c, Coalesce(tx, p, n)) == WrapSearch(DownLeft(c, tx), Coalesce(tx.left, p, n))
    ensures p > tx.block && tx.block + tx.size < p ==>
      WrapSearch(c, Coalesce(tx, p, n)) == WrapSearch(DownRight(c, tx), Coalesce(tx.right, p, n))
    ensures Plug(c, tx) == Plug(DownLeft(c, tx), tx.left) == Plug(DownRight(c, tx), tx.right)
  {
    var l, r := Coalesce(tx.left, p, n), Coalesce(tx.right, p, n);
    DownPlug(c, tx, if l.Vacant? then l.tree else Nil);
    DownPlug(c, tx, if r.Vacant? then r.tree else Nil);
    DownPlug(c, tx, tx.left);
    DownPlug(c, tx, tx.right);
  }

  lemma TakeDescends(c: Ctx, tx: Tree, n: int)
    requires tx.Node? && 0 < n <= AlignedWeight(tx)
    requires AlignedWeight(tx.left) >= n || AlignedWeight(tx.right) >= n
    ensures GoLeft(tx.left, tx.right, n) ==>
      forall h :: WrapGrant(c, Take(tx, n, h)) == WrapGrant(DownLeft(c, tx), Take(tx.left, n, h))
    ensures !GoLeft(tx.left, tx.right, n) ==>
      forall h :: WrapGrant(c, Take(tx, n, h)) == WrapGrant(DownRight(c, tx), Take(tx.right, n, h))
    ensures Plug(c, tx) == Plug(DownLeft(c, tx), tx.left) == Plug(DownRight(c, tx), tx.right)
  {
    if GoLeft(tx.left, tx.right, n) {
      forall h ensures WrapGrant(c, Take(tx, n, h)) == WrapGrant(DownLeft(c, tx), Take(tx.left, n, h)) {
        DownPlug(c, tx, Take(tx.left, n, h).tree);
      }
    } else {
      forall h ensures WrapGrant(c, Take(tx, n, h)) == WrapGrant(DownRight(c, tx), Take(tx.right, n, h)) {
        DownPlug(c, tx, Take(tx.right, n, h).tree);
      }
    }
    DownPlug(c, tx, tx.left);
    DownPlug(c, tx, tx.right);
  }

  lemma ReplaceHeaders(c: Ctx, tx: Tree, x: int, b: int, s: int)
    requires tx.Node? && Distinct(Plug(c, tx)) && x !in Headers(Plug(c, tx))
    ensures var t' := Plug(c, Node(tx.left, x, b, s, tx.right));
      && Distinct(t') && Headers(t') == Headers(Plug(c, tx)) - {tx.h} + {x} && tx.h in Headers(Plug(c, tx))
      && Count(t') == Count(Plug(c, tx))
    ensures CtxDistinct(c) && x !in CtxHeaders(c) && Headers(Plug(c, tx)) == CtxHeaders(c) + Headers(tx)
    ensures CtxHeaders(c) !! Headers(tx)
  {
    PlugHeaders(c, tx);
    PlugHeaders(c, Node(tx.left, x, b, s, tx.right));
  }

  /** Header `x` replaces the node `tx` under hook `k`, with a smaller block. */
  lemma Replace(st: Store, c: Ctx, k: Hook, tx: Tree, x: int, b: int, s: int)
    requires CtxAt(st, Root, c, k) && ValidHook(st.mem, k) && TreeAt(st.mem, Get(st, k), tx) && tx.Node?
    requires Distinct(Plug(c, tx)) && x !in Headers(Plug(c, tx)) && 0 <= x < |st.mem|
    ensures 0 <= tx.h < |st.mem|
    ensures
      var st1 := Store(st.mem[x := Hdr(st.mem[tx.h].left, st.mem[tx.h].right, b, s)], st.root);
      var tx' := Node(tx.left, x, b, s, tx.right);
      && ValidHook(st1.mem, k)
      && var st' := Put(st1, k, x);
      && CtxAt(st', Root, c, k) && ValidHook(st'.mem, k) && Get(st', k) == x && TreeAt(st'.mem, x, tx')
      && TreeAt(st'.mem, st'.root, Plug(c, tx'))
      && SameExcept(st.mem, st'.mem, Headers(Plug(c, tx)) - {tx.h} + {x})
  {
    hide CtxAt, CtxHeaders, CtxDistinct, Plug, Distinct;
    ReplaceHeaders(c, tx, x, b, s);
    var st1 := Store(st.mem[x := Hdr(st.mem[tx.h].left, st.mem[tx.h].right, b, s)], st.root);
    var tx' := Node(tx.left, x, b, s, tx.right);
    CtxFrame(st, st1, {x}, Root, c, k);
    CtxHookIn(st1, Root, c, k);
    Hang(st1, Root, c, k, x);
    var st' := Put(st1, k, x);
    TreeFrame(st.mem, st'.mem, CtxHeaders(c) + {x}, st.mem[tx.h].left, tx.left);
    TreeFrame(st.mem, st'.mem, CtxHeaders(c) + {x}, st.mem[tx.h].right, tx.right);
    CtxFill(st', Root, c, k, tx');
  }
}
