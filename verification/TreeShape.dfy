/** The free tree without its headers: what giving blocks back makes of it does not depend on which
    headers describe the blocks. */
module TreeShape {
  import opened CartesianTree

  function Bare(t: Tree): Tree {
    match t
    case Nil => Nil
    case Node(l, _, b, s, r) => Node(Bare(l), 0, b, s, Bare(r))
  }

  lemma {:induction false} BareSplit(t: Tree, p: int)
    ensures Bare(Below(t, p)) == Below(Bare(t), p) && Bare(Above(t, p)) == Above(Bare(t), p)
  {
    match t
    case Nil =>
    case Node(l, h, b, s, r) => if b < p { BareSplit(r, p); } else { BareSplit(l, p); }
  }

  lemma {:induction false} BareInsert(t: Tree, h: int, p: int, len: int)
    ensures Bare(Insert(t, h, p, len)) == Insert(Bare(t), 0, p, len)
  {
    match t
    case Nil =>
    case Node(l, h0, b, s, r) =>
      BareSplit(t, p);
      if p < b { BareInsert(l, h, p, len); } else { BareInsert(r, h, p, len); }
  }

  lemma {:induction false} BareMerge(l: Tree, r: Tree)
    ensures Bare(Merge(l, r)) == Merge(Bare(l), Bare(r))
    decreases Count(l) + Count(r)
  {
    if l.Nil? && r.Nil? {
    } else if r.Nil? || (l.Node? && r.size <= l.size) {
      BareMerge(l.right, r);
    } else {
      BareMerge(l, r.left);
    }
  }

  function BareSearch(q: Search): Search {
    if q.DoubleFree? then q else q.(tree := Bare(q.tree))
  }

  lemma {:induction false} BareCoalesce(t: Tree, p: int, n: int)
    ensures BareSearch(Coalesce(t, p, n)) == Coalesce(Bare(t), p, n)
    decreases Count(t)
  {
    if t.Node? {
      var Node(l, h, b, s, r) := t;
      MergeCount(l, r);
      BareMerge(l, r);
      if p < b {
        if p + n == b { BareCoalesce(Merge(l, r), p, n + s); } else { BareCoalesce(l, p, n); }
      } else if p > b {
        if b + s == p { BareCoalesce(Merge(l, r), b, n + s); } else { BareCoalesce(r, p, n); }
      }
    }
  }

  /** The shape of the tree after the block has been given back; a collision changes nothing. */
  function GiveBack(t: Tree, b: Block): Tree {
    var q := Coalesce(t, b.addr, b.size);
    if b.size == 0 || q.DoubleFree? then t else Insert(q.tree, 0, q.addr, q.size)
  }

  function GiveBackAll(t: Tree, bs: seq<Block>): Tree
    decreases |bs|
  {
    if bs == [] then t else GiveBackAll(GiveBack(t, bs[0]), bs[1..])
  }

  lemma StepShape(t: Tree, b: Block, t': Tree)
    requires FreeStep(t, b.addr, b.size, t')
    ensures Bare(t') == GiveBack(Bare(t), b)
  {
    if b.size != 0 {
      var h :| FreeInto(t, b.addr, b.size, h, t');
      var q := Coalesce(t, b.addr, b.size);
      BareCoalesce(t, b.addr, b.size);
      BareInsert(q.tree, h, q.addr, q.size);
    }
  }

  lemma {:induction false} TraceShape(ts: seq<Tree>, bs: seq<Block>)
    requires FreeTrace(ts, bs)
    ensures Bare(ts[|bs|]) == GiveBackAll(Bare(ts[0]), bs)
    decreases |bs|
  {
    if bs != [] {
      assert FreeStep(ts[0], bs[0].addr, bs[0].size, ts[0 + 1]);
      StepShape(ts[0], bs[0], ts[1]);
      forall i | 0 <= i < |bs| - 1 ensures FreeStep(ts[1..][i], bs[1..][i].addr, bs[1..][i].size, ts[1..][i + 1]) {
        assert FreeStep(ts[i + 1], bs[i + 1].addr, bs[i + 1].size, ts[i + 1 + 1]);
      }
      TraceShape(ts[1..], bs[1..]);
    }
  }

  /** The largest request that the tree serves after the blocks have been given back is known
      beforehand. */
  lemma RunShape(t: Tree, bs: seq<Block>, t': Tree)
    requires FreeRun(t, bs, t')
    ensures Bare(t') == GiveBackAll(Bare(t), bs) && AlignedWeight(t') == AlignedWeight(GiveBackAll(Bare(t), bs))
  {
    var ts :| FreeTrace(ts, bs) && ts[0] == t && ts[|bs|] == t';
    TraceShape(ts, bs);
  }
}
