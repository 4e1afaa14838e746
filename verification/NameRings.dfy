/** Doubly linked rings: `insque` and `remque`. */
module NameRings {
  import opened NameCache

  /** The links of a set of nodes. */
  datatype Links = Links(next: seq<nat>, prev: seq<nat>)

  function Succ(i: nat, n: nat): nat
    requires i < n
  {
    if i + 1 == n then 0 else i + 1
  }

  /** The nodes `cyc` are linked to a ring in this order. */
  ghost predicate Ring(l: Links, cyc: seq<nat>) {
    && cyc != [] && |l.next| == |l.prev| && Distinct(cyc) && (forall i :: 0 <= i < |cyc| ==> cyc[i] < |l.next|)
    && forall i :: 0 <= i < |cyc| ==> Linked(l, cyc, i)
  }

  ghost predicate Linked(l: Links, cyc: seq<nat>, i: nat)
    requires i < |cyc| && |l.next| == |l.prev| && forall i :: 0 <= i < |cyc| ==> cyc[i] < |l.next|
  {
    l.next[cyc[i]] == cyc[Succ(i, |cyc|)] && l.prev[cyc[Succ(i, |cyc|)]] == cyc[i]
  }

  /** Puts `x` behind `p`. */
  function Insque(l: Links, x: nat, p: nat): (r: Links)
    requires |l.next| == |l.prev| && x < |l.next| && p < |l.next| && l.next[p] < |l.next|
    ensures |r.next| == |l.next| == |r.prev|
  {
    var q := l.next[p];
    Links(l.next[p := x][x := q], l.prev[q := x][x := p])
  }

  /** Takes `x` out. */
  function Remque(l: Links, x: nat): (r: Links)
    requires |l.next| == |l.prev| && x < |l.next| && l.next[x] < |l.next| && l.prev[x] < |l.next|
    ensures |r.next| == |l.next| == |r.prev|
  {
    Links(l.next[l.prev[x] := l.next[x]], l.prev[l.next[x] := l.prev[x]])
  }

  /** `x` alone. */
  function Alone(l: Links, x: nat): (r: Links)
    requires |l.next| == |l.prev| && x < |l.next|
    ensures |r.next| == |l.next| == |r.prev|
  {
    Links(l.next[x := x], l.prev[x := x])
  }

  predicate SameAt(l: Links, l': Links, y: nat)
    requires |l.next| == |l.prev| == |l'.next| == |l'.prev| && y < |l.next|
  {
    l'.next[y] == l.next[y] && l'.prev[y] == l.prev[y]
  }

  lemma RingFrame(l: Links, l': Links, cyc: seq<nat>)
    requires Ring(l, cyc) && |l'.next| == |l'.prev| == |l.next| && forall i :: 0 <= i < |cyc| ==> SameAt(l, l', cyc[i])
    ensures Ring(l', cyc)
  {
    forall i | 0 <= i < |cyc| ensures Linked(l', cyc, i) {
      assert Linked(l, cyc, i);
      assert SameAt(l, l', cyc[i]) && SameAt(l, l', cyc[Succ(i, |cyc|)]);
    }
  }

  lemma RingNext(l: Links, cyc: seq<nat>, k: nat)
    requires Ring(l, cyc) && k < |cyc|
    ensures cyc[k] < |l.next| && l.next[cyc[k]] == cyc[Succ(k, |cyc|)] < |l.next|
    ensures l.prev[cyc[k]] == cyc[if k == 0 then |cyc| - 1 else k - 1] < |l.next|
  {
    assert Linked(l, cyc, k);
    assert Linked(l, cyc, if k == 0 then |cyc| - 1 else k - 1);
  }

  function Inserted(cyc: seq<nat>, k: nat, x: nat): seq<nat>
    requires k < |cyc|
  {
    cyc[..k + 1] + [x] + cyc[k + 1..]
  }

  lemma InsqueRing(l: Links, cyc: seq<nat>, k: nat, x: nat)
    requires Ring(l, cyc) && k < |cyc| && x < |l.next| && x !in cyc
    ensures cyc[k] < |l.next| && l.next[cyc[k]] < |l.next|
    ensures var l' := Insque(l, x, cyc[k]);
      Ring(l', Inserted(cyc, k, x)) && forall y :: 0 <= y < |l.next| && y !in cyc && y != x ==> SameAt(l, l', y)
  {
    RingNext(l, cyc, k);
    var l', cyc' := Insque(l, x, cyc[k]), Inserted(cyc, k, x);
    assert Distinct(cyc') by { InsertedDistinct(cyc, k, x); }
    forall i | 0 <= i < |cyc'| ensures cyc'[i] < |l'.next| {}
    forall i | 0 <= i < |cyc'| ensures Linked(l', cyc', i) {
      if i < k {
        assert Linked(l, cyc, i);
      } else if i > k + 1 {
        assert Linked(l, cyc, i - 1);
      }
    }
  }

  lemma InsertedDistinct(cyc: seq<nat>, k: nat, x: nat)
    requires Distinct(cyc) && k < |cyc| && x !in cyc
    ensures Distinct(Inserted(cyc, k, x))
  {
  }

  function Removed(cyc: seq<nat>, k: nat): seq<nat>
    requires k < |cyc|
  {
    cyc[..k] + cyc[k + 1..]
  }

  lemma RemqueRing(l: Links, cyc: seq<nat>, k: nat)
    requires Ring(l, cyc) && k < |cyc| && |cyc| > 1
    ensures cyc[k] < |l.next| && l.next[cyc[k]] < |l.next| && l.prev[cyc[k]] < |l.next|
    ensures var l' := Remque(l, cyc[k]);
      Ring(l', Removed(cyc, k)) && forall y :: 0 <= y < |l.next| && y !in cyc ==> SameAt(l, l', y)
  {
    RingNext(l, cyc, k);
    var n := |cyc|;
    var l', cyc' := Remque(l, cyc[k]), Removed(cyc, k);
    assert Distinct(cyc');
    forall i | 0 <= i < n - 1 ensures cyc'[i] < |l'.next| {}
    forall i | 0 <= i < n - 1 ensures Linked(l', cyc', i) {
      var j := if i < k then i else i + 1;
      assert cyc'[i] == cyc[j];
      assert Linked(l, cyc, j);
    }
  }
}
