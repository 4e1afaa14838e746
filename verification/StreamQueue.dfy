/** The messages of a stream queue: in order of their class, and within a class first come, first
    served. */
module StreamQueue {

  /** A message: its type, and the class of each of its data blocks. */
  datatype Msg = Msg(typ: bv8, blocks: seq<nat>)

  const NCLASS := 9

  const M_DATA: bv8 := 0

  /** Normal messages come last. */
  const QNORM := 0

  predicate ValidMsg(m: Msg) {
    m.blocks != [] && forall i :: 0 <= i < |m.blocks| ==> m.blocks[i] < NCLASS
  }

  predicate ValidMsgs(ms: seq<Msg>) {
    forall i :: 0 <= i < |ms| ==> ValidMsg(ms[i])
  }

  /** The class of a message: the two bits for expedited and for priority control. */
  function QueClass(m: Msg): int {
    (m.typ & 0xC0) as int
  }

  /** The size that a block of a class counts for. */
  function Bsize(class_: nat): nat
    requires class_ < NCLASS
  {
    [4, 16, 64, 100, 200, 300, 600, 1200, 2400][class_]
  }

  function BlocksWeight(bs: seq<nat>): nat
    requires forall i :: 0 <= i < |bs| ==> bs[i] < NCLASS
  {
    if bs == [] then 0 else Bsize(bs[0]) + BlocksWeight(bs[1..])
  }

  function Weight(m: Msg): nat
    requires ValidMsg(m)
  {
    BlocksWeight(m.blocks)
  }

  function Total(ms: seq<Msg>): nat
    requires ValidMsgs(ms)
  {
    if ms == [] then 0 else Weight(ms[0]) + Total(ms[1..])
  }

  predicate InOrder(ms: seq<Msg>) {
    forall i, j :: 0 <= i < j < |ms| ==> QueClass(ms[i]) >= QueClass(ms[j])
  }

  /** Behind all messages of its class or a higher one. */
  function PutLast(ms: seq<Msg>, m: Msg): seq<Msg> {
    if ms == [] || QueClass(ms[0]) < QueClass(m) then [m] + ms else [ms[0]] + PutLast(ms[1..], m)
  }

  /** Behind all messages of a higher class only. */
  function PutFirst(ms: seq<Msg>, m: Msg): seq<Msg> {
    if ms == [] || QueClass(ms[0]) <= QueClass(m) then [m] + ms else [ms[0]] + PutFirst(ms[1..], m)
  }

  /** The messages of class `c`, in the order in which they will be taken. */
  function OfClass(ms: seq<Msg>, c: int): seq<Msg> {
    if ms == [] then [] else (if QueClass(ms[0]) == c then [ms[0]] else []) + OfClass(ms[1..], c)
  }

  /** Where a message is put. */
  lemma {:induction false} PutLastPlace(ms: seq<Msg>, m: Msg) returns (k: nat)
    ensures k <= |ms| && PutLast(ms, m) == ms[..k] + [m] + ms[k..]
    ensures (forall i :: 0 <= i < k ==> QueClass(ms[i]) >= QueClass(m)) && (k < |ms| ==> QueClass(ms[k]) < QueClass(m))
  {
    hide QueClass;
    if ms == [] || QueClass(ms[0]) < QueClass(m) {
      k := 0;
    } else {
      var j := PutLastPlace(ms[1..], m);
      k := j + 1;
      assert ms[..k] == [ms[0]] + ms[1..][..j] && ms[k..] == ms[1..][j..];
    }
  }

  lemma {:induction false} PutFirstPlace(ms: seq<Msg>, m: Msg) returns (k: nat)
    ensures k <= |ms| && PutFirst(ms, m) == ms[..k] + [m] + ms[k..]
    ensures (forall i :: 0 <= i < k ==> QueClass(ms[i]) > QueClass(m)) && (k < |ms| ==> QueClass(ms[k]) <= QueClass(m))
  {
    hide QueClass;
    if ms == [] || QueClass(ms[0]) <= QueClass(m) {
      k := 0;
    } else {
      var j := PutFirstPlace(ms[1..], m);
      k := j + 1;
      assert ms[..k] == [ms[0]] + ms[1..][..j] && ms[k..] == ms[1..][j..];
    }
  }

  lemma Assoc(u: seq<Msg>, v: seq<Msg>, w: seq<Msg>)
    ensures (u + v) + w == u + (v + w)
  {
  }

  lemma {:induction false} OfClassConcat(u: seq<Msg>, v: seq<Msg>, c: int)
    ensures OfClass(u + v, c) == OfClass(u, c) + OfClass(v, c)
  {
    if u == [] {
      assert u + v == v;
    } else {
      var head := if QueClass(u[0]) == c then [u[0]] else [];
      assert (u + v)[1..] == u[1..] + v;
      assert OfClass(u + v, c) == head + OfClass(u[1..] + v, c);
      assert OfClass(u, c) == head + OfClass(u[1..], c);
      hide *;
      OfClassConcat(u[1..], v, c);
      Assoc(head, OfClass(u[1..], c), OfClass(v, c));
    }
  }

  lemma {:induction false} NoneOfClass(ms: seq<Msg>, c: int)
    requires forall i :: 0 <= i < |ms| ==> QueClass(ms[i]) != c
    ensures OfClass(ms, c) == []
  {
    if ms != [] { NoneOfClass(ms[1..], c); }
  }

  /** A message between others, of class `c` or not. */
  lemma OfClassMiddle(u: seq<Msg>, m: Msg, v: seq<Msg>, c: int)
    ensures OfClass(u + v, c) == OfClass(u, c) + OfClass(v, c)
    ensures OfClass(u + [m] + v, c) == OfClass(u, c) + (if QueClass(m) == c then [m] else []) + OfClass(v, c)
  {
    assert OfClass([m], c) == if QueClass(m) == c then [m] else [];
    hide *;
    OfClassConcat(u, v, c);
    OfClassConcat(u + [m], v, c);
    OfClassConcat(u, [m], c);
  }

  lemma OrderMiddle(u: seq<Msg>, m: Msg, v: seq<Msg>)
    requires InOrder(u + v) && (forall i :: 0 <= i < |u| ==> QueClass(u[i]) >= QueClass(m))
    requires v != [] ==> QueClass(v[0]) <= QueClass(m)
    ensures InOrder(u + [m] + v) && multiset(u + [m] + v) == multiset(u + v) + multiset{m}
    ensures forall i :: 0 <= i < |v| ==> QueClass(v[i]) <= QueClass(v[0])
  {
    hide QueClass;
    var w := u + v;
    forall i | 0 <= i < |v| ensures v[i] == w[|u| + i] && QueClass(v[i]) <= QueClass(v[0]) { assert v[0] == w[|u|]; }
    forall i, j | 0 <= i < j < |u| + 1 + |v| ensures QueClass((u + [m] + v)[i]) >= QueClass((u + [m] + v)[j]) {
      assert i < |u| ==> u[i] == w[i];
      assert j < |u| ==> u[j] == w[j];
    }
  }

  /** Putting a message on keeps the order of classes, and within its class it comes last. */
  lemma PutLastCorrect(ms: seq<Msg>, m: Msg, c: int)
    requires InOrder(ms)
    ensures InOrder(PutLast(ms, m)) && multiset(PutLast(ms, m)) == multiset(ms) + multiset{m}
    ensures OfClass(PutLast(ms, m), c) == OfClass(ms, c) + if QueClass(m) == c then [m] else []
  {
    hide QueClass, InOrder, OfClass;
    var k := PutLastPlace(ms, m);
    var u, v := ms[..k], ms[k..];
    assert u + v == ms;
    OrderMiddle(u, m, v);
    OfClassMiddle(u, m, v, c);
    if QueClass(m) == c { NoneOfClass(v, c); }
  }

  /** Putting a message back keeps the order of classes, and within its class it comes first. */
  lemma PutFirstCorrect(ms: seq<Msg>, m: Msg, c: int)
    requires InOrder(ms)
    ensures InOrder(PutFirst(ms, m)) && multiset(PutFirst(ms, m)) == multiset(ms) + multiset{m}
    ensures OfClass(PutFirst(ms, m), c) == (if QueClass(m) == c then [m] else []) + OfClass(ms, c)
  {
    hide QueClass, InOrder, OfClass;
    var k := PutFirstPlace(ms, m);
    var u, v := ms[..k], ms[k..];
    assert u + v == ms;
    OrderMiddle(u, m, v);
    OfClassMiddle(u, m, v, c);
    if QueClass(m) == c { NoneOfClass(u, c); }
  }

  /** Taking a message and putting it back changes nothing. */
  lemma GetPutBack(ms: seq<Msg>)
    requires InOrder(ms) && ms != []
    ensures PutFirst(ms[1..], ms[0]) == ms
  {
    hide QueClass;
    assert ms == [ms[0]] + ms[1..];
  }

  lemma {:induction false} TotalMiddle(u: seq<Msg>, m: Msg, v: seq<Msg>)
    requires ValidMsgs(u) && ValidMsg(m) && ValidMsgs(v)
    ensures ValidMsgs(u + v) && ValidMsgs(u + [m] + v) && Total(u + [m] + v) == Total(u + v) + Weight(m)
  {
    hide Weight, ValidMsg;
    if u == [] {
      assert u + [m] + v == [m] + v && u + v == v;
      assert ([m] + v)[1..] == v;
    } else {
      TotalMiddle(u[1..], m, v);
      assert (u + [m] + v)[1..] == u[1..] + [m] + v && (u + v)[1..] == u[1..] + v;
    }
  }

  lemma PutTotal(ms: seq<Msg>, m: Msg)
    requires ValidMsgs(ms) && ValidMsg(m)
    ensures ValidMsgs(PutLast(ms, m)) && Total(PutLast(ms, m)) == Total(ms) + Weight(m)
    ensures ValidMsgs(PutFirst(ms, m)) && Total(PutFirst(ms, m)) == Total(ms) + Weight(m)
  {
    hide Weight, ValidMsg, Total;
    var k := PutLastPlace(ms, m);
    TotalMiddle(ms[..k], m, ms[k..]);
    assert ms[..k] + ms[k..] == ms;
    var j := PutFirstPlace(ms, m);
    TotalMiddle(ms[..j], m, ms[j..]);
    assert ms[..j] + ms[j..] == ms;
  }

  // ----- flushing -----

  /** What flushing leaves: nothing, or all but the data. */
  function Left(ms: seq<Msg>, all: bool): seq<Msg> {
    if ms == [] then []
    else (if ms[0].typ != M_DATA && !all then [ms[0]] else []) + Left(ms[1..], all)
  }

  /** Each message is dropped or left for itself: all of them are dropped, or the data only. */
  lemma {:induction false} FlushExact(u: seq<Msg>, m: Msg, v: seq<Msg>, all: bool)
    ensures Left(u + v, all) == Left(u, all) + Left(v, all)
    ensures Left([m], all) == if all || m.typ == M_DATA then [] else [m]
  {
    if u == [] {
      assert u + v == v;
    } else {
      var head := if u[0].typ != M_DATA && !all then [u[0]] else [];
      assert (u + v)[1..] == u[1..] + v;
      assert Left(u + v, all) == head + Left(u[1..] + v, all) && Left(u, all) == head + Left(u[1..], all);
      FlushExact(u[1..], m, v, all);
      hide *;
      Assoc(head, Left(u[1..], all), Left(v, all));
    }
  }

  /** The messages `ms` put one after the other. */
  function PutAll(q: seq<Msg>, ms: seq<Msg>): seq<Msg>
    decreases |ms|
  {
    if ms == [] then q else PutAll(PutLast(q, ms[0]), ms[1..])
  }

  lemma {:induction false} PutLastAppends(q: seq<Msg>, m: Msg)
    requires forall i :: 0 <= i < |q| ==> QueClass(q[i]) >= QueClass(m)
    ensures PutLast(q, m) == q + [m]
  {
    hide QueClass;
    if q != [] {
      PutLastAppends(q[1..], m);
      assert q + [m] == [q[0]] + (q[1..] + [m]);
    }
  }

  /** Messages in order, put back one after the other behind others not below them, keep it. */
  lemma {:induction false} PutAllOrdered(q: seq<Msg>, ms: seq<Msg>)
    requires InOrder(q + ms)
    ensures PutAll(q, ms) == q + ms
    decreases |ms|
  {
    hide QueClass;
    if ms == [] {
      assert q + ms == q;
    } else {
      forall i | 0 <= i < |q| ensures QueClass(q[i]) >= QueClass(ms[0]) {
        assert (q + ms)[i] == q[i] && (q + ms)[|q|] == ms[0];
      }
      PutLastAppends(q, ms[0]);
      assert q + [ms[0]] + ms[1..] == q + ms;
      PutAllOrdered(q + [ms[0]], ms[1..]);
    }
  }

  lemma {:induction false} LeftFrom(ms: seq<Msg>, all: bool, c: int)
    requires InOrder(ms) && forall i :: 0 <= i < |ms| ==> QueClass(ms[i]) <= c
    ensures InOrder(Left(ms, all)) && forall i :: 0 <= i < |Left(ms, all)| ==> QueClass(Left(ms, all)[i]) <= c
  {
    hide QueClass;
    if ms != [] {
      LeftFrom(ms[1..], all, QueClass(ms[0]));
    }
  }

  /** Flushing leaves the other messages as they were. */
  lemma FlushKeepsOrder(ms: seq<Msg>, all: bool)
    requires InOrder(ms)
    ensures InOrder(Left(ms, all)) && PutAll([], Left(ms, all)) == Left(ms, all)
  {
    hide QueClass;
    if ms != [] { LeftFrom(ms, all, QueClass(ms[0])); }
    assert [] + Left(ms, all) == Left(ms, all);
    PutAllOrdered([], Left(ms, all));
  }
}
