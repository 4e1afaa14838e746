/** Record locks of one file, as lists, and what they mean byte by byte. */
module LockList {

  datatype LockType = RDLCK | WRLCK | UNLCK

  /** `id` names the record; `stat` is its wake-up flag (in the list of sleeping requests, the
      process waited for). */
  datatype Lock = Lock(id: int, start: int, end: int, typ: LockType, pid: int, stat: int)

  /** A request: set a lock of type `typ` on [start, end), or clear it. */
  datatype Request = Request(start: int, end: int, typ: LockType)

  /** Process `p` holds a lock of type `t` on byte `b`. */
  ghost predicate Holds(fl: seq<Lock>, p: int, b: int, t: LockType) {
    exists r :: r in fl && r.pid == p && r.start <= b < r.end && r.typ == t
  }

  predicate WellFormed(fl: seq<Lock>) {
    && (forall r :: r in fl ==> r.start < r.end && r.typ != UNLCK)
    && (forall i, j :: 0 <= i < j < |fl| ==> fl[i].id != fl[j].id)
  }

  predicate Sorted(fl: seq<Lock>) {
    forall i, j :: 0 <= i < j < |fl| ==> fl[i].start <= fl[j].start
  }

  predicate Before(r: Lock, r': Lock) {
    r.end <= r'.start && (r.end == r'.start ==> r.typ != r'.typ)
  }

  /** The locks of `p` are in order, disjoint, and of different types where they touch. */
  predicate Canonical(fl: seq<Lock>, p: int) {
    forall i, j :: 0 <= i < j < |fl| && fl[i].pid == p && fl[j].pid == p ==> Before(fl[i], fl[j])
  }

  /** The records of all other processes. */
  function Others(fl: seq<Lock>, p: int): seq<Lock> {
    if fl == [] then []
    else if fl[0].pid == p then Others(fl[1..], p)
    else [fl[0]] + Others(fl[1..], p)
  }

  /** Every record that someone may be sleeping on is still there unchanged, or has been woken. */
  ghost predicate NoLostWakeup(fl0: seq<Lock>, fl: seq<Lock>, woken: set<int>) {
    forall r :: r in fl0 ==> r in fl || r.stat == 0 || r.id in woken
  }

  /** Nobody sleeps on a record that is new or has been changed. */
  predicate FreshFlags(fl0: seq<Lock>, fl: seq<Lock>) {
    forall r :: r in fl ==> r in fl0 || r.stat == 0
  }

  /** The map of `p` after the request: the old one overridden on [start, end). */
  ghost predicate Wanted(fl0: seq<Lock>, p: int, q: Request, b: int, t: LockType) {
    if q.start <= b < q.end then t == q.typ && t != UNLCK else Holds(fl0, p, b, t)
  }

  ghost predicate Overridden(fl0: seq<Lock>, p: int, q: Request, fl: seq<Lock>) {
    forall b, t :: Holds(fl, p, b, t) <==> Wanted(fl0, p, q, b, t)
  }

  // ----- the ways in which the loop edits the list -----

  function Delete(fl: seq<Lock>, i: nat): seq<Lock>
    requires i < |fl|
  {
    fl[..i] + fl[i + 1..]
  }

  /** A record inserted before position `k`. */
  function InsertAt(fl: seq<Lock>, k: nat, r: Lock): seq<Lock>
    requires k <= |fl|
  {
    fl[..k] + [r] + fl[k..]
  }

  /** While the list is scanned: [s, e) is the request, perhaps grown over records of the same
      type that have been taken out; the records of `p` before position `i` are settled. */
  ghost predicate Scanning(fl0: seq<Lock>, p: int, q: Request, fl: seq<Lock>, i: int, s: int, e: int, woken: set<int>) {
    && 0 <= i <= |fl| && s <= q.start < q.end == e
    && WellFormed(fl) && Sorted(fl) && Canonical(fl, p)
    && (forall b, t :: Wanted(fl, p, Request(s, e, q.typ), b, t) <==> Wanted(fl0, p, q, b, t))
    && (forall j :: 0 <= j < i && fl[j].pid == p ==> fl[j].end <= s && (fl[j].end == s ==> fl[j].typ != q.typ))
    && Others(fl, p) == Others(fl0, p)
    && NoLostWakeup(fl0, fl, woken) && FreshFlags(fl0, fl)
    && Ahead(fl0, p, q, fl, i, s)
  }

  /** The part of the list not yet scanned is untouched, and the records of `p` before it did not
      reach beyond the request. */
  ghost predicate Ahead(fl0: seq<Lock>, p: int, q: Request, fl: seq<Lock>, i: int, s: int)
    requires 0 <= i <= |fl|
  {
    var m := |fl0| - (|fl| - i);
    && 0 <= m && fl[i..] == fl0[m..]
    && (forall k :: 0 <= k < m && fl0[k].pid == p ==> fl0[k].end <= q.end)
    && (s < q.start ==> forall k :: m <= k < |fl0| && fl0[k].pid == p ==> q.start <= fl0[k].start)
  }

  /** The tail of a record of `p` is cut off by the request, and a record of another process
      that starts inside the request comes after that record: the tail will be put before it. */
  predicate Misplaces(fl0: seq<Lock>, p: int, q: Request) {
    exists i, j :: 0 <= i < j < |fl0| && fl0[i].pid == p && fl0[j].pid != p
      && fl0[i].typ != q.typ && fl0[i].start < q.end < fl0[i].end && q.start <= fl0[j].start < q.end
  }

  /** The scan is over: no record of `p` meets [s, e), nor touches it with the same type. */
  ghost predicate Scanned(fl0: seq<Lock>, p: int, q: Request, fl: seq<Lock>, s: int, e: int, woken: set<int>) {
    && s <= q.start < q.end <= e
    && WellFormed(fl) && Canonical(fl, p)
    && (forall b, t :: Wanted(fl, p, Request(s, e, q.typ), b, t) <==> Wanted(fl0, p, q, b, t))
    && (forall r :: r in fl && r.pid == p ==> Clears(r, s, e, q.typ))
    && Others(fl, p) == Others(fl0, p)
    && NoLostWakeup(fl0, fl, woken) && FreshFlags(fl0, fl)
    && PrefixBelow(fl, s)
    && (Sorted(fl) <==> !Misplaces(fl0, p, q))
  }

  /** No record that starts before `s` comes after one that does not. */
  predicate PrefixBelow(fl: seq<Lock>, s: int) {
    forall i, j :: 0 <= i < j < |fl| && fl[j].start < s ==> fl[i].start < s
  }

  /** What a lock or unlock call leaves behind. */
  ghost predicate Adjusted(fl0: seq<Lock>, p: int, q: Request, fl: seq<Lock>, woken: set<int>) {
    && WellFormed(fl) && Canonical(fl, p)
    && Overridden(fl0, p, q, fl)
    && Others(fl, p) == Others(fl0, p)
    && NoLostWakeup(fl0, fl, woken) && FreshFlags(fl0, fl)
    && (Sorted(fl) <==> !Misplaces(fl0, p, q))
  }

  /** A lock of `p` that reaches beyond a request of another type, so that its tail is to stay. */
  predicate Tail(r: Lock, p: int, q: Request) {
    r.pid == p && r.typ != q.typ && r.start < q.end < r.end
  }

  predicate HasTail(fl: seq<Lock>, p: int, q: Request) {
    exists r :: r in fl && Tail(r, p, q)
  }

  /** The request has been cleared, but nothing set. */
  ghost predicate Cleared(fl0: seq<Lock>, p: int, q: Request, fl: seq<Lock>) {
    Overridden(fl0, p, q.(typ := UNLCK), fl)
  }

  /** The request has been cleared up to the record whose tail could not be put anywhere. */
  ghost predicate CutShort(fl0: seq<Lock>, p: int, q: Request, fl: seq<Lock>) {
    exists r :: r in fl0 && Tail(r, p, q)
      && Cleared(fl0, p, q.(end := if r.start < q.start then q.start else r.start), fl)
  }

  /** How far a call got that ran out of records, with `free` of them at its start. */
  ghost predicate LeftAt(fl0: seq<Lock>, p: int, q: Request, free: nat, fl: seq<Lock>) {
    if free == 0 && HasTail(fl0, p, q) then CutShort(fl0, p, q, fl) else Cleared(fl0, p, q, fl)
  }

  /** What such a call leaves behind: nothing is set, and the request is cleared up to where the call
      got; the one free record, if there was one, may have become a misplaced tail. */
  ghost predicate Failed(fl0: seq<Lock>, p: int, q: Request, free: nat, fl: seq<Lock>, woken: set<int>) {
    && WellFormed(fl) && Canonical(fl, p)
    && LeftAt(fl0, p, q, free, fl)
    && Others(fl, p) == Others(fl0, p)
    && NoLostWakeup(fl0, fl, woken) && FreshFlags(fl0, fl)
    && (Sorted(fl) <==> !(free > 0 && Misplaces(fl0, p, q)))
  }

  /** The records in a list and in the free list. */
  function Records(fl: seq<Lock>, free: seq<int>): set<int> {
    (set r | r in fl :: r.id) + (set x | x in free)
  }

  predicate Clears(r: Lock, s: int, e: int, t: LockType) {
    && (r.end <= s || e <= r.start)
    && (r.end == s || e == r.start ==> r.typ != t)
  }

  // ----- facts about the edits -----

  lemma {:induction false} OthersConcat(u: seq<Lock>, v: seq<Lock>, p: int)
    ensures Others(u + v, p) == Others(u, p) + Others(v, p)
  {
    if u == [] {
      assert u + v == v;
    } else {
      assert (u + v)[1..] == u[1..] + v;
      OthersConcat(u[1..], v, p);
    }
  }

  lemma OthersDelete(fl: seq<Lock>, i: nat, p: int)
    requires i < |fl| && fl[i].pid == p
    ensures Others(Delete(fl, i), p) == Others(fl, p)
  {
    OthersConcat(fl[..i], fl[i + 1..], p);
    OthersInsert(Delete(fl, i), i, fl[i]);
    assert InsertAt(Delete(fl, i), i, fl[i]) == fl;
  }

  lemma OthersInsert(fl: seq<Lock>, k: nat, r: Lock)
    requires k <= |fl|
    ensures Others(InsertAt(fl, k, r), r.pid) == Others(fl, r.pid)
  {
    var u, v, p := fl[..k], fl[k..], r.pid;
    assert fl == u + v;
    assert Others([r], p) == [] by { assert [r][1..] == []; }
    OthersThree(u, [r], v, p);
    OthersConcat(u, v, p);
  }

  lemma OthersThree(u: seq<Lock>, w: seq<Lock>, v: seq<Lock>, p: int)
    requires Others(w, p) == []
    ensures Others(u + w + v, p) == Others(u, p) + Others(v, p)
  {
    OthersConcat(u + w, v, p);
    OthersConcat(u, w, p);
  }

  lemma OthersUpdate(fl: seq<Lock>, i: nat, r: Lock)
    requires i < |fl| && fl[i].pid == r.pid
    ensures Others(fl[i := r], r.pid) == Others(fl, r.pid)
  {
    OthersDelete(fl, i, r.pid);
    OthersDelete(fl[i := r], i, r.pid);
    assert Delete(fl[i := r], i) == Delete(fl, i);
  }

  lemma InsertMembers(fl: seq<Lock>, k: nat, r: Lock)
    requires k <= |fl|
    ensures |InsertAt(fl, k, r)| == |fl| + 1
    ensures forall j :: 0 <= j <= |fl| ==>
      InsertAt(fl, k, r)[j] == if j < k then fl[j] else if j == k then r else fl[j - 1]
    ensures forall x :: x in InsertAt(fl, k, r) <==> x in fl || x == r
  {
    assert fl == fl[..k] + fl[k..];
  }

  lemma InsertRecords(fl: seq<Lock>, k: nat, r: Lock, free: seq<int>)
    requires k <= |fl| && free != [] && r.id == free[0]
    ensures Records(InsertAt(fl, k, r), free[1..]) == Records(fl, free)
  {
    InsertMembers(fl, k, r);
    assert free == [free[0]] + free[1..];
    var a, b := Records(InsertAt(fl, k, r), free[1..]), Records(fl, free);
    assert r in InsertAt(fl, k, r);
    forall x | x in b ensures x in a {
      if y :| y in fl && y.id == x { assert y in InsertAt(fl, k, r); }
    }
    forall x | x in a ensures x in b {
      if y :| y in InsertAt(fl, k, r) && y.id == x { assert y in fl || y == r; }
    }
  }

  lemma DeleteRecords(fl: seq<Lock>, i: nat, free: seq<int>)
    requires i < |fl|
    ensures Records(Delete(fl, i), [fl[i].id] + free) == Records(fl, free)
  {
    DeleteMembers(fl, i);
    InsertRecords(Delete(fl, i), i, fl[i], [fl[i].id] + free);
    assert ([fl[i].id] + free)[1..] == free;
  }

  lemma UpdateRecords(fl: seq<Lock>, i: nat, r: Lock, free: seq<int>)
    requires i < |fl| && r.id == fl[i].id
    ensures Records(fl[i := r], free) == Records(fl, free)
  {
    DeleteRecords(fl, i, free);
    DeleteRecords(fl[i := r], i, free);
    assert Delete(fl[i := r], i) == Delete(fl, i);
  }

  lemma DeleteMembers(fl: seq<Lock>, i: nat)
    requires i < |fl|
    ensures InsertAt(Delete(fl, i), i, fl[i]) == fl
    ensures |Delete(fl, i)| == |fl| - 1
    ensures forall j :: 0 <= j < |fl| - 1 ==> Delete(fl, i)[j] == if j < i then fl[j] else fl[j + 1]
  {
  }

  lemma DeleteOrder(fl: seq<Lock>, k: nat, p: int)
    requires k < |fl| && WellFormed(fl)
    ensures WellFormed(Delete(fl, k))
    ensures Canonical(fl, p) ==> Canonical(Delete(fl, k), p)
    ensures Sorted(fl) ==> Sorted(Delete(fl, k))
  {
    var fl' := Delete(fl, k);
    forall i, j | 0 <= i < j < |fl'|
      ensures fl'[i].id != fl'[j].id
      ensures Sorted(fl) ==> fl'[i].start <= fl'[j].start
      ensures Canonical(fl, p) && fl'[i].pid == p && fl'[j].pid == p ==> Before(fl'[i], fl'[j])
    {
      var i', j' := if i < k then i else i + 1, if j < k then j else j + 1;
      assert fl'[i] == fl[i'] && fl'[j] == fl[j'];
    }
  }

  lemma DeleteFacts(fl: seq<Lock>, i: nat, p: int)
    requires i < |fl| && WellFormed(fl) && fl[i].pid == p
    ensures WellFormed(Delete(fl, i)) && (Canonical(fl, p) ==> Canonical(Delete(fl, i), p))
    ensures Sorted(fl) ==> Sorted(Delete(fl, i))
    ensures forall r :: r in Delete(fl, i) <==> r in fl && r != fl[i]
    ensures Others(Delete(fl, i), p) == Others(fl, p)
  {
    OthersDelete(fl, i, p);
    DeleteOrder(fl, i, p);
    var fl' := Delete(fl, i);
    DeleteMembers(fl, i);
    InsertMembers(fl', i, fl[i]);
    forall j | 0 <= j < |fl'| ensures fl'[j] != fl[i] {
      assert fl'[j] == fl[if j < i then j else j + 1];
    }
  }

  lemma InsertFacts(fl: seq<Lock>, k: nat, r: Lock)
    requires k <= |fl| && WellFormed(fl) && r.start < r.end && r.typ != UNLCK
    requires forall x :: x in fl ==> x.id != r.id
    ensures WellFormed(InsertAt(fl, k, r))
    ensures forall x :: x in InsertAt(fl, k, r) <==> x in fl || x == r
    ensures Others(InsertAt(fl, k, r), r.pid) == Others(fl, r.pid)
  {
    OthersInsert(fl, k, r);
    InsertMembers(fl, k, r);
    InsertIds(fl, k, r);
  }

  lemma InsertIds(fl: seq<Lock>, k: nat, r: Lock)
    requires k <= |fl| && forall x :: x in fl ==> x.id != r.id
    requires forall i, j :: 0 <= i < j < |fl| ==> fl[i].id != fl[j].id
    ensures forall i, j :: 0 <= i < j <= |fl| ==> InsertAt(fl, k, r)[i].id != InsertAt(fl, k, r)[j].id
  {
    var fl' := InsertAt(fl, k, r);
    forall i, j | 0 <= i < j <= |fl| ensures fl'[i].id != fl'[j].id {
      var i', j' := if i < k then i else i - 1, if j < k then j else j - 1;
      assert i != k ==> fl'[i] == fl[i'];
      assert j != k ==> fl'[j] == fl[j'];
    }
  }

  /** A record of `p` is cut off at `end`. */
  lemma CutFacts(fl: seq<Lock>, i: nat, r: Lock, p: int)
    requires i < |fl| && WellFormed(fl) && Canonical(fl, p) && fl[i].pid == p
    requires r.id == fl[i].id && r.pid == p && r.typ == fl[i].typ && r.start == fl[i].start
    requires r.start < r.end <= fl[i].end
    ensures WellFormed(fl[i := r]) && Canonical(fl[i := r], p) && (Sorted(fl) ==> Sorted(fl[i := r]))
    ensures forall x :: x in fl[i := r] <==> (x in fl && x != fl[i]) || x == r
    ensures Others(fl[i := r], p) == Others(fl, p)
  {
    OthersUpdate(fl, i, r);
    var fl' := fl[i := r];
    forall x ensures x in fl' <==> (x in fl && x != fl[i]) || x == r {
      if x in fl && x != fl[i] {
        var j :| 0 <= j < |fl| && fl[j] == x;
        assert fl'[j] == x;
      }
      assert fl'[i] == r;
    }
  }
}
