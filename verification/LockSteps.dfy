/** The cases of the scan in `flckadj`, one lemma for each way of going on. */
module LockSteps {
  import opened LockList

  /** Start of a scan at position `i`: what comes before is too far to the left to matter. */
  lemma ScanStart(fl: seq<Lock>, p: int, q: Request, i: nat)
    requires i <= |fl| && q.start < q.end && WellFormed(fl) && Sorted(fl) && Canonical(fl, p)
    requires forall j :: 0 <= j < i && fl[j].pid == p ==> fl[j].end < q.start
    ensures Scanning(fl, p, q, fl, i, q.start, q.end, {})
  {
  }

  lemma Skip(fl0: seq<Lock>, p: int, q: Request, fl: seq<Lock>, i: int, s: int, e: int, w: set<int>)
    requires Scanning(fl0, p, q, fl, i, s, e, w) && i < |fl|
    requires fl[i].pid != p || fl[i].end < s
    ensures Scanning(fl0, p, q, fl, i + 1, s, e, w)
  {
    var m := |fl0| - (|fl| - i);
    assert fl[i] == fl[i..][0] == fl0[m..][0] == fl0[m];
    assert fl[i + 1..] == fl[i..][1..] == fl0[m..][1..] == fl0[m + 1..];
  }

  /** Nothing of `p` from position `i` on concerns the request. */
  lemma Stop(fl0: seq<Lock>, p: int, q: Request, fl: seq<Lock>, i: int, s: int, e: int, w: set<int>)
    requires Scanning(fl0, p, q, fl, i, s, e, w)
    requires forall j :: i <= j < |fl| && fl[j].pid == p ==>
      e <= fl[j].start && (e == fl[j].start ==> fl[j].typ != q.typ)
    ensures Scanned(fl0, p, q, fl, s, e, w) && !HasTail(fl0, p, q)
  {
    var m := |fl0| - (|fl| - i);
    forall k | 0 <= k < |fl0| && fl0[k].pid == p ensures !(fl0[k].start < q.end < fl0[k].end) {
      if k >= m { assert fl0[k] == fl0[m..][k - m] == fl[i..][k - m] == fl[i + (k - m)]; }
    }
  }

  /** The record at `i` starts beyond the request, so all later ones do. */
  lemma StopBeyond(fl0: seq<Lock>, p: int, q: Request, fl: seq<Lock>, i: int, s: int, e: int, w: set<int>)
    requires Scanning(fl0, p, q, fl, i, s, e, w) && i < |fl| && e < fl[i].start
    ensures Scanned(fl0, p, q, fl, s, e, w) && !HasTail(fl0, p, q)
  {
    Stop(fl0, p, q, fl, i, s, e, w);
  }

  /** The record at `i` touches the end of the request with another type. */
  lemma StopTouching(fl0: seq<Lock>, p: int, q: Request, fl: seq<Lock>, i: int, s: int, e: int, w: set<int>)
    requires Scanning(fl0, p, q, fl, i, s, e, w) && i < |fl| && fl[i].pid == p && e == fl[i].start && fl[i].typ != q.typ
    ensures Scanned(fl0, p, q, fl, s, e, w) && !HasTail(fl0, p, q)
  {
    forall j | i <= j < |fl| && fl[j].pid == p
      ensures e <= fl[j].start && (e == fl[j].start ==> fl[j].typ != q.typ)
    {
      assert j > i ==> Before(fl[i], fl[j]);
      assert fl[i] in fl;
    }
    Stop(fl0, p, q, fl, i, s, e, w);
  }

  function Woken(w: set<int>, r: Lock): set<int> {
    if r.stat != 0 then w + {r.id} else w
  }

  lemma HoldsDelete(fl: seq<Lock>, i: nat, fl': seq<Lock>, p: int, b: int, t: LockType)
    requires i < |fl| && forall r :: r in fl' <==> r in fl && r != fl[i]
    ensures Holds(fl, p, b, t) <==>
      Holds(fl', p, b, t) || (fl[i].pid == p && fl[i].start <= b < fl[i].end && fl[i].typ == t)
  {
    assert fl[i] in fl;
    if Holds(fl', p, b, t) {
      var r :| r in fl' && r.pid == p && r.start <= b < r.end && r.typ == t;
      assert r in fl;
    }
    if Holds(fl, p, b, t) {
      var r :| r in fl && r.pid == p && r.start <= b < r.end && r.typ == t;
      assert r == fl[i] || r in fl';
    }
  }

  /** A record inside the request is taken out. */
  lemma Remove(fl0: seq<Lock>, p: int, q: Request, fl: seq<Lock>, i: int, s: int, e: int, w: set<int>)
    requires Scanning(fl0, p, q, fl, i, s, e, w) && i < |fl| && fl[i].pid == p && s <= fl[i].start && fl[i].end <= e
    ensures Scanning(fl0, p, q, Delete(fl, i), i, s, e, Woken(w, fl[i]))
  {
    var fl' := Delete(fl, i);
    DeleteFacts(fl, i, p);
    forall b, t ensures Wanted(fl', p, Request(s, e, q.typ), b, t) <==> Wanted(fl0, p, q, b, t) {
      HoldsDelete(fl, i, fl', p, b, t);
      assert Wanted(fl, p, Request(s, e, q.typ), b, t) <==> Wanted(fl0, p, q, b, t);
    }
    AheadDelete(fl0, p, q, fl, i, s, s);
  }

  lemma AheadDelete(fl0: seq<Lock>, p: int, q: Request, fl: seq<Lock>, i: int, s: int, s': int)
    requires 0 <= i < |fl| && Ahead(fl0, p, q, fl, i, s) && fl[i].end <= q.end
    requires s' == s || forall k :: i < k < |fl| && fl[k].pid == p ==> q.start <= fl[k].start
    ensures Ahead(fl0, p, q, Delete(fl, i), i, s')
  {
    var fl' := Delete(fl, i);
    var m := |fl0| - (|fl| - i);
    assert fl[i] == fl[i..][0] == fl0[m..][0] == fl0[m];
    assert fl'[i..] == fl[i..][1..] == fl0[m..][1..] == fl0[m + 1..];
    forall k | m + 1 <= k < |fl0| ensures fl0[k] == fl[k - m + i] {
      assert fl0[k] == fl0[m..][k - m] == fl[i..][k - m];
    }
  }

  /** A record of the same type that reaches into or up to the request from the left is taken
      out, and the request grows over it. */
  lemma GrowLeft(fl0: seq<Lock>, p: int, q: Request, fl: seq<Lock>, i: int, s: int, e: int, w: set<int>)
    requires Scanning(fl0, p, q, fl, i, s, e, w) && i < |fl| && fl[i].pid == p && fl[i].typ == q.typ
    requires fl[i].start < s <= fl[i].end < e
    ensures Scanning(fl0, p, q, Delete(fl, i), i, fl[i].start, e, Woken(w, fl[i]))
  {
    var fl' := Delete(fl, i);
    DeleteFacts(fl, i, p);
    var r := fl[i];
    assert r in fl;
    forall b, t ensures Wanted(fl', p, Request(r.start, e, q.typ), b, t) <==> Wanted(fl0, p, q, b, t) {
      HoldsDelete(fl, i, fl', p, b, t);
      assert Wanted(fl, p, Request(s, e, q.typ), b, t) <==> Wanted(fl0, p, q, b, t);
      if r.start <= b < s { OnlyOne(fl, p, i, b); }
    }
    forall j | 0 <= j < i && fl'[j].pid == p
      ensures fl'[j].end <= r.start && (fl'[j].end == r.start ==> fl'[j].typ != q.typ)
    {
      assert Before(fl[j], fl[i]);
    }
    forall k | i < k < |fl| && fl[k].pid == p ensures q.start <= fl[k].start {
      assert Before(fl[i], fl[k]);
      StartsLate(fl0, p, q, fl, i, s, e, w, k);
    }
    AheadDelete(fl0, p, q, fl, i, s, r.start);
  }

  lemma StartsLate(fl0: seq<Lock>, p: int, q: Request, fl: seq<Lock>, i: int, s: int, e: int, w: set<int>, k: int)
    requires Scanning(fl0, p, q, fl, i, s, e, w) && i <= k < |fl| && fl[k].pid == p && s <= fl[k].start
    ensures q.start <= fl[k].start
  {
    var m := |fl0| - (|fl| - i);
    assert fl[k] == fl[i..][k - i] == fl0[m..][k - i] == fl0[m + (k - i)];
  }

  /** A byte of the record at `i` is in no other record of `p`. */
  lemma OnlyOne(fl: seq<Lock>, p: int, i: nat, b: int)
    requires i < |fl| && WellFormed(fl) && Canonical(fl, p) && fl[i].pid == p && fl[i].start <= b < fl[i].end
    ensures forall r :: r in fl && r.pid == p && r.start <= b < r.end ==> r == fl[i]
  {
    forall j | 0 <= j < |fl| && fl[j].pid == p && j != i ensures !(fl[j].start <= b < fl[j].end) {
      if j < i { assert Before(fl[j], fl[i]); } else { assert Before(fl[i], fl[j]); }
    }
  }

  /** A record of the same type that the request ends in, or touches, is taken out, and the
      request grows over it; this ends the scan. */
  lemma GrowRight(fl0: seq<Lock>, p: int, q: Request, fl: seq<Lock>, i: int, s: int, e: int, w: set<int>)
    requires Scanning(fl0, p, q, fl, i, s, e, w) && i < |fl| && fl[i].pid == p && fl[i].typ == q.typ
    requires s < fl[i].start <= e <= fl[i].end
    ensures Scanned(fl0, p, q, Delete(fl, i), s, fl[i].end, Woken(w, fl[i]))
  {
    var fl' := Delete(fl, i);
    DeleteFacts(fl, i, p);
    var r := fl[i];
    assert r in fl;
    forall b, t ensures Wanted(fl', p, Request(s, r.end, q.typ), b, t) <==> Wanted(fl0, p, q, b, t) {
      HoldsDelete(fl, i, fl', p, b, t);
      assert Wanted(fl, p, Request(s, e, q.typ), b, t) <==> Wanted(fl0, p, q, b, t);
      if e <= b < r.end { OnlyOne(fl, p, i, b); }
    }
    forall x | x in fl' && x.pid == p ensures Clears(x, s, r.end, q.typ) {
      var j :| 0 <= j < |fl| && fl[j] == x;
      if j > i { assert Before(fl[i], fl[j]); }
      if j < i { assert Before(fl[j], fl[i]); }
    }
    NotMisplaced(fl0, p, q, fl, i, s, e, w);
  }

  /** The record of `p` that contains the last byte of the request has the same type, or ends
      with the request: no tail is cut off. */
  lemma NotMisplaced(fl0: seq<Lock>, p: int, q: Request, fl: seq<Lock>, i: int, s: int, e: int, w: set<int>)
    requires Scanning(fl0, p, q, fl, i, s, e, w) && i < |fl| && fl[i].pid == p
    requires fl[i].start <= e <= fl[i].end && (fl[i].typ == q.typ || fl[i].end == e)
    ensures !Misplaces(fl0, p, q)
  {
    var m := |fl0| - (|fl| - i);
    forall k | 0 <= k < |fl0| && fl0[k].pid == p && fl0[k].typ != q.typ ensures !(fl0[k].start < q.end < fl0[k].end) {
      if k >= m {
        assert fl0[k] == fl0[m..][k - m] == fl[i..][k - m] == fl[i + (k - m)];
        if k > m { assert Before(fl[i], fl[i + (k - m)]); }
      }
    }
  }

  /** A record of another type that reaches into or up to the request from the left is cut off
      where the request starts. */
  lemma Cut(fl0: seq<Lock>, p: int, q: Request, fl: seq<Lock>, i: int, s: int, e: int, w: set<int>)
    requires Scanning(fl0, p, q, fl, i, s, e, w) && i < |fl| && fl[i].pid == p && fl[i].typ != q.typ
    requires fl[i].start < s <= fl[i].end <= e
    ensures Scanning(fl0, p, q, fl[i := fl[i].(end := s, stat := 0)], i + 1, s, e, Woken(w, fl[i]))
  {
    var r := fl[i].(end := s, stat := 0);
    var fl' := fl[i := r];
    CutFacts(fl, i, r, p);
    CutWanted(fl0, p, q, fl, i, s, e, r);
    forall j | 0 <= j < i && fl[j].pid == p ensures fl[j].end <= s && (fl[j].end == s ==> fl[j].typ != q.typ) {}
    AheadCut(fl0, p, q, fl, i, s, r);
  }

  lemma AheadCut(fl0: seq<Lock>, p: int, q: Request, fl: seq<Lock>, i: int, s: int, r: Lock)
    requires 0 <= i < |fl| && Ahead(fl0, p, q, fl, i, s) && fl[i].end <= q.end
    ensures Ahead(fl0, p, q, fl[i := r], i + 1, s)
  {
    var m := |fl0| - (|fl| - i);
    assert fl[i] == fl[i..][0] == fl0[m..][0] == fl0[m];
    assert fl[i := r][i + 1..] == fl[i..][1..] == fl0[m..][1..] == fl0[m + 1..];
  }

  lemma CutWanted(fl0: seq<Lock>, p: int, q: Request, fl: seq<Lock>, i: int, s: int, e: int, r: Lock)
    requires 0 <= i < |fl| && fl[i].pid == p && r.pid == p && r.typ == fl[i].typ && r.start == fl[i].start
    requires r.end == s < e && s <= fl[i].end <= e
    requires forall x :: x in fl[i := r] <==> (x in fl && x != fl[i]) || x == r
    requires forall b, t :: Wanted(fl, p, Request(s, e, q.typ), b, t) <==> Wanted(fl0, p, q, b, t)
    ensures forall b, t :: Wanted(fl[i := r], p, Request(s, e, q.typ), b, t) <==> Wanted(fl0, p, q, b, t)
  {
    forall b, t ensures Wanted(fl[i := r], p, Request(s, e, q.typ), b, t) <==> Wanted(fl0, p, q, b, t) {
      assert Wanted(fl, p, Request(s, e, q.typ), b, t) <==> Wanted(fl0, p, q, b, t);
      HoldsCut(fl, i, r, p, b, t);
    }
  }

  lemma HoldsCut(fl: seq<Lock>, i: nat, r: Lock, p: int, b: int, t: LockType)
    requires i < |fl| && fl[i].pid == p && r.pid == p && r.typ == fl[i].typ && r.start == fl[i].start
    requires r.end <= fl[i].end
    requires forall x :: x in fl[i := r] <==> (x in fl && x != fl[i]) || x == r
    ensures !(r.end <= b < fl[i].end) ==> (Holds(fl[i := r], p, b, t) <==> Holds(fl, p, b, t))
  {
    if Holds(fl[i := r], p, b, t) {
      var x :| x in fl[i := r] && x.pid == p && x.start <= b < x.end && x.typ == t;
      assert if x == r then fl[i] in fl else x in fl;
    }
    if !(r.end <= b < fl[i].end) && Holds(fl, p, b, t) {
      var x :| x in fl && x.pid == p && x.start <= b < x.end && x.typ == t;
      assert fl[i := r][i] == r;
      assert x != fl[i] ==> x in fl[i := r];
    }
  }

  /** The request lies in a record of the same type: nothing to do. */
  lemma AlreadySet(fl0: seq<Lock>, p: int, q: Request, fl: seq<Lock>, i: int, s: int, e: int, w: set<int>)
    requires Scanning(fl0, p, q, fl, i, s, e, w) && i < |fl| && fl[i].pid == p && fl[i].typ == q.typ
    requires fl[i].start <= s && e <= fl[i].end
    ensures Adjusted(fl0, p, q, fl, w)
  {
    var r := fl[i];
    assert r in fl;
    forall b, t ensures Holds(fl, p, b, t) <==> Wanted(fl0, p, q, b, t) {
      assert Wanted(fl, p, Request(s, e, q.typ), b, t) <==> Wanted(fl0, p, q, b, t);
      if s <= b < e { OnlyOne(fl, p, i, b); }
    }
    NotMisplaced(fl0, p, q, fl, i, s, e, w);
  }

  // ----- splitting off a tail -----

  /** The record at `i` contains the end of the request and has another type.  What is left of it
      to the left of the request (if anything) stays, and its tail becomes the new record `td`;
      `fl'` is the list afterwards. */
  ghost predicate SplitOff(fl0: seq<Lock>, p: int, q: Request, fl: seq<Lock>, i: int, s: int, e: int, td: Lock,
        fl': seq<Lock>)
  {
    && 0 <= i < |fl| && fl[i].pid == p && fl[i].typ != q.typ && fl[i].start < e < fl[i].end
    && td == Lock(td.id, e, fl[i].end, fl[i].typ, p, 0)
    && (forall x :: x in fl' <==> (x in fl && x != fl[i]) || x == td || (fl[i].start < s && x == Head(fl[i], s)))
  }

  function Head(r: Lock, s: int): Lock {
    r.(end := s, stat := 0)
  }

  lemma SplitHolds(fl0: seq<Lock>, p: int, q: Request, fl: seq<Lock>, i: int, s: int, e: int, td: Lock,
        fl': seq<Lock>, b: int, t: LockType)
    requires SplitOff(fl0, p, q, fl, i, s, e, td, fl') && s < e
    requires !(s <= b < e)
    ensures Holds(fl', p, b, t) <==> Holds(fl, p, b, t)
  {
    var r := fl[i];
    assert r in fl;
    if Holds(fl', p, b, t) {
      var x :| x in fl' && x.pid == p && x.start <= b < x.end && x.typ == t;
      if x == td || !(x in fl && x != r) { assert r.start <= b < r.end && r.typ == t; }
    }
    if Holds(fl, p, b, t) {
      var x :| x in fl && x.pid == p && x.start <= b < x.end && x.typ == t;
      if x == r {
        if b < s { assert Head(r, s) in fl'; } else { assert td in fl'; }
      } else {
        assert x in fl';
      }
    }
  }

  lemma SplitClears(fl0: seq<Lock>, p: int, q: Request, fl: seq<Lock>, i: int, s: int, e: int, w: set<int>, td: Lock,
        fl': seq<Lock>)
    requires Scanning(fl0, p, q, fl, i, s, e, w) && SplitOff(fl0, p, q, fl, i, s, e, td, fl')
    ensures forall x :: x in fl' && x.pid == p ==> Clears(x, s, e, q.typ)
  {
    forall x | x in fl' && x.pid == p ensures Clears(x, s, e, q.typ) {
      if x in fl && x != fl[i] {
        var j :| 0 <= j < |fl| && fl[j] == x;
        if j > i { assert Before(fl[i], fl[j]); }
      }
    }
  }

  lemma SplitWakes(fl0: seq<Lock>, fl: seq<Lock>, i: int, w: set<int>, fl': seq<Lock>)
    requires 0 <= i < |fl| && NoLostWakeup(fl0, fl, w) && forall x :: x in fl && x != fl[i] ==> x in fl'
    ensures NoLostWakeup(fl0, fl', Woken(w, fl[i]))
  {
  }

  /** The tail takes the place of a record that starts at or after the request. */
  lemma SplitWhole(fl0: seq<Lock>, p: int, q: Request, fl: seq<Lock>, i: int, s: int, e: int, w: set<int>, td: Lock)
    requires Scanning(fl0, p, q, fl, i, s, e, w) && i < |fl| && fl[i].pid == p && fl[i].typ != q.typ
    requires s <= fl[i].start < e < fl[i].end
    requires td == Lock(td.id, e, fl[i].end, fl[i].typ, p, 0) && forall x :: x in fl ==> x.id != td.id
    ensures Delete(InsertAt(fl, i + 1, td), i) == fl[i := td]
    ensures Scanned(fl0, p, q, fl[i := td], s, e, Woken(w, fl[i]))
  {
    hide Ahead, Holds, Wanted, Sorted, Canonical, PrefixBelow, Misplaces, Others;
    var fl' := fl[i := td];
    SplitWholeList(fl, i, td, p);
    SplitClears(fl0, p, q, fl, i, s, e, w, td, fl');
    SplitWakes(fl0, fl, i, w, fl');
    SplitWanted(fl0, p, q, fl, i, s, e, w, td, fl');
    SplitWholeOrder(fl0, p, q, fl, i, s, e, w, td);
  }

  lemma SplitWanted(fl0: seq<Lock>, p: int, q: Request, fl: seq<Lock>, i: int, s: int, e: int, w: set<int>, td: Lock,
        fl': seq<Lock>)
    requires Scanning(fl0, p, q, fl, i, s, e, w) && SplitOff(fl0, p, q, fl, i, s, e, td, fl') && s < e
    ensures forall b, t :: Wanted(fl', p, Request(s, e, q.typ), b, t) <==> Wanted(fl0, p, q, b, t)
  {
    forall b, t ensures Wanted(fl', p, Request(s, e, q.typ), b, t) <==> Wanted(fl0, p, q, b, t) {
      assert Wanted(fl, p, Request(s, e, q.typ), b, t) <==> Wanted(fl0, p, q, b, t);
      if !(s <= b < e) { SplitHolds(fl0, p, q, fl, i, s, e, td, fl', b, t); }
    }
  }

  lemma SplitWholeList(fl: seq<Lock>, i: nat, td: Lock, p: int)
    requires i < |fl| && WellFormed(fl) && Canonical(fl, p) && fl[i].pid == p == td.pid
    requires td.typ == fl[i].typ && fl[i].start < td.start < td.end == fl[i].end
    requires forall x :: x in fl ==> x.id != td.id
    ensures Delete(InsertAt(fl, i + 1, td), i) == fl[i := td]
    ensures WellFormed(fl[i := td]) && Canonical(fl[i := td], p) && Others(fl[i := td], p) == Others(fl, p)
    ensures forall x :: x in fl[i := td] <==> (x in fl && x != fl[i]) || x == td
  {
    OthersUpdate(fl, i, td);
    var fl' := fl[i := td];
    assert fl[i] in fl;
    forall x ensures x in fl' <==> (x in fl && x != fl[i]) || x == td {
      if x in fl && x != fl[i] {
        var j :| 0 <= j < |fl| && fl[j] == x;
        assert fl'[j] == x;
      }
      assert fl'[i] == td;
    }
  }

  lemma SplitWholeOrder(fl0: seq<Lock>, p: int, q: Request, fl: seq<Lock>, i: int, s: int, e: int, w: set<int>,
        td: Lock)
    requires Scanning(fl0, p, q, fl, i, s, e, w) && i < |fl| && fl[i].pid == p && fl[i].typ != q.typ
    requires s <= fl[i].start < e < fl[i].end && td.start == e
    ensures PrefixBelow(fl[i := td], s)
    ensures Sorted(fl[i := td]) <==> !Misplaces(fl0, p, q)
  {
    MisplacedAhead(fl0, p, q, fl, i, s, e, w);
    var fl' := fl[i := td];
    if j :| Intruder(fl, p, q, i, j) {
      assert fl'[i].start > fl'[j].start;
    } else {
      forall j | i < j < |fl| ensures e <= fl[j].start {
        if fl[j].pid == p { assert Before(fl[i], fl[j]); }
        else { StartsAfter(fl0, p, q, fl, i, s, e, w, j); assert !Intruder(fl, p, q, i, j); }
      }
    }
  }

  /** What comes after a record of `p` that starts at or after `s` starts at or after the request. */
  lemma StartsAfter(fl0: seq<Lock>, p: int, q: Request, fl: seq<Lock>, i: int, s: int, e: int, w: set<int>, j: int)
    requires Scanning(fl0, p, q, fl, i, s, e, w) && 0 <= i <= j < |fl| && fl[i].pid == p && s <= fl[i].start
    ensures q.start <= fl[j].start
  {
    StartsLate(fl0, p, q, fl, i, s, e, w, i);
  }

  lemma AheadAt(fl0: seq<Lock>, p: int, q: Request, fl: seq<Lock>, i: int, s: int, k: int)
    requires 0 <= i <= k < |fl| && Ahead(fl0, p, q, fl, i, s)
    ensures 0 <= |fl0| - |fl| + k < |fl0| && fl0[|fl0| - |fl| + k] == fl[k]
  {
    var m := |fl0| - (|fl| - i);
    assert fl[k] == fl[i..][k - i] == fl0[m..][k - i] == fl0[m + (k - i)];
  }

  /** A later record of another process inside the request. */
  predicate Intruder(fl: seq<Lock>, p: int, q: Request, i: int, j: int) {
    0 <= i < j < |fl| && fl[j].pid != p && q.start <= fl[j].start < q.end
  }

  /** Misplacement, seen from the record being split. */
  lemma MisplacedAhead(fl0: seq<Lock>, p: int, q: Request, fl: seq<Lock>, i: int, s: int, e: int, w: set<int>)
    requires Scanning(fl0, p, q, fl, i, s, e, w) && i < |fl| && fl[i].pid == p && fl[i].typ != q.typ
    requires fl[i].start < e < fl[i].end
    ensures Misplaces(fl0, p, q) <==> exists j :: Intruder(fl, p, q, i, j)
  {
    if Misplaces(fl0, p, q) { MisplacedOnly(fl0, p, q, fl, i, s); }
    if j :| Intruder(fl, p, q, i, j) {
      AheadAt(fl0, p, q, fl, i, s, i);
      AheadAt(fl0, p, q, fl, i, s, j);
    }
  }

  lemma OwnAfter(fl: seq<Lock>, p: int, i: int, k: int)
    requires 0 <= i <= k < |fl| && Canonical(fl, p) && fl[i].pid == p && fl[k].pid == p
    ensures i < k ==> fl[i].end <= fl[k].start
  {
    if i < k { assert Before(fl[i], fl[k]); }
  }

  lemma MisplacedOnly(fl0: seq<Lock>, p: int, q: Request, fl: seq<Lock>, i: int, s: int)
    requires 0 <= i < |fl| && Canonical(fl, p) && Ahead(fl0, p, q, fl, i, s) && fl[i].pid == p
    requires fl[i].start < q.end < fl[i].end && Misplaces(fl0, p, q)
    ensures exists j :: Intruder(fl, p, q, i, j)
  {
    hide Canonical;
    var d := |fl| - |fl0|;
    var a, b :| 0 <= a < b < |fl0| && fl0[a].pid == p && fl0[b].pid != p
      && fl0[a].typ != q.typ && fl0[a].start < q.end < fl0[a].end && q.start <= fl0[b].start < q.end;
    assert a + d >= i;
    AheadAt(fl0, p, q, fl, i, s, a + d);
    AheadAt(fl0, p, q, fl, i, s, b + d);
    OwnAfter(fl, p, i, a + d);
    assert Intruder(fl, p, q, i, b + d);
  }

  // ----- the request inside a record that starts before it -----

  /** `k` is the first position after `i` whose record does not start before `s`. */
  predicate TailPlace(fl: seq<Lock>, i: int, s: int, k: int) {
    && 0 <= i < k <= |fl| && (forall j :: i <= j < k ==> fl[j].start < s) && (k < |fl| ==> s <= fl[k].start)
  }

  lemma SplitMiddle(fl0: seq<Lock>, p: int, q: Request, fl: seq<Lock>, i: int, s: int, e: int, w: set<int>, td: Lock,
        k: int)
    requires Scanning(fl0, p, q, fl, i, s, e, w) && i < |fl| && fl[i].pid == p && fl[i].typ != q.typ
    requires fl[i].start < s < e < fl[i].end && TailPlace(fl, i, s, k)
    requires td == Lock(td.id, e, fl[i].end, fl[i].typ, p, 0) && forall x :: x in fl ==> x.id != td.id
    ensures InsertAt(fl, k, td)[i] == fl[i]
    ensures Scanned(fl0, p, q, InsertAt(fl, k, td)[i := Head(fl[i], s)], s, e, Woken(w, fl[i]))
  {
    hide Holds, Ahead, Others, PrefixBelow, Sorted, Misplaces;
    var fl' := InsertAt(fl, k, td)[i := Head(fl[i], s)];
    SplitMiddleList(fl, i, td, p, s, k);
    SplitClears(fl0, p, q, fl, i, s, e, w, td, fl');
    SplitWakes(fl0, fl, i, w, fl');
    forall b, t ensures Wanted(fl', p, Request(s, e, q.typ), b, t) <==> Wanted(fl0, p, q, b, t) {
      assert Wanted(fl, p, Request(s, e, q.typ), b, t) <==> Wanted(fl0, p, q, b, t);
      if !(s <= b < e) { SplitHolds(fl0, p, q, fl, i, s, e, td, fl', b, t); }
    }
    SplitMiddleOrder(fl0, p, q, fl, i, s, e, w, td, k);
  }

  lemma SplitMiddleList(fl: seq<Lock>, i: nat, td: Lock, p: int, s: int, k: int)
    requires i < k <= |fl| && WellFormed(fl) && Canonical(fl, p) && fl[i].pid == p && TailPlace(fl, i, s, k)
    requires Sorted(fl)
    requires fl[i].start < s < td.start < fl[i].end
    requires td == Lock(td.id, td.start, fl[i].end, fl[i].typ, p, 0) && forall x :: x in fl ==> x.id != td.id
    ensures InsertAt(fl, k, td)[i] == fl[i]
    ensures var fl' := InsertAt(fl, k, td)[i := Head(fl[i], s)];
      && WellFormed(fl') && Canonical(fl', p) && Others(fl', p) == Others(fl, p)
      && forall x :: x in fl' <==> (x in fl && x != fl[i]) || x == td || x == Head(fl[i], s)
  {
    var h := Head(fl[i], s);
    CutFacts(fl, i, h, p);
    var c := fl[i := h];
    var fl' := InsertAt(fl, k, td)[i := h];
    assert fl' == InsertAt(c, k, td);
    forall x | x in c ensures x.id != td.id { assert x == h || x in fl; }
    InsertFacts(c, k, td);
    InsertMembers(c, k, td);
    forall j | 0 <= j < |fl| && fl[j].pid == p && j != i
      ensures if j < k then c[j].end <= s else td.end <= c[j].start && (td.end == c[j].start ==> td.typ != c[j].typ)
    {
      if j < i { assert Before(fl[j], fl[i]); } else { assert Before(fl[i], fl[j]); }
    }
    InsertCanonical(c, k, td, p, s);
  }

  /** A record put where all records of `p` before it end by `s`, and all after it lie beyond it. */
  lemma InsertCanonical(c: seq<Lock>, k: nat, r: Lock, p: int, s: int)
    requires k <= |c| && Canonical(c, p) && r.pid == p
    requires forall j :: 0 <= j < |c| && c[j].pid == p ==>
      if j < k then Before(c[j], r) else Before(r, c[j])
    ensures Canonical(InsertAt(c, k, r), p)
  {
    InsertMembers(c, k, r);
    var fl' := InsertAt(c, k, r);
    forall i, j | 0 <= i < j < |fl'| && fl'[i].pid == p && fl'[j].pid == p ensures Before(fl'[i], fl'[j]) {
      var i', j' := if i < k then i else i - 1, if j < k then j else j - 1;
      if i != k && j != k { assert Before(c[i'], c[j']); }
    }
  }

  lemma SplitMiddleOrder(fl0: seq<Lock>, p: int, q: Request, fl: seq<Lock>, i: int, s: int, e: int, w: set<int>,
        td: Lock, k: int)
    requires Scanning(fl0, p, q, fl, i, s, e, w) && i < |fl| && fl[i].pid == p && fl[i].typ != q.typ
    requires fl[i].start < s < e < fl[i].end && TailPlace(fl, i, s, k) && td.start == e
    ensures PrefixBelow(InsertAt(fl, k, td)[i := Head(fl[i], s)], s)
    ensures Sorted(InsertAt(fl, k, td)[i := Head(fl[i], s)]) <==> !Misplaces(fl0, p, q)
  {
    MisplacedAhead(fl0, p, q, fl, i, s, e, w);
    StartsExactly(fl0, p, q, fl, i, s, e, w);
    MiddleStarts(fl, i, s, e, td, k);
    var fl' := InsertAt(fl, k, td)[i := Head(fl[i], s)];
    if j :| Intruder(fl, p, q, i, j) {
      assert j >= k;
      assert fl'[k].start > fl'[j + 1].start;
    } else {
      forall j | k <= j < |fl| ensures e <= fl[j].start {
        if fl[j].pid == p { assert Before(fl[i], fl[j]); } else { assert !Intruder(fl, p, q, i, j); }
      }
      MiddleSorted(fl, fl', k, e);
    }
  }

  lemma MiddleStarts(fl: seq<Lock>, i: int, s: int, e: int, td: Lock, k: int)
    requires i < |fl| && Sorted(fl) && TailPlace(fl, i, s, k) && td.start == e && s < e && fl[i].start < s
    ensures var fl' := InsertAt(fl, k, td)[i := Head(fl[i], s)];
      && |fl'| == |fl| + 1
      && (forall j {:trigger fl'[j]} :: 0 <= j < |fl'| ==>
        fl'[j].start == if j < k then fl[j].start else if j == k then e else fl[j - 1].start)
      && PrefixBelow(fl', s)
  {
    InsertMembers(fl, k, td);
    var fl' := InsertAt(fl, k, td)[i := Head(fl[i], s)];
    forall j | k <= j < |fl'| ensures s <= fl'[j].start {
      if j > k { assert fl[k].start <= fl[j - 1].start; }
    }
    forall j | 0 <= j < k ensures fl'[j].start < s {
      if j < i { assert fl[j].start <= fl[i].start; }
    }
  }

  lemma MiddleSorted(fl: seq<Lock>, fl': seq<Lock>, k: int, e: int)
    requires Sorted(fl) && 0 <= k <= |fl| && |fl'| == |fl| + 1
    requires forall j {:trigger fl'[j]} :: 0 <= j < |fl'| ==>
      fl'[j].start == if j < k then fl[j].start else if j == k then e else fl[j - 1].start
    requires forall j :: 0 <= j < k ==> fl[j].start < e
    requires forall j :: k <= j < |fl| ==> e <= fl[j].start
    ensures Sorted(fl')
  {
    forall i, j | 0 <= i < j < |fl'| ensures fl'[i].start <= fl'[j].start {
      var i', j' := if i < k then i else i - 1, if j < k then j else j - 1;
      assert i != k ==> fl'[i].start == fl[i'].start;
      assert j != k ==> fl'[j].start == fl[j'].start;
      if i != k && j != k { assert fl[i'].start <= fl[j'].start; }
    }
  }

  /** While a record of `p` contains the start of the request, the request has not grown. */
  lemma StartsExactly(fl0: seq<Lock>, p: int, q: Request, fl: seq<Lock>, i: int, s: int, e: int, w: set<int>)
    requires Scanning(fl0, p, q, fl, i, s, e, w) && i < |fl| && fl[i].pid == p && fl[i].start < s
    ensures s == q.start
  {
    var m := |fl0| - (|fl| - i);
    assert fl[i] == fl[i..][0] == fl0[m..][0] == fl0[m];
  }

  // ----- the end -----

  /** Nothing is inserted for an unlock. */
  lemma FinishUnlock(fl0: seq<Lock>, p: int, q: Request, fl: seq<Lock>, s: int, e: int, w: set<int>)
    requires Scanned(fl0, p, q, fl, s, e, w) && q.typ == UNLCK
    ensures Adjusted(fl0, p, q, fl, w)
  {
    forall b, t ensures Holds(fl, p, b, t) <==> Wanted(fl0, p, q, b, t) {
      assert Wanted(fl, p, Request(s, e, q.typ), b, t) <==> Wanted(fl0, p, q, b, t);
      if s <= b < e {
        forall x | x in fl && x.pid == p ensures !(x.start <= b < x.end) { assert Clears(x, s, e, q.typ); }
      }
    }
  }

  /** `k` separates the records that start at or before `s` from those that start at or after it. */
  predicate LockPlace(fl: seq<Lock>, s: int, k: int) {
    0 <= k <= |fl| && (forall j :: 0 <= j < k ==> fl[j].start <= s) && (forall j :: k <= j < |fl| ==> s <= fl[j].start)
  }

  /** The new lock is inserted. */
  lemma FinishLock(fl0: seq<Lock>, p: int, q: Request, fl: seq<Lock>, s: int, e: int, w: set<int>, k: int, r: Lock)
    requires Scanned(fl0, p, q, fl, s, e, w) && q.typ != UNLCK && LockPlace(fl, s, k)
    requires r == Lock(r.id, s, e, q.typ, p, 0) && forall x :: x in fl ==> x.id != r.id
    ensures Adjusted(fl0, p, q, InsertAt(fl, k, r), w)
  {
    var fl' := InsertAt(fl, k, r);
    InsertFacts(fl, k, r);
    forall j | 0 <= j < |fl| && fl[j].pid == p ensures if j < k then Before(fl[j], r) else Before(r, fl[j]) {
      assert fl[j] in fl && Clears(fl[j], s, e, q.typ);
    }
    InsertCanonical(fl, k, r, p, s);
    forall b, t ensures Holds(fl', p, b, t) <==> Wanted(fl0, p, q, b, t) {
      assert Wanted(fl, p, Request(s, e, q.typ), b, t) <==> Wanted(fl0, p, q, b, t);
      FinishHolds(fl, fl', p, q, s, e, r, b, t);
    }
    FinishSorted(fl, s, k, r);
  }

  lemma FinishHolds(fl: seq<Lock>, fl': seq<Lock>, p: int, q: Request, s: int, e: int, r: Lock, b: int, t: LockType)
    requires s < e && q.typ != UNLCK && r == Lock(r.id, s, e, q.typ, p, 0)
    requires forall x :: x in fl' <==> x in fl || x == r
    requires forall x :: x in fl && x.pid == p ==> Clears(x, s, e, q.typ)
    ensures Holds(fl', p, b, t) <==> Wanted(fl, p, Request(s, e, q.typ), b, t)
  {
    assert r in fl';
    if Holds(fl', p, b, t) {
      var x :| x in fl' && x.pid == p && x.start <= b < x.end && x.typ == t;
      assert x == r || x in fl;
    }
    if Holds(fl, p, b, t) {
      var x :| x in fl && x.pid == p && x.start <= b < x.end && x.typ == t;
      assert x in fl' && Clears(x, s, e, q.typ);
    }
  }

  lemma FinishSorted(fl: seq<Lock>, s: int, k: int, r: Lock)
    requires LockPlace(fl, s, k) && r.start == s
    ensures Sorted(InsertAt(fl, k, r)) <==> Sorted(fl)
  {
    InsertMembers(fl, k, r);
    var fl' := InsertAt(fl, k, r);
    if Sorted(fl') {
      forall i, j | 0 <= i < j < |fl| ensures fl[i].start <= fl[j].start {
        var i', j' := if i < k then i else i + 1, if j < k then j else j + 1;
        assert fl'[i'].start <= fl'[j'].start;
      }
    }
    if Sorted(fl) {
      forall i, j | 0 <= i < j < |fl'| ensures fl'[i].start <= fl'[j].start {
        var i', j' := if i < k then i else i - 1, if j < k then j else j - 1;
        if i != k && j != k { assert fl[i'].start <= fl[j'].start; }
      }
    }
  }

  // ----- where the new lock will go -----

  /** `ins` is the record after which the search for the place of the new lock starts. */
  predicate Gap(fl: seq<Lock>, ins: int, s: int) {
    && -1 <= ins < |fl| && (forall j :: 0 <= j <= ins ==> fl[j].start <= s)
    && (ins == -1 ==> forall j :: 0 <= j < |fl| ==> s <= fl[j].start)
  }

  lemma ScanFacts(fl0: seq<Lock>, p: int, q: Request, fl: seq<Lock>, i: int, s: int, e: int, w: set<int>)
    requires Scanning(fl0, p, q, fl, i, s, e, w)
    ensures 0 <= i <= |fl| && WellFormed(fl) && Sorted(fl) && Canonical(fl, p) && s <= q.start < e == q.end
  {
  }

  /** A request that has grown to the left has passed everything that starts before it. */
  lemma NotGrown(fl0: seq<Lock>, p: int, q: Request, fl: seq<Lock>, i: int, s: int, e: int, w: set<int>)
    requires Scanning(fl0, p, q, fl, i, s, e, w) && i < |fl| && fl[i].pid == p && fl[i].start < s
    ensures s == q.start
  {
    var m := |fl0| - (|fl| - i);
    assert fl[i] == fl[i..][0] == fl0[m..][0] == fl0[m];
  }

  lemma ScannedFacts(fl0: seq<Lock>, p: int, q: Request, fl: seq<Lock>, s: int, e: int, w: set<int>)
    requires Scanned(fl0, p, q, fl, s, e, w)
    ensures WellFormed(fl) && PrefixBelow(fl, s) && s <= q.start < q.end <= e
  {
  }

  /** The record before one that does not start after `s`. */
  lemma GapBefore(fl: seq<Lock>, i: nat, s: int)
    requires i < |fl| && Sorted(fl) && fl[i].start == s
    ensures Gap(Delete(fl, i), i - 1, s)
    ensures forall td: Lock :: s <= td.start ==> Gap(fl[i := td], i - 1, s)
  {
  }

  lemma GapKept(fl: seq<Lock>, i: nat, s: int, ins: int)
    requires i < |fl| && Gap(fl, ins, s) && s <= fl[i].start
    ensures ins < i ==> Gap(Delete(fl, i), ins, s) && forall td: Lock :: s <= td.start ==> Gap(fl[i := td], ins, s)
    ensures ins == i ==> fl[i].start == s
  {
  }

  lemma GapAt(fl: seq<Lock>, i: nat, s: int)
    requires i < |fl| && Sorted(fl) && fl[i].start <= s
    ensures Gap(fl, i, s)
  {
  }

  lemma GapMiddle(fl: seq<Lock>, i: nat, s: int, td: Lock, k: int)
    requires i < k <= |fl| && Sorted(fl) && fl[i].start < s
    ensures Gap(InsertAt(fl, k, td)[i := Head(fl[i], s)], i, s)
  {
    InsertMembers(fl, k, td);
    var fl' := InsertAt(fl, k, td)[i := Head(fl[i], s)];
    forall j | 0 <= j <= i ensures fl'[j].start <= s { assert fl[j].start <= fl[i].start; }
  }

  /** `last` is where a search from `ins` on for the last record that starts before `s` ends. */
  predicate LastPlace(fl: seq<Lock>, ins: int, s: int, last: int) {
    if ins == -1 then last == -1
    else
      && 0 <= ins <= last < |fl| && (fl[ins].start >= s ==> last == ins)
      && (fl[ins].start < s ==> TailPlace(fl, ins, s, last + 1))
  }

  lemma GapPlace(fl: seq<Lock>, ins: int, s: int, last: int)
    requires Gap(fl, ins, s) && PrefixBelow(fl, s)
    requires LastPlace(fl, ins, s, last)
    ensures LockPlace(fl, s, last + 1)
  {
    if ins != -1 && fl[ins].start < s && last + 1 < |fl| {
      Later(fl, last + 1, s);
    }
  }

  lemma GapBound(fl: seq<Lock>, ins: int, s: int)
    requires Gap(fl, ins, s)
    ensures -1 <= ins < |fl|
  {
  }

  /** The new record `r` behind the last one before it. */
  lemma PutLock(fl0: seq<Lock>, p: int, q: Request, fl: seq<Lock>, s: int, e: int, w: set<int>, ins: int, last: int,
        r: Lock)
    requires Scanned(fl0, p, q, fl, s, e, w) && q.typ != UNLCK && Gap(fl, ins, s)
    requires LastPlace(fl, ins, s, last)
    requires r == Lock(r.id, s, e, q.typ, p, 0) && forall x :: x in fl ==> x.id != r.id
    ensures Adjusted(fl0, p, q, InsertAt(fl, last + 1, r), w)
  {
    hide Scanned, Adjusted;
    ScannedFacts(fl0, p, q, fl, s, e, w);
    GapPlace(fl, ins, s, last);
    FinishLock(fl0, p, q, fl, s, e, w, last + 1, r);
  }

  lemma Later(fl: seq<Lock>, k: nat, s: int)
    requires PrefixBelow(fl, s) && k < |fl| && s <= fl[k].start
    ensures forall j :: k <= j < |fl| ==> s <= fl[j].start
  {
  }

  // ----- when the free records run out -----

  /** The locks of `p` from position `i` on are those before the call. */
  lemma AheadHolds(fl0: seq<Lock>, p: int, q: Request, fl: seq<Lock>, i: int, s: int, e: int, w: set<int>)
    requires Scanning(fl0, p, q, fl, i, s, e, w) && i < |fl| && fl[i].pid == p
    requires WellFormed(fl0) && Canonical(fl0, p)
    ensures fl[i] in fl0
    ensures forall b, t :: fl[i].start <= b < fl[i].end ==>
      ((Holds(fl, p, b, t) <==> t == fl[i].typ) && (Holds(fl0, p, b, t) <==> t == fl[i].typ))
  {
    var m := |fl0| - (|fl| - i);
    assert fl[i] == fl[i..][0] == fl0[m..][0] == fl0[m];
    assert fl[i] in fl && fl0[m] in fl0;
    forall b, t | fl[i].start <= b < fl[i].end
      ensures (Holds(fl, p, b, t) <==> t == fl[i].typ) && (Holds(fl0, p, b, t) <==> t == fl[i].typ)
    {
      OnlyOne(fl, p, i, b);
      OnlyOne(fl0, p, m, b);
    }
  }

  /** Before the record at `i` the request has been cleared. */
  lemma ClearedBefore(fl0: seq<Lock>, p: int, q: Request, fl: seq<Lock>, i: int, s: int, e: int, w: set<int>, b: int,
        t: LockType)
    requires Scanning(fl0, p, q, fl, i, s, e, w) && i < |fl| && fl[i].pid == p && s <= b < fl[i].start
    ensures !Holds(fl, p, b, t)
  {
    assert fl[i] in fl;
    forall j | 0 <= j < |fl| && fl[j].pid == p ensures !(fl[j].start <= b < fl[j].end) {
      if i < j { assert Before(fl[i], fl[j]); }
    }
  }

  /** There is no record for the tail of the record at `i`. */
  lemma TailFails(fl0: seq<Lock>, p: int, q: Request, fl: seq<Lock>, i: int, s: int, e: int, w: set<int>)
    requires Scanning(fl0, p, q, fl, i, s, e, w) && i < |fl| && fl[i].pid == p && fl[i].typ != q.typ
    requires fl[i].start < e < fl[i].end && s == q.start && WellFormed(fl0) && Canonical(fl0, p)
    ensures Failed(fl0, p, q, 0, fl, w)
  {
    var x := if fl[i].start < s then s else fl[i].start;
    AheadHolds(fl0, p, q, fl, i, s, e, w);
    assert fl[i] in fl0 && Tail(fl[i], p, q);
    assert Cleared(fl0, p, q.(end := x), fl) by {
      forall b, t ensures Holds(fl, p, b, t) <==> Wanted(fl0, p, Request(q.start, x, UNLCK), b, t) {
        assert Wanted(fl, p, Request(s, e, q.typ), b, t) <==> Wanted(fl0, p, q, b, t);
        if s <= b < fl[i].start { ClearedBefore(fl0, p, q, fl, i, s, e, w, b, t); }
      }
    }
  }

  /** There is no record for the new lock. */
  lemma LockFails(fl0: seq<Lock>, p: int, q: Request, free: nat, fl: seq<Lock>, w: set<int>)
    requires Scanned(fl0, p, q, fl, q.start, q.end, w) && (free == 0 ==> !HasTail(fl0, p, q))
    ensures Failed(fl0, p, q, free, fl, w)
  {
    if Misplaces(fl0, p, q) { MisplacedTail(fl0, p, q); }
    forall b, t ensures Holds(fl, p, b, t) <==> Wanted(fl0, p, q.(typ := UNLCK), b, t) {
      assert Wanted(fl, p, q, b, t) <==> Wanted(fl0, p, q, b, t);
    }
  }

  /** What is misplaced is a tail. */
  lemma MisplacedTail(fl0: seq<Lock>, p: int, q: Request)
    requires Misplaces(fl0, p, q)
    ensures HasTail(fl0, p, q)
  {
    var i, j :| 0 <= i < j < |fl0| && fl0[i].pid == p && fl0[j].pid != p
      && fl0[i].typ != q.typ && fl0[i].start < q.end < fl0[i].end && q.start <= fl0[j].start < q.end;
    assert fl0[i] in fl0 && Tail(fl0[i], p, q);
  }

  /** A call that runs out of records leaves the caller its locks exactly when the request meets
      none of them, or, with no free record at all, only one that reaches beyond it. */
  lemma FailedKeeps(fl0: seq<Lock>, p: int, q: Request, free: nat, fl: seq<Lock>)
    requires WellFormed(fl0) && Canonical(fl0, p) && q.start < q.end && LeftAt(fl0, p, q, free, fl)
    ensures (forall b, t :: Holds(fl, p, b, t) <==> Holds(fl0, p, b, t)) <==>
      forall r :: r in fl0 && r.pid == p && r.start < q.end && q.start < r.end ==> free == 0 && Tail(r, p, q)
  {
    if free == 0 && HasTail(fl0, p, q) {
      var r :| r in fl0 && Tail(r, p, q)
        && Cleared(fl0, p, q.(end := if r.start < q.start then q.start else r.start), fl);
      ShortKeeps(fl0, p, q, fl, r);
    } else if r :| r in fl0 && r.pid == p && r.start < q.end && q.start < r.end && !(free == 0 && Tail(r, p, q)) {
      LosesByte(fl0, p, q, fl, r);
    }
  }

  /** A lock that the cleared request meets loses a byte. */
  lemma LosesByte(fl0: seq<Lock>, p: int, q: Request, fl: seq<Lock>, r: Lock)
    requires Cleared(fl0, p, q, fl) && r in fl0 && r.pid == p && r.start < q.end && q.start < r.end
    requires r.start < r.end && q.start < q.end
    ensures !(forall b, t :: Holds(fl, p, b, t) <==> Holds(fl0, p, b, t))
  {
    var b := if r.start < q.start then q.start else r.start;
    assert Holds(fl0, p, b, r.typ);
    assert !Wanted(fl0, p, q.(typ := UNLCK), b, r.typ);
  }

  lemma ShortKeeps(fl0: seq<Lock>, p: int, q: Request, fl: seq<Lock>, r: Lock)
    requires WellFormed(fl0) && Canonical(fl0, p) && r in fl0 && Tail(r, p, q) && q.start < q.end
    requires Cleared(fl0, p, q.(end := if r.start < q.start then q.start else r.start), fl)
    ensures (forall b, t :: Holds(fl, p, b, t) <==> Holds(fl0, p, b, t)) <==>
      forall y :: y in fl0 && y.pid == p && y.start < q.end && q.start < y.end ==> Tail(y, p, q)
  {
    var x := if r.start < q.start then q.start else r.start;
    var k :| 0 <= k < |fl0| && fl0[k] == r;
    if y :| y in fl0 && y.pid == p && y.start < q.end && q.start < y.end && !Tail(y, p, q) {
      var j :| 0 <= j < |fl0| && fl0[j] == y;
      assert j > k ==> Before(fl0[k], fl0[j]);
      assert j < k ==> Before(fl0[j], fl0[k]);
      LosesByte(fl0, p, q.(end := x), fl, y);
    } else {
      forall b, t ensures Holds(fl, p, b, t) <==> Holds(fl0, p, b, t) {
        assert Holds(fl, p, b, t) <==> Wanted(fl0, p, Request(q.start, x, UNLCK), b, t);
        if q.start <= b < x { NothingBelow(fl0, p, q, k, b, t); }
      }
    }
  }

  /** If all that the request meets has a tail, it meets only the record at `k`. */
  lemma NothingBelow(fl0: seq<Lock>, p: int, q: Request, k: nat, b: int, t: LockType)
    requires WellFormed(fl0) && Canonical(fl0, p) && k < |fl0| && Tail(fl0[k], p, q) && q.start <= b < fl0[k].start
    requires forall y :: y in fl0 && y.pid == p && y.start < q.end && q.start < y.end ==> Tail(y, p, q)
    ensures !Holds(fl0, p, b, t)
  {
    assert fl0[k] in fl0;
    forall j | 0 <= j < |fl0| && fl0[j].pid == p ensures !(fl0[j].start <= b < fl0[j].end) {
      assert fl0[j] in fl0;
      if k < j { assert Before(fl0[k], fl0[j]); }
      if j < k { assert Before(fl0[j], fl0[k]); }
    }
  }

  /** Nothing from position `i` on starts before `s`. */
  predicate Passed(fl: seq<Lock>, i: int, s: int) {
    forall j :: i <= j < |fl| ==> 0 <= j && s <= fl[j].start
  }

  lemma PassedDelete(fl: seq<Lock>, i: nat, s: int)
    requires i < |fl| && Sorted(fl) && s <= fl[i].start
    ensures Passed(Delete(fl, i), i, s)
  {
  }

  lemma PassedMore(fl: seq<Lock>, i: nat, s: int)
    ensures Passed(fl, i, s) ==> Passed(fl, i + 1, s)
    ensures i < |fl| && fl[i].start < s ==> !Passed(fl, i, s)
  {
  }

  /** How the scan goes on after a record has been dealt with. */
  datatype Move = Continue | Halt | Return | Full

  ghost predicate Moved(m: Move, fl0: seq<Lock>, p: int, q: Request, fl: seq<Lock>, i: int, s: int, e: int,
        w: set<int>, ins: int)
  {
    match m
    case Continue => -1 <= ins < |fl| && Scanning(fl0, p, q, fl, i, s, e, w) && (q.typ != UNLCK ==> Gap(fl, ins, s))
    case Halt => -1 <= ins < |fl| && Scanned(fl0, p, q, fl, s, e, w) && (q.typ != UNLCK ==> Gap(fl, ins, s))
    case Return => Adjusted(fl0, p, q, fl, w)
    case Full => Failed(fl0, p, q, 0, fl, w)
  }

  // ----- where the scan starts -----

  /** A lock of another process that excludes the request. */
  predicate Conflicts(r: Lock, q: Request, p: int) {
    && r.pid != p && q.start < r.end && r.start < q.end
    && (r.typ == WRLCK || (r.typ == RDLCK && q.typ == WRLCK))
  }

  /** `insrt` is a proper starting point for a lock request of `p`. */
  predicate Admitted(fl: seq<Lock>, p: int, q: Request, insrt: int) {
    && -1 <= insrt < |fl|
    && (forall j :: 0 <= j <= insrt ==> fl[j].start < q.start)
    && (forall j :: 0 <= j < insrt && fl[j].pid == p ==> fl[j].end < q.start)
    && (insrt == -1 ==> forall j :: 0 <= j < |fl| ==> q.start <= fl[j].start)
  }

  lemma ScanFrom(fl: seq<Lock>, p: int, q: Request, insrt: int)
    requires WellFormed(fl) && Sorted(fl) && Canonical(fl, p) && q.start < q.end
    requires if q.typ == UNLCK then insrt == (if fl == [] then -1 else 0) else Admitted(fl, p, q, insrt)
    ensures Moved(Continue, fl, p, q, fl, if insrt == -1 then 0 else insrt, q.start, q.end, {}, insrt)
  {
    ScanStart(fl, p, q, if insrt == -1 then 0 else insrt);
  }

  // ----- the search for a lock in the way -----

  /** The second loop of `blocked`: up to the first record that starts behind the request. */
  function SearchOn(fl: seq<Lock>, q: Request, p: int, g: nat): int
    requires g <= |fl|
    decreases |fl| - g
  {
    if g == |fl| then -1
    else if Conflicts(fl[g], q, p) then g
    else if fl[g].start > q.end then -1
    else SearchOn(fl, q, p, g + 1)
  }

  /** The first loop of `blocked`, which passes over the records that start before the request and
      stops early at one of the process itself that touches it. */
  function Search(fl: seq<Lock>, q: Request, p: int, f: nat): int
    requires f <= |fl|
    decreases |fl| - f
  {
    if f == |fl| || fl[f].start >= q.start then SearchOn(fl, q, p, f)
    else if fl[f].pid == p then
      if q.start <= fl[f].end && q.end >= fl[f].start then SearchOn(fl, q, p, f) else Search(fl, q, p, f + 1)
    else if Conflicts(fl[f], q, p) then f
    else Search(fl, q, p, f + 1)
  }

  lemma {:induction false} SearchOnExact(fl: seq<Lock>, q: Request, p: int, g: nat)
    requires g <= |fl| && Sorted(fl)
    ensures SearchOn(fl, q, p, g) == -1 <==> forall j :: g <= j < |fl| ==> !Conflicts(fl[j], q, p)
    ensures SearchOn(fl, q, p, g) != -1 ==>
      g <= SearchOn(fl, q, p, g) < |fl| && Conflicts(fl[SearchOn(fl, q, p, g)], q, p)
    decreases |fl| - g
  {
    if g < |fl| { SearchOnExact(fl, q, p, g + 1); }
  }

  /** On a sorted list the search finds a conflicting lock exactly when there is one. */
  lemma {:induction false} SearchExact(fl: seq<Lock>, q: Request, p: int, f: nat)
    requires f <= |fl| && Sorted(fl)
    ensures Search(fl, q, p, f) == -1 <==> forall j :: f <= j < |fl| ==> !Conflicts(fl[j], q, p)
    ensures Search(fl, q, p, f) != -1 ==> f <= Search(fl, q, p, f) < |fl| && Conflicts(fl[Search(fl, q, p, f)], q, p)
    decreases |fl| - f
  {
    SearchOnExact(fl, q, p, f);
    if f < |fl| { SearchExact(fl, q, p, f + 1); }
  }
}
