/** How many records a call needs: when it fails for want of one. */
module LockCount {
  import opened LockList
  import opened LockSteps

  /** A record of the process that the request swallows, or merges with. */
  predicate Freed(r: Lock, p: int, q: Request) {
    r.pid == p && if r.typ == q.typ then q.start <= r.end && r.start <= q.end else q.start <= r.start && r.end <= q.end
  }

  /** A record of the process that reaches beyond the request on both sides, and is of another type. */
  predicate Split(r: Lock, p: int, q: Request) {
    r.pid == p && r.typ != q.typ && r.start < q.start && q.end < r.end
  }

  /** A record of the process that says already what is asked. */
  predicate Says(r: Lock, p: int, q: Request) {
    r.pid == p && r.typ == q.typ && r.start <= q.start && q.end <= r.end
  }

  predicate SomeFreed(fl: seq<Lock>, p: int, q: Request) {
    exists r :: r in fl && Freed(r, p, q)
  }

  predicate SomeSplit(fl: seq<Lock>, p: int, q: Request) {
    exists r :: r in fl && Split(r, p, q)
  }

  predicate SomeSays(fl: seq<Lock>, p: int, q: Request) {
    exists r :: r in fl && Says(r, p, q)
  }

  /** With `n` free records the call cannot be carried out. A record is needed for the lock, and one for a tail
      before its old record is given back; one that becomes free on the way can be used again. */
  predicate Lacks(fl: seq<Lock>, p: int, q: Request, n: nat) {
    && !SomeSays(fl, p, q)
    && if SomeSplit(fl, p, q) then n < if q.typ == UNLCK then 1 else 2
       else n == 0 && !SomeFreed(fl, p, q) && (q.typ != UNLCK || HasTail(fl, p, q))
  }

  // ----- the count while the list is scanned -----

  /** The first `m` records are done, and `free` are free of the `n` there were: nothing has been given back,
      or something has. */
  ghost predicate Tally(fl0: seq<Lock>, p: int, q: Request, n: nat, m: int, s: int, free: nat) {
    && 0 <= m <= |fl0| && n <= free
    && if free == n then
         s == q.start && forall j :: 0 <= j < m ==> !Freed(fl0[j], p, q) && !Split(fl0[j], p, q) && !Tail(fl0[j], p, q)
       else SomeFreed(fl0, p, q)
  }

  /** With `free` records left behind the scan, the request is carried out exactly if it can be. */
  ghost predicate Enough(fl0: seq<Lock>, p: int, q: Request, n: nat, free: nat) {
    Lacks(fl0, p, q, n) <==> q.typ != UNLCK && free == 0
  }

  lemma ScanIndex(fl0: seq<Lock>, p: int, q: Request, fl: seq<Lock>, i: int, s: int, e: int, w: set<int>)
    requires Scanning(fl0, p, q, fl, i, s, e, w)
    ensures var m := |fl0| - (|fl| - i);
      && 0 <= m <= |fl0| && (i < |fl| ==> m < |fl0| && fl0[m] == fl[i])
      && forall j :: m <= j < |fl0| ==> fl0[j] == fl[i + (j - m)]
  {
    var m := |fl0| - (|fl| - i);
    forall j | m <= j < |fl0| ensures fl0[j] == fl[i + (j - m)] {
      assert fl0[j] == fl0[m..][j - m] == fl[i..][j - m];
    }
  }

  /** What a record of the process that is split, or has a tail, excludes. */
  lemma Alone(fl0: seq<Lock>, p: int, q: Request, r: Lock)
    requires WellFormed(fl0) && Canonical(fl0, p) && q.start < q.end && r in fl0
    ensures Split(r, p, q) ==> !SomeFreed(fl0, p, q) && !SomeSays(fl0, p, q)
    ensures Tail(r, p, q) ==> !SomeSays(fl0, p, q)
    ensures Tail(r, p, q) && q.start <= r.start ==> !SomeSplit(fl0, p, q)
    ensures Freed(r, p, q) ==> !SomeSplit(fl0, p, q)
  {
    forall x | x in fl0 && x.pid == p && r.pid == p && x != r ensures x.end <= r.start || r.end <= x.start {
      OwnApart(fl0, p, x, r);
    }
  }

  lemma OwnApart(fl0: seq<Lock>, p: int, x: Lock, r: Lock)
    requires Canonical(fl0, p) && x in fl0 && r in fl0 && x.pid == p && r.pid == p && x != r
    requires x.start < x.end && r.start < r.end
    ensures x.end <= r.start || r.end <= x.start
    ensures x.end == r.start || r.end == x.start ==> x.typ != r.typ
  {
  }

  lemma EnoughIs(fl0: seq<Lock>, p: int, q: Request, n: nat, free: nat)
    requires Enough(fl0, p, q, n, free)
    ensures Lacks(fl0, p, q, n) <==> q.typ != UNLCK && free == 0
  {
    hide Lacks;
  }

  lemma TallyStart(fl0: seq<Lock>, p: int, q: Request, n: nat, insrt: int)
    requires if q.typ == UNLCK then insrt == (if fl0 == [] then -1 else 0) else Admitted(fl0, p, q, insrt)
    requires WellFormed(fl0) && q.start < q.end
    ensures Tally(fl0, p, q, n, if insrt == -1 then 0 else insrt, q.start, n)
  {
    forall j | 0 <= j < insrt ensures fl0[j].pid == p ==> fl0[j].end < q.start { assert fl0[j] in fl0; }
  }

  /** A record that is left alone, or cut at its end. */
  lemma TallyKept(fl0: seq<Lock>, p: int, q: Request, n: nat, m: int, s: int, free: nat)
    requires Tally(fl0, p, q, n, m, s, free) && m < |fl0| && q.start < q.end
    requires fl0[m].pid == p ==>
      fl0[m].start < s && fl0[m].end <= q.end && (fl0[m].end < s || (s <= fl0[m].end && fl0[m].typ != q.typ))
    ensures Tally(fl0, p, q, n, m + 1, s, free)
  {
  }

  /** A record that is swallowed or merged with. */
  lemma TallyFreed(fl0: seq<Lock>, p: int, q: Request, n: nat, m: int, s: int, free: nat, s': int)
    requires Tally(fl0, p, q, n, m, s, free) && m < |fl0| && fl0[m].pid == p
    requires if fl0[m].typ == q.typ then s <= fl0[m].end && fl0[m].start <= q.end
             else s <= fl0[m].start && fl0[m].end <= q.end
    ensures Tally(fl0, p, q, n, m + 1, s', free + 1)
  {
    if free == n { assert fl0[m] in fl0 && Freed(fl0[m], p, q); }
  }

  /** Something was freed: the request is carried out. */
  lemma FreedEnough(fl0: seq<Lock>, p: int, q: Request, n: nat, m: int, s: int, free: nat)
    requires Tally(fl0, p, q, n, m, s, free) && free > n && WellFormed(fl0) && Canonical(fl0, p) && q.start < q.end
    ensures Enough(fl0, p, q, n, free) && !Lacks(fl0, p, q, n)
  {
    var r :| r in fl0 && Freed(r, p, q);
    Alone(fl0, p, q, r);
  }

  /** All records that the request concerns are done. */
  lemma TallyDone(fl0: seq<Lock>, p: int, q: Request, n: nat, m: int, s: int, free: nat)
    requires Tally(fl0, p, q, n, m, s, free) && WellFormed(fl0) && Canonical(fl0, p) && q.start < q.end
    requires forall j :: m <= j < |fl0| && fl0[j].pid == p ==>
      q.end <= fl0[j].start && (q.end == fl0[j].start ==> fl0[j].typ != q.typ)
    ensures Enough(fl0, p, q, n, free)
  {
    if free > n {
      FreedEnough(fl0, p, q, n, m, s, free);
    } else {
      forall r | r in fl0 ensures !Freed(r, p, q) && !Split(r, p, q) && !Tail(r, p, q) {
        var j :| 0 <= j < |fl0| && fl0[j] == r;
      }
      forall r | r in fl0 ensures Says(r, p, q) ==> Freed(r, p, q) {}
    }
  }

  /** Behind a record that lies behind the request there are only such. */
  lemma AllBehind(fl0: seq<Lock>, p: int, q: Request, m: int)
    requires WellFormed(fl0) && Canonical(fl0, p) && Sorted(fl0) && 0 <= m < |fl0| && q.start < q.end
    requires || q.end < fl0[m].start
             || (fl0[m].pid == p && fl0[m].start == q.end && fl0[m].typ != q.typ)
    ensures forall j :: m <= j < |fl0| && fl0[j].pid == p ==>
      q.end <= fl0[j].start && (q.end == fl0[j].start ==> fl0[j].typ != q.typ)
  {
    forall j | m < j < |fl0| && fl0[j].pid == p ensures q.end < fl0[j].start {
      assert fl0[m].start <= fl0[j].start && fl0[m] in fl0;
      if fl0[m].start == q.end { assert Before(fl0[m], fl0[j]); }
    }
  }

  /** The request is there already. */
  lemma TallySays(fl0: seq<Lock>, p: int, q: Request, n: nat, m: int)
    requires 0 <= m < |fl0| && Says(fl0[m], p, q)
    ensures !Lacks(fl0, p, q, n)
  {
    assert fl0[m] in fl0;
  }

  lemma TallyReturn(fl0: seq<Lock>, p: int, q: Request, n: nat, m: int, s: int, free: nat)
    requires Tally(fl0, p, q, n, m, s, free) && WellFormed(fl0) && Canonical(fl0, p) && q.start < q.end
    requires m < |fl0| && fl0[m].pid == p && fl0[m].typ == q.typ && fl0[m].start <= s && q.end <= fl0[m].end
    ensures !Lacks(fl0, p, q, n)
  {
    if free > n { FreedEnough(fl0, p, q, n, m, s, free); } else { TallySays(fl0, p, q, n, m); }
  }

  /** A record with a tail only. */
  lemma TallyTail(fl0: seq<Lock>, p: int, q: Request, n: nat, m: int, s: int, free: nat)
    requires Tally(fl0, p, q, n, m, s, free) && WellFormed(fl0) && Canonical(fl0, p) && Sorted(fl0) && q.start < q.end
    requires m < |fl0| && Tail(fl0[m], p, q) && s <= fl0[m].start && s <= q.start
    ensures free == 0 ==> Lacks(fl0, p, q, n)
    ensures free > 0 ==> Enough(fl0, p, q, n, free)
  {
    var t := fl0[m];
    if free > n {
      FreedEnough(fl0, p, q, n, m, s, free);
    } else {
      assert t in fl0;
      Alone(fl0, p, q, t);
      forall r | r in fl0 && free == 0 ensures !Freed(r, p, q) {
        var j :| 0 <= j < |fl0| && fl0[j] == r;
        if j > m && r.pid == p { assert Before(t, r); }
      }
    }
  }

  /** A record that is split. */
  lemma TallySplit(fl0: seq<Lock>, p: int, q: Request, n: nat, m: int, s: int, free: nat)
    requires Tally(fl0, p, q, n, m, s, free) && WellFormed(fl0) && Canonical(fl0, p) && q.start < q.end
    requires m < |fl0| && Split(fl0[m], p, q)
    ensures free == n && (free == 0 ==> Lacks(fl0, p, q, n)) && (free > 0 ==> Enough(fl0, p, q, n, free - 1))
  {
    assert fl0[m] in fl0;
    Alone(fl0, p, q, fl0[m]);
  }

  /** An unlock fails exactly when there is no free record, none becomes free, and a lock reaches beyond it. */
  lemma UnlockLacks(fl: seq<Lock>, p: int, q: Request, n: nat)
    requires WellFormed(fl) && Canonical(fl, p) && q.start < q.end && q.typ == UNLCK
    ensures Lacks(fl, p, q, n) <==> n == 0 && !SomeFreed(fl, p, q) && HasTail(fl, p, q)
  {
    forall r | r in fl ensures Split(r, p, q) ==> Tail(r, p, q) && !SomeFreed(fl, p, q) { Alone(fl, p, q, r); }
    forall r | r in fl ensures !Says(r, p, q) {}
  }

  /** So an unlock of the first half of a lock, which leaves one record where one was, fails for want of one. */
  lemma FrontFails()
    ensures Lacks([Lock(1, 0, 10, WRLCK, 1, 0)], 1, Request(0, 5, UNLCK), 0)
  {
    var fl := [Lock(1, 0, 10, WRLCK, 1, 0)];
    assert fl[0] in fl && Tail(fl[0], 1, Request(0, 5, UNLCK));
  }
}
