/** What happens to a caller's locks when the free records run out. */
module LockShortage {
  import opened LockList
  import opened LockSteps
  import opened FileLocks
  import FlockRun

  /** What a process holds when it has just locked [s, e) for writing, and nothing else. */
  lemma OnlyWrite(fl: seq<Lock>, s: int, e: int, w: set<int>)
    requires s < e && Adjusted([], 1, Request(s, e, WRLCK), fl, w)
    ensures forall b, t :: Holds(fl, 1, b, t) <==> s <= b < e && t == WRLCK
    ensures forall r :: r in fl && r.pid == 1 ==> r.end <= e
  {
    forall b, t ensures Holds(fl, 1, b, t) <==> s <= b < e && t == WRLCK {
      assert Holds(fl, 1, b, t) <==> Wanted([], 1, Request(s, e, WRLCK), b, t);
    }
    forall r | r in fl && r.pid == 1 ensures r.end <= e {
      assert Holds(fl, 1, r.end - 1, r.typ);
    }
  }

  /** After a call on an empty list nobody else has locks to stand in the way. */
  lemma NobodyElse(fl: seq<Lock>, q: Request, q': Request, w: set<int>)
    requires Adjusted([], 1, q, fl, w)
    ensures WellFormed(fl) && Sorted(fl) && Canonical(fl, 1) && Search(fl, q', 1, 0) == -1
  {
    FlockRun.OthersMembers(fl, 1);
    SearchExact(fl, q', 1, 0);
    forall j | 0 <= j < |fl| ensures !Conflicts(fl[j], q', 1) { assert fl[j] in fl; }
  }

  /** One record cannot hold locks of two types. */
  lemma SecondFails(fl: seq<Lock>, free: seq<int>, b: int, b': int)
    requires WellFormed(fl) && Records(fl, free) == {7}
    ensures !(Holds(fl, 1, b, WRLCK) && Holds(fl, 1, b', RDLCK))
  {
    forall r, x | r in fl && x in fl ensures r == x {
      assert r.id in Records(fl, free) && x.id in Records(fl, free);
    }
  }

  /** The last five bytes of the lock for reading: the list has no record for it, and the bytes are
      cleared. */
  lemma SecondLoses(fl0: seq<Lock>, o: Outcome, fl: seq<Lock>, free: seq<int>, n: nat, w: set<int>)
    requires forall b, t :: Holds(fl0, 1, b, t) <==> 0 <= b < 10 && t == WRLCK
    requires forall r :: r in fl0 && r.pid == 1 ==> r.end <= 10
    requires Records(fl, free) == {7}
    requires if o == Ok then Adjusted(fl0, 1, Request(5, 10, RDLCK), fl, w)
             else Failed(fl0, 1, Request(5, 10, RDLCK), n, fl, w)
    ensures o == NoSpace && forall t :: !Holds(fl, 1, 7, t)
  {
    var q := Request(5, 10, RDLCK);
    if o == Ok {
      assert Holds(fl, 1, 2, WRLCK) <==> Wanted(fl0, 1, q, 2, WRLCK);
      assert Holds(fl, 1, 7, RDLCK) <==> Wanted(fl0, 1, q, 7, RDLCK);
      SecondFails(fl, free, 2, 7);
    } else {
      assert Cleared(fl0, 1, q, fl);
      forall t ensures !Holds(fl, 1, 7, t) {
        assert Holds(fl, 1, 7, t) <==> Wanted(fl0, 1, q.(typ := UNLCK), 7, t);
      }
    }
  }

  /** The process asks to turn its write lock on the last five bytes into a read lock; the call fails
      for want of a record, and the process has lost its lock on them. */
  method ShortageLosesLock() returns (o: Outcome, before: seq<Lock>, after: seq<Lock>)
    ensures o == NoSpace
    ensures Holds(before, 1, 7, WRLCK) && forall t :: !Holds(after, 1, 7, t)
  {
    hide Adjusted, Failed, Records, Holds;
    OneRecord();
    var pool := new Pool([7]);
    var f := new Flino(pool);
    var first, second := Request(0, 10, WRLCK), Request(5, 10, RDLCK);
    o := f.Flckadj(NULL, first, 1);
    before := f.flck;
    OnlyWrite(before, 0, 10, f.woken);
    NobodyElse(before, first, second, f.woken);
    ghost var n := |pool.frlock|;
    var found, insrt := f.Blocked(second, 1);
    o := f.Flckadj(insrt, second, 1);
    after := f.flck;
    SecondLoses(before, o, after, pool.frlock, n, f.woken);
  }

  lemma OneRecord()
    ensures Records([], [7]) == {7}
  {
  }
}
