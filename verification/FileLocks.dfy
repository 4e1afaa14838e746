/** Setting and clearing record locks: the lock list of one file, edited in place. */
module FileLocks {
  import opened LockList
  import opened LockSteps
  import opened LockCount

  /** Position of a request's start or end relative to an existing record. */
  datatype Region = BEFORE | START | MIDDLE | END | AFTER

  /** A request that starts at or behind the end of the record lies behind it altogether. */
  function Regflck(s: int, e: int, r: Lock): (g: (Region, Region))
  {
    if s > r.start && s > r.end then (AFTER, AFTER)
    else if s > r.start && s == r.end then (END, AFTER)
    else (if s > r.start then MIDDLE else if s == r.start then START else BEFORE,
          if e > r.start then
            if e > r.end then AFTER else if e == r.end then END else MIDDLE
          else if e == r.start then START else BEFORE)
  }

  const NULL := -1

  datatype Outcome = Ok | NoSpace

  /** The free lock records, shared by all files. */
  class Pool {
    var frlock: seq<int>

    constructor (records: seq<int>)
      ensures frlock == records
    {
      frlock := records;
    }
  }

  class Flino {
    var flck: seq<Lock>
    const pool: Pool
    var woken: set<int>          // records whose sleepers the current call has woken

    constructor (pool: Pool)
      ensures flck == [] && this.pool == pool
    {
      this.pool := pool;
      flck, woken := [], {};
    }

    /** Free records are distinct and not in this list. */
    ghost predicate PoolApart()
      reads this, pool
    {
      && (forall r :: r in flck ==> r.id !in pool.frlock)
      && (forall i, j :: 0 <= i < j < |pool.frlock| ==> pool.frlock[i] != pool.frlock[j])
    }

    /** Inserts a record with the given data after the record at `after`, or at the head. */
    method Insflck(d: Lock, pid: int, after: int) returns (ok: bool)
      requires NULL <= after < |flck| && PoolApart()
      modifies this`flck, pool
      ensures ok <==> old(pool.frlock) != []
      ensures !ok ==> flck == old(flck) && pool.frlock == old(pool.frlock)
      ensures ok ==> pool.frlock == old(pool.frlock)[1..]
      ensures ok ==> flck == InsertAt(old(flck), after + 1, d.(id := old(pool.frlock)[0], pid := pid, stat := 0))
      ensures ok ==> forall r :: r in old(flck) ==> r.id != old(pool.frlock)[0]
      ensures PoolApart() && Records(flck, pool.frlock) == old(Records(flck, pool.frlock))
    {
      if pool.frlock == [] {
        return false;
      }
      var r := d.(id := pool.frlock[0], pid := pid, stat := 0);
      InsertRecords(flck, after + 1, r, pool.frlock);
      InsertMembers(flck, after + 1, r);
      pool.frlock := pool.frlock[1..];
      flck := InsertAt(flck, after + 1, r);
      ok := true;
    }

    /** Wakes the processes sleeping on the record at `i`. */
    method Wakeup(i: int)
      requires 0 <= i < |flck|
      modifies this`flck, this`woken
      ensures flck == old(flck)[i := old(flck)[i].(stat := 0)]
      ensures woken == Woken(old(woken), old(flck)[i])
    {
      if flck[i].stat != 0 {
        woken := woken + {flck[i].id};
        flck := flck[i := flck[i].(stat := 0)];
      }
    }

    /** Takes out the record at `i`, waking its sleepers. */
    method Delflck(i: int)
      requires 0 <= i < |flck| && PoolApart()
      requires forall j, k :: 0 <= j < k < |flck| ==> flck[j].id != flck[k].id
      modifies this`flck, this`woken, pool
      ensures flck == Delete(old(flck), i) && woken == Woken(old(woken), old(flck)[i])
      ensures pool.frlock == [old(flck)[i].id] + old(pool.frlock)
      ensures PoolApart() && Records(flck, pool.frlock) == old(Records(flck, pool.frlock))
    {
      var id := flck[i].id;
      ghost var fl := flck;
      DeleteMembers(flck, i);
      DeleteRecords(flck, i, pool.frlock);
      Wakeup(i);
      flck := flck[..i] + flck[i + 1..];
      assert flck == Delete(fl, i);
      pool.frlock := [id] + pool.frlock;
      forall r | r in flck ensures r.id != id && r.id !in old(pool.frlock) {
        var j :| 0 <= j < |flck| && flck[j] == r;
        assert r == fl[if j < i then j else j + 1];
      }
    }

    /** From `from` on, the last of the records in a row that start before `s`, or `from` itself. */
    method LastBelow(from: int, s: int) returns (k: int)
      requires 0 <= from < |flck|
      ensures from <= k < |flck|
      ensures flck[from].start >= s ==> k == from
      ensures flck[from].start < s ==> TailPlace(flck, from, s, k + 1)
    {
      k := from;
      var j := from;
      while j < |flck| && flck[j].start < s
        invariant from <= j <= |flck| && k == (if j == from then from else j - 1)
        invariant forall i :: from <= i < j ==> flck[i].start < s
      {
        k := j;
        j := j + 1;
      }
    }

    /** The tail of the record at `i`, from `at` on, becomes a record of its own. */
    method InsertTail(i: int, at: int, s: int) returns (ok: bool, ghost td: Lock, ghost k: int)
      requires 0 <= i < |flck| && PoolApart()
      modifies this`flck, pool
      ensures ok <==> old(pool.frlock) != []
      ensures !ok ==> flck == old(flck) && pool.frlock == old(pool.frlock)
      ensures PoolApart() && (ok ==> pool.frlock == old(pool.frlock)[1..])
      ensures Records(flck, pool.frlock) == old(Records(flck, pool.frlock))
      ensures ok ==> td == old(flck)[i].(id := old(pool.frlock)[0], start := at, stat := 0)
      ensures ok ==> forall x :: x in old(flck) ==> x.id != td.id
      ensures ok ==> if old(flck)[i].start < s then TailPlace(old(flck), i, s, k) else k == i + 1
      ensures ok ==> i < k <= |old(flck)| && flck == InsertAt(old(flck), k, td)
    {
      var tdi := LastBelow(i, s);
      var data := flck[i].(start := at);
      td := data.(id := if pool.frlock == [] then 0 else pool.frlock[0], stat := 0);
      k := tdi + 1;
      ok := Insflck(data, data.pid, tdi);
    }

    /** The record inside the request is deleted. */
    method TakeOut(ghost fl0: seq<Lock>, ghost q: Request, pid: int, i: int, s: int, e: int, ins0: int)
      returns (ins: int)
      requires Moved(Continue, fl0, pid, q, flck, i, s, e, woken, ins0) && 0 <= i < |flck| && flck[i].pid == pid
      requires s <= flck[i].start && flck[i].end <= e && ins0 <= i && PoolApart()
      modifies this`flck, this`woken, pool
      ensures Moved(Continue, fl0, pid, q, flck, i, s, e, woken, ins) && ins <= i && Passed(flck, i, s)
      ensures PoolApart() && |flck| == |old(flck)| - 1 && |pool.frlock| == |old(pool.frlock)| + 1
      ensures Records(flck, pool.frlock) == old(Records(flck, pool.frlock))
    {
      hide Scanning, Gap, Sorted, Canonical, Records, Passed;
      ScanFacts(fl0, pid, q, flck, i, s, e, woken);
      PassedDelete(flck, i, s);
      ins := if flck[i].start == s || ins0 == i then i - 1 else ins0;
      if flck[i].start == s { GapBefore(flck, i, s); }
      if q.typ != UNLCK { GapKept(flck, i, s, ins0); }
      Remove(fl0, pid, q, flck, i, s, e, woken);
      DeleteMembers(flck, i);
      Delflck(i);
    }

    /** A record of the same type on the right is deleted, and the request takes over its end. */
    method GrowOverRight(ghost fl0: seq<Lock>, ghost q: Request, pid: int, i: int, s: int, e0: int, ins0: int)
      returns (m: Move, e: int, ins: int)
      requires Moved(Continue, fl0, pid, q, flck, i, s, e0, woken, ins0) && 0 <= i < |flck| && flck[i].pid == pid
      requires s < flck[i].start <= e0 <= flck[i].end && flck[i].typ == q.typ && ins0 <= i && PoolApart()
      modifies this`flck, this`woken, pool
      ensures m == Halt && Moved(m, fl0, pid, q, flck, i + 1, s, e, woken, ins)
      ensures PoolApart() && |pool.frlock| == |old(pool.frlock)| + 1
      ensures Records(flck, pool.frlock) == old(Records(flck, pool.frlock))
    {
      hide Scanning, Scanned, Failed, Gap, Sorted, Canonical, Records;
      ScanFacts(fl0, pid, q, flck, i, s, e0, woken);
      m, e := Halt, flck[i].end;
      ins := if ins0 == i then i - 1 else ins0;
      if q.typ != UNLCK { GapKept(flck, i, s, ins0); }
      GrowRight(fl0, pid, q, flck, i, s, e0, woken);
      DeleteMembers(flck, i);
      Delflck(i);
    }

    /** A record of the same type on the left is deleted, and the request takes over its start. */
    method GrowOverLeft(ghost fl0: seq<Lock>, ghost q: Request, pid: int, i: int, s: int, e: int) returns (ins: int)
      requires Scanning(fl0, pid, q, flck, i, s, e, woken) && 0 <= i < |flck| && flck[i].pid == pid
      requires flck[i].start < s <= flck[i].end < e && flck[i].typ == q.typ && PoolApart()
      modifies this`flck, this`woken, pool
      ensures Moved(Continue, fl0, pid, q, flck, i, old(flck)[i].start, e, woken, ins) && ins <= i
      ensures PoolApart() && |flck| == |old(flck)| - 1 && |pool.frlock| == |old(pool.frlock)| + 1
      ensures Records(flck, pool.frlock) == old(Records(flck, pool.frlock))
    {
      hide Scanning, Gap, Sorted, Canonical, Records;
      ScanFacts(fl0, pid, q, flck, i, s, e, woken);
      GapBefore(flck, i, flck[i].start);
      GrowLeft(fl0, pid, q, flck, i, s, e, woken);
      DeleteMembers(flck, i);
      Delflck(i);
      ins := i - 1;
    }

    /** The record keeps only what lies before the request. */
    method CutOff(ghost fl0: seq<Lock>, ghost q: Request, pid: int, i: int, s: int, e: int) returns (ins: int)
      requires Scanning(fl0, pid, q, flck, i, s, e, woken) && 0 <= i < |flck| && flck[i].pid == pid
      requires flck[i].start < s <= flck[i].end <= e && flck[i].typ != q.typ && PoolApart()
      modifies this`flck, this`woken
      ensures Moved(Continue, fl0, pid, q, flck, i + 1, s, e, woken, ins) && ins == i
      ensures PoolApart() && |flck| == |old(flck)|
      ensures Records(flck, pool.frlock) == old(Records(flck, pool.frlock))
    {
      hide Scanning, Gap, Sorted, Canonical, Records;
      ghost var fl := flck;
      Cut(fl0, pid, q, flck, i, s, e, woken);
      flck := flck[i := flck[i].(end := s)];
      Wakeup(i);
      assert flck == fl[i := fl[i].(end := s, stat := 0)];
      UpdateRecords(fl, i, flck[i], pool.frlock);
      ScanFacts(fl0, pid, q, flck, i + 1, s, e, woken);
      GapAt(flck, i, s);
      ins := i;
    }

    /** Only the tail of the record, beyond the request, stays. */
    method SplitTail(ghost fl0: seq<Lock>, ghost q: Request, pid: int, i: int, s: int, e: int, ins0: int)
      returns (m: Move, ins: int)
      requires Moved(Continue, fl0, pid, q, flck, i, s, e, woken, ins0) && 0 <= i < |flck| && flck[i].pid == pid
      requires s <= flck[i].start < e < flck[i].end && flck[i].typ != q.typ && ins0 <= i
      requires PoolApart() && WellFormed(fl0) && Canonical(fl0, pid) && (pool.frlock == [] ==> s == q.start)
      modifies this`flck, this`woken, pool
      ensures Moved(m, fl0, pid, q, flck, i + 1, s, e, woken, ins)
      ensures m == if old(pool.frlock) == [] then Full else Halt
      ensures PoolApart() && |pool.frlock| == |old(pool.frlock)|
      ensures Records(flck, pool.frlock) == old(Records(flck, pool.frlock))
    {
      hide Scanning, Scanned, Failed, Gap, Sorted, Canonical, Records, InsertAt, Delete;
      ScanFacts(fl0, pid, q, flck, i, s, e, woken);
      ghost var fl := flck;
      ins := if flck[i].start == s || ins0 == i then i - 1 else ins0;
      if flck[i].start == s { GapBefore(flck, i, s); }
      if q.typ != UNLCK { GapKept(flck, i, s, ins0); }
      var ok; ghost var td, k;
      ok, td, k := InsertTail(i, e, s);
      if ok {
        SplitWhole(fl0, pid, q, fl, i, s, e, woken, td);
        TailIds(fl, i, td);
        Delflck(i);
        m := Halt;
      } else {
        TailFails(fl0, pid, q, flck, i, s, e, woken);
        m := Full;
      }
    }

    /** The record keeps what lies before the request; what lies beyond becomes a new record. */
    method SplitInside(ghost fl0: seq<Lock>, ghost q: Request, pid: int, i: int, s: int, e: int)
      returns (m: Move, ins: int)
      requires Scanning(fl0, pid, q, flck, i, s, e, woken) && 0 <= i < |flck| && flck[i].pid == pid
      requires flck[i].start < s < e < flck[i].end && flck[i].typ != q.typ
      requires PoolApart() && WellFormed(fl0) && Canonical(fl0, pid)
      modifies this`flck, this`woken, pool
      ensures Moved(m, fl0, pid, q, flck, i + 1, s, e, woken, ins) && s == q.start
      ensures m == if old(pool.frlock) == [] then Full else Halt
      ensures PoolApart() && |pool.frlock| == if m == Full then 0 else |old(pool.frlock)| - 1
      ensures Records(flck, pool.frlock) == old(Records(flck, pool.frlock))
    {
      hide Scanning, Scanned, Failed, Gap, Sorted, Canonical, TailPlace, Records;
      ScanFacts(fl0, pid, q, flck, i, s, e, woken);
      ghost var fl := flck;
      NotGrown(fl0, pid, q, flck, i, s, e, woken);
      ins := i;
      var ok; ghost var td, k;
      ok, td, k := InsertTail(i, e, s);
      if ok {
        SplitMiddle(fl0, pid, q, fl, i, s, e, woken, td, k);
        GapMiddle(fl, i, s, td, k);
        ghost var split := flck;
        flck := flck[i := flck[i].(end := s)];
        Wakeup(i);
        assert flck == split[i := Head(fl[i], s)];
        UpdateRecords(split, i, flck[i], pool.frlock);
        m := Halt;
      } else {
        TailFails(fl0, pid, q, flck, i, s, e, woken);
        m := Full;
      }
    }

    /** What is known of the number of free records after a turn of the scan. */
    ghost predicate Counted(m: Move, fl0: seq<Lock>, q: Request, pid: int, i: int, s: int, n: nat)
      reads this, pool
    {
      match m
      case Continue => Tally(fl0, pid, q, n, |fl0| - (|flck| - i), s, |pool.frlock|)
      case Halt => Enough(fl0, pid, q, n, |pool.frlock|)
      case Return => !Lacks(fl0, pid, q, n)
      case Full => Lacks(fl0, pid, q, n)
    }

    /** What holds after a turn of the scan; `left` is more than the number of records that are left. */
    ghost predicate Turned(m: Move, fl0: seq<Lock>, q: Request, pid: int, i: int, s: int, e: int, ins: int, n: nat,
        left: int)
      reads this, pool
    {
      && Moved(m, fl0, pid, q, flck, i, s, e, woken, ins) && PoolApart() && Counted(m, fl0, q, pid, i, s, n)
      && (m == Continue ==> |flck| - i < left && ins <= i && n <= |pool.frlock|)
      && (m == Continue && |pool.frlock| > n ==> s < q.start || Passed(flck, i, s))
      && (m == Halt ==> |pool.frlock| >= n - 1 && (pool.frlock == [] ==> n == 1 || !HasTail(fl0, pid, q)))
      && (m == Full ==> pool.frlock == [] && n == 0)
      && (m == Continue || m == Halt ==> (pool.frlock == [] ==> s == q.start && e == q.end))
    }

    /** The cases in which the request starts before the record. */
    method ExamineBefore(ghost fl0: seq<Lock>, ghost q: Request, pid: int, typ: LockType, i: int, s0: int, e0: int,
        ins0: int, ghost n: nat)
      returns (m: Move, next: int, s: int, e: int, ins: int)
      requires Turned(Continue, fl0, q, pid, i, s0, e0, ins0, n, |flck| - i + 1) && typ == q.typ
      requires 0 <= i < |flck| && flck[i].pid == pid && WellFormed(fl0) && Canonical(fl0, pid) && Sorted(fl0)
      requires s0 < flck[i].start
      modifies this`flck, this`woken, pool
      ensures Turned(m, fl0, q, pid, next, s, e, ins, n, old(|flck|) - i)
      ensures Records(flck, pool.frlock) == old(Records(flck, pool.frlock))
    {
      hide Scanning, Scanned, Adjusted, Failed, HasTail, Gap, Records, Passed, Tally, Enough, Lacks;
      ScanFacts(fl0, pid, q, flck, i, s0, e0, woken);
      PassedMore(flck, i, s0);
      s, e, ins, next := s0, e0, ins0, i + 1;
      m := Continue;
      var same := typ == flck[i].typ;
      ghost var k, free := |fl0| - (|flck| - i), |pool.frlock|;
      ScanIndex(fl0, pid, q, flck, i, s, e, woken);
      match Regflck(s, e, flck[i]) {
        case (BEFORE, BEFORE) =>
          StopBeyond(fl0, pid, q, flck, i, s, e, woken);
          AllBehind(fl0, pid, q, k);
          TallyDone(fl0, pid, q, n, k, s, free);
          m := Halt;
        case (BEFORE, START) =>
          if same {
            TallyFreed(fl0, pid, q, n, k, s, free, s);
            FreedEnough(fl0, pid, q, n, k + 1, s, free + 1);
            m, e, ins := GrowOverRight(fl0, q, pid, i, s, e, ins);
          } else {
            StopTouching(fl0, pid, q, flck, i, s, e, woken);
            AllBehind(fl0, pid, q, k);
            TallyDone(fl0, pid, q, n, k, s, free);
            m := Halt;
          }
        case (BEFORE, END) =>
          if same {
            TallyFreed(fl0, pid, q, n, k, s, free, s);
            FreedEnough(fl0, pid, q, n, k + 1, s, free + 1);
            m, e, ins := GrowOverRight(fl0, q, pid, i, s, e, ins);
          } else {
            TallyFreed(fl0, pid, q, n, k, s, free, s);
            ins := TakeOut(fl0, q, pid, i, s, e, ins);
            next := i;
          }
        case (BEFORE, AFTER) =>
          TallyFreed(fl0, pid, q, n, k, s, free, s);
          ins := TakeOut(fl0, q, pid, i, s, e, ins);
          next := i;
        case (BEFORE, MIDDLE) =>
          if same {
            TallyFreed(fl0, pid, q, n, k, s, free, s);
            FreedEnough(fl0, pid, q, n, k + 1, s, free + 1);
            m, e, ins := GrowOverRight(fl0, q, pid, i, s, e, ins);
          } else {
            TallyTail(fl0, pid, q, n, k, s, free);
            m, ins := SplitTail(fl0, q, pid, i, s, e, ins);
          }
      }
    }

    /** Deals with one record of the calling process: the cases of the switch in `flckadj`. */
    method Examine(ghost fl0: seq<Lock>, ghost q: Request, pid: int, typ: LockType, i: int, s0: int, e0: int,
        ins0: int, ghost n: nat)
      returns (m: Move, next: int, s: int, e: int, ins: int)
      requires Turned(Continue, fl0, q, pid, i, s0, e0, ins0, n, |flck| - i + 1) && typ == q.typ
      requires 0 <= i < |flck| && flck[i].pid == pid && WellFormed(fl0) && Canonical(fl0, pid) && Sorted(fl0)
      modifies this`flck, this`woken, pool
      ensures Turned(m, fl0, q, pid, next, s, e, ins, n, old(|flck|) - i)
      ensures Records(flck, pool.frlock) == old(Records(flck, pool.frlock))
    {
      hide Scanning, Scanned, Adjusted, Failed, HasTail, Gap, Records, Passed, Tally, Enough, Lacks;
      ScanFacts(fl0, pid, q, flck, i, s0, e0, woken);
      PassedMore(flck, i, s0);
      if flck[i].start < s0 { NotGrown(fl0, pid, q, flck, i, s0, e0, woken); }
      s, e, ins, next := s0, e0, ins0, i + 1;
      m := Continue;
      var same := typ == flck[i].typ;
      ghost var k, free := |fl0| - (|flck| - i), |pool.frlock|;
      ScanIndex(fl0, pid, q, flck, i, s, e, woken);
      match Regflck(s, e, flck[i]) {
        case (BEFORE, _) =>
          m, next, s, e, ins := ExamineBefore(fl0, q, pid, typ, i, s0, e0, ins0, n);
        case (START, END) =>
          if same {
            TallyReturn(fl0, pid, q, n, k, s, free);
            AlreadySet(fl0, pid, q, flck, i, s, e, woken);
            m := Return;
          } else {
            TallyFreed(fl0, pid, q, n, k, s, free, s);
            ins := TakeOut(fl0, q, pid, i, s, e, ins);
            next := i;
          }
        case (START, AFTER) =>
          TallyFreed(fl0, pid, q, n, k, s, free, s);
          ins := TakeOut(fl0, q, pid, i, s, e, ins);
          next := i;
        case (START, MIDDLE) =>
          if same {
            TallyReturn(fl0, pid, q, n, k, s, free);
            AlreadySet(fl0, pid, q, flck, i, s, e, woken);
            m := Return;
          } else {
            TallyTail(fl0, pid, q, n, k, s, free);
            m, ins := SplitTail(fl0, q, pid, i, s, e, ins);
          }
        case (MIDDLE, MIDDLE) =>
          if same {
            TallyReturn(fl0, pid, q, n, k, s, free);
            AlreadySet(fl0, pid, q, flck, i, s, e, woken);
            m := Return;
          } else {
            TallySplit(fl0, pid, q, n, k, s, free);
            m, ins := SplitInside(fl0, q, pid, i, s, e);
          }
        case (MIDDLE, END) =>
          if same {
            TallyReturn(fl0, pid, q, n, k, s, free);
            AlreadySet(fl0, pid, q, flck, i, s, e, woken);
            m := Return;
          } else {
            TallyKept(fl0, pid, q, n, k, s, free);
            ins := CutOff(fl0, q, pid, i, s, e);
          }
        case (MIDDLE, AFTER) =>
          if same {
            var start := flck[i].start;
            TallyFreed(fl0, pid, q, n, k, s, free, start);
            ins := GrowOverLeft(fl0, q, pid, i, s, e);
            s, next := start, i;
          } else {
            TallyKept(fl0, pid, q, n, k, s, free);
            ins := CutOff(fl0, q, pid, i, s, e);
          }
        case (END, AFTER) =>
          if same {
            var start := flck[i].start;
            TallyFreed(fl0, pid, q, n, k, s, free, start);
            ins := GrowOverLeft(fl0, q, pid, i, s, e);
            s, next := start, i;
          } else {
            TallyKept(fl0, pid, q, n, k, s, free);
            ins := CutOff(fl0, q, pid, i, s, e);
          }
        case (AFTER, AFTER) =>
          TallyKept(fl0, pid, q, n, k, s, free);
          Skip(fl0, pid, q, flck, i, s, e, woken);
          GapAt(flck, i, s);
          ins := i;
      }
    }

    /** A record of another process ends the scan or is passed over. */
    lemma OtherTurn(fl0: seq<Lock>, q: Request, pid: int, i: int, s: int, e: int, ins: int, n: nat)
      requires Turned(Continue, fl0, q, pid, i, s, e, ins, n, |flck| - i + 1)
      requires 0 <= i < |flck| && flck[i].pid != pid && WellFormed(fl0) && Canonical(fl0, pid) && Sorted(fl0)
      ensures if flck[i].start > e then Turned(Halt, fl0, q, pid, i, s, e, ins, n, |flck| - i + 1)
              else Turned(Continue, fl0, q, pid, i + 1, s, e, ins, n, |flck| - i)
    {
      hide Scanning, Scanned, Adjusted, Failed, HasTail, Gap, Records, Passed, Tally, Enough, Lacks;
      hide Canonical, WellFormed;
      ScanIndex(fl0, pid, q, flck, i, s, e, woken);
      ScanFacts(fl0, pid, q, flck, i, s, e, woken);
      if flck[i].start > e {
        StopBeyond(fl0, pid, q, flck, i, s, e, woken);
        AllBehind(fl0, pid, q, |fl0| - (|flck| - i));
        TallyDone(fl0, pid, q, n, |fl0| - (|flck| - i), s, |pool.frlock|);
      } else {
        TallyKept(fl0, pid, q, n, |fl0| - (|flck| - i), s, |pool.frlock|);
        Skip(fl0, pid, q, flck, i, s, e, woken);
        PassedMore(flck, i, s);
      }
    }

    /** Sets or clears a lock of process `pid`; the scan starts at the record `insrt`. */
    method Flckadj(insrt: int, ld: Request, pid: int) returns (o: Outcome)
      requires WellFormed(flck) && Sorted(flck) && Canonical(flck, pid) && ld.start < ld.end
      requires PoolApart()
      requires if ld.typ == UNLCK then insrt == (if flck == [] then NULL else 0)
               else Admitted(flck, pid, ld, insrt)
      modifies this`flck, this`woken, pool
      ensures o == NoSpace <==> Lacks(old(flck), pid, ld, |old(pool.frlock)|)
      ensures o == Ok ==> Adjusted(old(flck), pid, ld, flck, woken)
      ensures o == NoSpace ==>
        Failed(old(flck), pid, ld, |old(pool.frlock)|, flck, woken) && pool.frlock == [] && |old(pool.frlock)| <= 1
      ensures PoolApart() && Records(flck, pool.frlock) == old(Records(flck, pool.frlock))
    {
      hide Scanning, Scanned, Adjusted, Failed, HasTail, Gap, Sorted, Canonical, WellFormed, Records, Passed;
      hide Tally, Enough, Lacks;
      ghost var fl0, n := flck, |pool.frlock|;
      var s, e, insrtp := ld.start, ld.end, insrt;
      var i := if insrt == NULL then 0 else insrt;
      woken := {};
      ScanFrom(flck, pid, ld, insrt);
      TallyStart(flck, pid, ld, n, insrt);
      var m := Continue;
      while m == Continue && i < |flck|
        invariant Turned(m, fl0, ld, pid, i, s, e, insrtp, n, |flck| - i + 1) && (m == Continue ==> 0 <= i <= |flck|)
        invariant Records(flck, pool.frlock) == old(Records(flck, pool.frlock))
        decreases m == Continue, |flck| - i
      {
        if flck[i].pid == pid {
          m, i, s, e, insrtp := Examine(fl0, ld, pid, ld.typ, i, s, e, insrtp, n);
          if m == Continue { ScanFacts(fl0, pid, ld, flck, i, s, e, woken); }
        } else {
          OtherTurn(fl0, ld, pid, i, s, e, insrtp, n);
          if flck[i].start > e {
            m := Halt;
          } else {
            i := i + 1;
          }
        }
      }
      o := Ok;
      if m == Full {
        o := NoSpace;
      } else if m != Return {
        if m == Continue {
          Stop(fl0, pid, ld, flck, i, s, e, woken);
          TallyDone(fl0, pid, ld, n, |fl0| - (|flck| - i), s, |pool.frlock|);
        }
        ScannedFacts(fl0, pid, ld, flck, s, e, woken);
        EnoughIs(fl0, pid, ld, n, |pool.frlock|);
        if ld.typ != UNLCK {
          o := InsertLock(fl0, ld, pid, s, e, insrtp, n);
        } else {
          FinishUnlock(fl0, pid, ld, flck, s, e, woken);
        }
      }
    }

    /** The last step of `Flckadj`: the record for the request, as far as it has grown. */
    method InsertLock(ghost fl0: seq<Lock>, ld: Request, pid: int, s: int, e: int, insrtp: int, ghost n: nat)
      returns (o: Outcome)
      requires Scanned(fl0, pid, ld, flck, s, e, woken) && ld.typ != UNLCK && Gap(flck, insrtp, s)
      requires PoolApart() && (pool.frlock == [] ==> s == ld.start && e == ld.end)
      requires pool.frlock == [] && n == 0 ==> !HasTail(fl0, pid, ld)
      modifies this`flck, pool
      ensures o == if old(pool.frlock) == [] then NoSpace else Ok
      ensures if o == Ok then Adjusted(fl0, pid, ld, flck, woken) else Failed(fl0, pid, ld, n, flck, woken)
      ensures o == NoSpace ==> pool.frlock == []
      ensures PoolApart()
      ensures Records(flck, pool.frlock) == old(Records(flck, pool.frlock))
    {
      GapBound(flck, insrtp, s);
      hide Scanned, Adjusted, Failed, HasTail, Gap, TailPlace, InsertAt, Records;
      var after := insrtp;
      if insrtp != NULL {
        after := LastBelow(insrtp, s);
      }
      ghost var fl := flck;
      var ok := Insflck(Lock(0, s, e, ld.typ, pid, 0), pid, after);
      if ok {
        PutLock(fl0, pid, ld, fl, s, e, woken, insrtp, after, Lock(old(pool.frlock)[0], s, e, ld.typ, pid, 0));
        o := Ok;
      } else {
        LockFails(fl0, pid, ld, n, flck, woken);
        o := NoSpace;
      }
    }

    /** Looks for a lock of another process that stands in the way of the request; `insrt` is the
        record after which, at the earliest, the new lock would be put. */
    method Blocked(lck: Request, pid: int) returns (found: int, insrt: int)
      ensures found == Search(flck, lck, pid, 0)
      ensures found == NULL && Sorted(flck) && lck.start < lck.end ==> Admitted(flck, pid, lck, insrt)
    {
      insrt := NULL;
      var f := 0;
      while f < |flck|
        invariant 0 <= f <= |flck| && insrt == f - 1
        invariant Search(flck, lck, pid, 0) == Search(flck, lck, pid, f)
        invariant forall j :: 0 <= j < f ==> flck[j].start < lck.start
        invariant forall j :: 0 <= j < f && flck[j].pid == pid ==>
          !(lck.start <= flck[j].end && lck.end >= flck[j].start)
      {
        if flck[f].start < lck.start {
          insrt := f;
        } else {
          break;
        }
        if flck[f].pid == pid {
          if lck.start <= flck[f].end && lck.end >= flck[f].start {
            insrt := f;
            break;
          }
        } else if lck.start < flck[f].end && lck.end > flck[f].start
            && (flck[f].typ == WRLCK || (flck[f].typ == RDLCK && lck.typ == WRLCK)) {
          return f, insrt;
        }
        f := f + 1;
      }
      var g := f;
      while g < |flck|
        invariant f <= g <= |flck|
        invariant Search(flck, lck, pid, 0) == SearchOn(flck, lck, pid, g)
      {
        if lck.start < flck[g].end && lck.end > flck[g].start && flck[g].pid != pid
            && (flck[g].typ == WRLCK || (flck[g].typ == RDLCK && lck.typ == WRLCK)) {
          return g, insrt;
        }
        if flck[g].start > lck.end {
          break;
        }
        g := g + 1;
      }
      found := NULL;
    }

    /** Drops all locks of a process, as when it closes the file. */
    method Cleanlocks(pid: int)
      requires WellFormed(flck) && PoolApart()
      modifies this`flck, this`woken, pool
      ensures flck == Others(old(flck), pid) && WellFormed(flck) && PoolApart()
      ensures Records(flck, pool.frlock) == old(Records(flck, pool.frlock))
      ensures NoLostWakeup(old(flck), flck, woken)
    {
      OthersNone(pid);
      hide WellFormed, NoLostWakeup, Records, Others, Delete, Woken;
      woken := {};
      NothingLost(flck);
      var i := 0;
      ghost var fl0 := flck;
      while i < |flck|
        invariant 0 <= i <= |flck| && WellFormed(flck) && PoolApart()
        invariant Records(flck, pool.frlock) == old(Records(flck, pool.frlock))
        invariant flck[..i] == Others(flck[..i], pid) && Others(flck, pid) == Others(fl0, pid)
        invariant NoLostWakeup(fl0, flck, woken)
        decreases |flck| - i
      {
        if flck[i].pid == pid {
          DeleteFacts(flck, i, pid);
          DeleteMembers(flck, i);
          WakeDeleted(fl0, flck, i, woken);
          WellFormedIds(flck);
          DeletePrefix(flck, i);
          Delflck(i);
        } else {
          OthersNext(flck, i, pid);
          i := i + 1;
        }
      }
      assert flck[..i] == flck;
    }
  }

  lemma NothingLost(fl: seq<Lock>)
    ensures NoLostWakeup(fl, fl, {})
  {
  }

  lemma TailIds(fl: seq<Lock>, i: nat, td: Lock)
    requires i < |fl| && WellFormed(fl) && forall x :: x in fl ==> x.id != td.id
    ensures var g := InsertAt(fl, i + 1, td); |g| == |fl| + 1 && g[i] == fl[i] && Delete(g, i) == fl[i := td]
    ensures var g := InsertAt(fl, i + 1, td); forall j, k :: 0 <= j < k < |g| ==> g[j].id != g[k].id
  {
    InsertMembers(fl, i + 1, td);
    InsertIds(fl, i + 1, td);
  }

  lemma OthersNone(p: int)
    ensures Others([], p) == []
  {
  }

  lemma OthersNext(fl: seq<Lock>, i: nat, p: int)
    requires i < |fl| && fl[i].pid != p && fl[..i] == Others(fl[..i], p)
    ensures fl[..i + 1] == Others(fl[..i + 1], p)
  {
    OthersConcat(fl[..i], [fl[i]], p);
    assert fl[..i + 1] == fl[..i] + [fl[i]];
  }

  lemma DeletePrefix(fl: seq<Lock>, i: nat)
    requires i < |fl|
    ensures |Delete(fl, i)| == |fl| - 1 && Delete(fl, i)[..i] == fl[..i]
  {
  }

  lemma WellFormedIds(fl: seq<Lock>)
    requires WellFormed(fl)
    ensures forall j, k :: 0 <= j < k < |fl| ==> fl[j].id != fl[k].id
  {
  }

  lemma WakeDeleted(fl0: seq<Lock>, fl: seq<Lock>, i: nat, w: set<int>)
    requires i < |fl| && NoLostWakeup(fl0, fl, w) && WellFormed(fl)
    ensures NoLostWakeup(fl0, Delete(fl, i), Woken(w, fl[i]))
  {
    DeleteFacts(fl, i, fl[i].pid);
  }
}
