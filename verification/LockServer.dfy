/** One trip around the loop of `setflck`: what a locking call does until it returns or sleeps. */
module LockServer {
  import opened LockList
  import opened LockSteps
  import opened LockCount
  import opened WaitGraph
  import opened FileLocks
  import opened FlockRun

  /** Each lock record is in one place: the list of one file, the list of sleepers, or the free list. */
  ghost predicate Apart(s: State, free: seq<int>) {
    && (forall f, g, r, x :: f != g && r in Locks(s, f) && x in Locks(s, g) ==> r.id != x.id)
    && (forall f, r :: r in Locks(s, f) ==> r.id !in free && r.id !in Entries(s.sl))
    && (forall i :: 0 <= i < |s.sl| ==> s.sl[i].id !in free)
    && (forall i, j :: 0 <= i < j < |s.sl| ==> s.sl[i].id != s.sl[j].id)
    && (forall i, j :: 0 <= i < j < |free| ==> free[i] != free[j])
  }

  function Entries(sl: seq<Sleeper>): set<int> {
    set e | e in sl :: e.id
  }

  /** All lock records there are. */
  function AllRecords(s: State, free: seq<int>): set<int> {
    (set f, r | f in s.files && r in s.files[f] :: r.id) + Entries(s.sl) + (set x | x in free)
  }

  /** Two states with the same locks and sleepers. */
  ghost predicate Same(s: State, s': State) {
    (forall f :: Locks(s', f) == Locks(s, f)) && s'.sl == s.sl
  }

  lemma NextSame(s0: State, s: State, e: Event, s': State)
    requires Same(s0, s) && Next(s, e, s')
    ensures Next(s0, e, s')
  {
    hide Step;
    assert !e.Resume? ==> Locks(s0, e.f) == Locks(s, e.f);
    assert forall g :: Locks(s0, g) == Locks(s, g);
  }

  lemma InvSame(s: State, s': State)
    requires Same(s, s') && Inv(s)
    ensures Inv(s')
  {
    hide FileInv, Acyclic, OneEdgeEach, Watched;
    forall f ensures FileInv(Locks(s', f)) { assert FileInv(Locks(s, f)); }
    assert forall f :: Locks(s', f) == Locks(s, f);
  }

  /** The calls `es` have led through the states `ss` to `s`. */
  ghost predicate Logged(ss: seq<State>, es: seq<Event>, s: State) {
    Run(ss, es) && Same(ss[|es|], s)
  }

  /** None of the calls has misplaced a tail. */
  predicate Orderly(ss: seq<State>, es: seq<Event>)
    requires |ss| > |es|
  {
    forall i :: 0 <= i < |es| ==> !Disorders(ss[i], es[i])
  }

  lemma LoggedInv(ss: seq<State>, es: seq<Event>, s: State)
    requires Logged(ss, es, s) && Orderly(ss, es)
    ensures Inv(s)
  {
    RunInv(ss, es, |es|);
    InvSame(ss[|es|], s);
  }

  lemma LogMore(ss: seq<State>, es: seq<Event>, s: State, e: Event, s': State)
    requires Logged(ss, es, s) && Next(s, e, s')
    ensures Logged(ss + [s'], es + [e], s')
  {
    NextSame(ss[|es|], s, e, s');
    hide Next;
    var ss', es' := ss + [s'], es + [e];
    forall i | 0 <= i < |es'| ensures Next(ss'[i], es'[i], ss'[i + 1]) {
      if i < |es| { assert Next(ss[i], es[i], ss[i + 1]); }
    }
  }

  lemma LogSame(ss: seq<State>, es: seq<Event>, s: State, s': State)
    requires Logged(ss, es, s) && Same(s, s')
    ensures Logged(ss, es, s')
  {
    hide Next;
    assert forall f :: Locks(ss[|es|], f) == Locks(s, f);
  }

  lemma LoggedWrites(ss: seq<State>, es: seq<Event>, s: State)
    requires Logged(ss, es, s) && WritesOnly(es)
    ensures Orderly(ss, es) && Inv(s) && forall f :: AllWrite(Locks(s, f)) && Disjoint(Locks(s, f))
  {
    hide Next, Disorders, AllWrite, Disjoint, Inv;
    WriteRun(ss, es, |es|);
    InvSame(ss[|es|], s);
    forall f ensures AllWrite(Locks(s, f)) && Disjoint(Locks(s, f)) {
      assert AllWrite(Locks(ss[|es|], f)) && Disjoint(Locks(ss[|es|], f));
    }
  }

  // ----- where the records are -----

  /** One file and the free list exchange records. */
  lemma Exchange(s: State, f: int, fl: seq<Lock>, sl: seq<Sleeper>, free: seq<int>, free': seq<int>)
    requires Apart(s, free) && Records(fl, free') == Records(Locks(s, f), free)
    requires (forall r :: r in fl ==> r.id !in free') && forall i, j :: 0 <= i < j < |free'| ==> free'[i] != free'[j]
    requires |sl| == |s.sl| && forall i :: 0 <= i < |sl| ==> sl[i].id == s.sl[i].id
    ensures Apart(State(s.files[f := fl], sl), free')
    ensures AllRecords(State(s.files[f := fl], sl), free') == AllRecords(s, free)
  {
    var s' := State(s.files[f := fl], sl);
    EntriesSame(s.sl, sl);
    forall r | r in fl ensures r.id in Records(fl, free') {}
    forall x | x in free' ensures x in Records(fl, free') {}
    Beyond(s, f, free);
    forall g, h, r, x | g != h && r in Locks(s', g) && x in Locks(s', h) ensures r.id != x.id {
      assert g != f ==> r in Locks(s, g);
      assert h != f ==> x in Locks(s, h);
    }
    forall g, r | r in Locks(s', g) ensures r.id !in free' && r.id !in Entries(sl) {
      if g != f { assert r in Locks(s, g); }
    }
    forall i | 0 <= i < |sl| ensures sl[i].id !in free' { assert s.sl[i].id in Entries(s.sl); }
    RecordsSplit(s, f, free);
    RecordsSplit(s', f, free');
    assert OthersRecords(s', f) == OthersRecords(s, f) by {
      assert forall g :: g != f ==> (g in s'.files <==> g in s.files) && (g in s.files ==> s'.files[g] == s.files[g]);
    }
  }

  lemma EntriesSame(sl: seq<Sleeper>, sl': seq<Sleeper>)
    requires |sl| == |sl'| && forall i :: 0 <= i < |sl| ==> sl'[i].id == sl[i].id
    ensures Entries(sl') == Entries(sl)
  {
    forall x | x in Entries(sl) ensures x in Entries(sl') {
      var i :| 0 <= i < |sl| && sl[i].id == x;
      assert sl'[i] in sl';
    }
    forall x | x in Entries(sl') ensures x in Entries(sl) {
      var i :| 0 <= i < |sl| && sl'[i].id == x;
      assert sl[i] in sl;
    }
  }

  /** The records of the other files and of the sleepers are not among those of this file. */
  lemma Beyond(s: State, f: int, free: seq<int>)
    requires Apart(s, free)
    ensures forall g, r :: g != f && r in Locks(s, g) ==> r.id !in Records(Locks(s, f), free)
    ensures forall x :: x in Entries(s.sl) ==> x !in Records(Locks(s, f), free)
  {
  }

  function OthersRecords(s: State, f: int): set<int> {
    set g, r | g in s.files && g != f && r in s.files[g] :: r.id
  }

  lemma RecordsSplit(s: State, f: int, free: seq<int>)
    ensures AllRecords(s, free) == OthersRecords(s, f) + Records(Locks(s, f), free) + Entries(s.sl)
  {
    var here := set g, r | g in s.files && r in s.files[g] :: r.id;
    var own := set r | r in Locks(s, f) :: r.id;
    forall x | x in here ensures x in OthersRecords(s, f) + own {
      var g, r :| g in s.files && r in s.files[g] && r.id == x;
      if g == f { assert r in Locks(s, f); }
    }
    forall x | x in own ensures x in here {
      var r :| r in Locks(s, f) && r.id == x;
      assert f in s.files && r in s.files[f];
    }
    assert here == OthersRecords(s, f) + own;
  }

  /** The records of one file are not free, and the free ones are distinct. */
  lemma Own(s: State, f: int, free: seq<int>)
    requires Apart(s, free)
    ensures forall r :: r in Locks(s, f) ==> r.id !in free
    ensures forall i, j :: 0 <= i < j < |free| ==> free[i] != free[j]
  {
  }

  lemma WakenIds(sl: seq<Sleeper>, w: set<int>)
    ensures |Waken(sl, w)| == |sl| && forall i :: 0 <= i < |sl| ==> Waken(sl, w)[i].id == sl[i].id
  {
  }

  lemma AdjustNext(s: State, f: int, p: int, q: Request, fl: seq<Lock>, w: set<int>)
    requires !Sleeps(s.sl, p) && q.start < q.end && Adjusted(Locks(s, f), p, q, fl, w)
    requires q.typ != UNLCK ==> forall r :: r in Locks(s, f) ==> !Conflicts(r, q, p)
    ensures var e := if q.typ == UNLCK then Release(f, p, q) else Grant(f, p, q);
      Next(s, e, State(s.files[f := fl], Waken(s.sl, w)))
  {
  }

  lemma FailNext(s: State, f: int, p: int, q: Request, free: nat, fl: seq<Lock>, w: set<int>)
    requires !Sleeps(s.sl, p) && q.start < q.end && Failed(Locks(s, f), p, q, free, fl, w)
    ensures Next(s, Shortage(f, p, q, free), State(s.files[f := fl], Waken(s.sl, w)))
  {
  }

  /** A free record becomes the entry of a sleeper. */
  lemma EntryTaken(s: State, e: Sleeper, free: seq<int>)
    requires Apart(s, free) && free != [] && e.id == free[0]
    ensures Apart(State(s.files, [e] + s.sl), free[1..])
    ensures AllRecords(State(s.files, [e] + s.sl), free[1..]) == AllRecords(s, free)
  {
    hide Entries;
    var s' := State(s.files, [e] + s.sl);
    EntriesAdd(e, s.sl);
    assert free == [free[0]] + free[1..];
    assert forall f :: Locks(s', f) == Locks(s, f);
    assert forall i :: 0 <= i < |free[1..]| ==> free[1..][i] == free[i + 1];
    forall i, j | 0 <= i < j < |s'.sl| ensures s'.sl[i].id != s'.sl[j].id { assert s'.sl[j] == s.sl[j - 1]; }
    FreeSet(free);
  }

  /** The entry of a sleeper that runs again becomes free. */
  lemma EntryGiven(s: State, i: nat, free: seq<int>)
    requires Apart(s, free) && i < |s.sl|
    ensures Apart(State(s.files, RemoveAt(s.sl, i)), [s.sl[i].id] + free)
    ensures AllRecords(State(s.files, RemoveAt(s.sl, i)), [s.sl[i].id] + free) == AllRecords(s, free)
  {
    GivenApart(s, i, free);
    hide Apart, RemoveAt;
    EntriesRemove(s.sl, i);
    FreeSet([s.sl[i].id] + free);
    assert ([s.sl[i].id] + free)[1..] == free;
  }

  lemma GivenApart(s: State, i: nat, free: seq<int>)
    requires Apart(s, free) && i < |s.sl|
    ensures Apart(State(s.files, RemoveAt(s.sl, i)), [s.sl[i].id] + free)
  {
    hide Entries;
    var s' := State(s.files, RemoveAt(s.sl, i));
    var free' := [s.sl[i].id] + free;
    EntriesRemove(s.sl, i);
    assert forall f :: Locks(s', f) == Locks(s, f);
    assert free'[1..] == free;
    forall j, k | 0 <= j < k < |s'.sl| ensures s'.sl[j].id != s'.sl[k].id {
      assert s'.sl[j] == s.sl[if j < i then j else j + 1] && s'.sl[k] == s.sl[if k < i then k else k + 1];
    }
    forall j | 0 <= j < |s'.sl| ensures s'.sl[j].id !in free' {
      assert s'.sl[j] == s.sl[if j < i then j else j + 1];
    }
  }

  lemma EntriesAdd(e: Sleeper, sl: seq<Sleeper>)
    ensures Entries([e] + sl) == Entries(sl) + {e.id}
  {
    assert forall x :: x in [e] + sl <==> x == e || x in sl;
  }

  lemma EntriesRemove(sl: seq<Sleeper>, i: nat)
    requires i < |sl|
    ensures Entries(sl) == Entries(RemoveAt(sl, i)) + {sl[i].id}
  {
    assert sl == sl[..i] + [sl[i]] + sl[i + 1..];
    assert forall x :: x in sl <==> x in RemoveAt(sl, i) || x == sl[i];
  }

  lemma FreeSet(free: seq<int>)
    requires free != []
    ensures (set x | x in free) == {free[0]} + (set x | x in free[1..])
  {
    assert free == [free[0]] + free[1..];
  }

  /** A flag does not change whose a record is. */
  lemma FlagFree(s: State, f: int, i: nat, r: Lock, free: seq<int>)
    requires Apart(s, free) && i < |Locks(s, f)| && r.id == Locks(s, f)[i].id
    ensures forall x :: x in Locks(s, f)[i := r] ==> x.id !in free
    ensures forall j, k :: 0 <= j < k < |free| ==> free[j] != free[k]
  {
    assert Locks(s, f)[i] in Locks(s, f);
    forall x | x in Locks(s, f)[i := r] ensures x.id !in free {
      var j :| 0 <= j < |Locks(s, f)| && Locks(s, f)[i := r][j] == x;
      assert Locks(s, f)[j] in Locks(s, f);
    }
  }

  /** Where there is no list there is nothing to unlock, and nothing to drop. */
  lemma NothingHeld(s: State, f: int, p: int, q: Request)
    requires f !in s.files && !Sleeps(s.sl, p) && q.start < q.end && q.typ == UNLCK
    ensures Next(s, Release(f, p, q), s)
  {
    assert Waken(s.sl, {}) == s.sl;
    assert Adjusted([], p, q, [], {});
  }

  lemma NothingClosed(s: State, f: int, p: int)
    requires f !in s.files && !Sleeps(s.sl, p)
    ensures Next(s, Close(f, p), s)
  {
    assert Waken(s.sl, {}) == s.sl;
    assert NoLostWakeup([], [], {});
  }

  datatype Reply = Granted | Slept | WouldBlock | Deadlock | NoRecords

  predicate InTheWay(fl: seq<Lock>, q: Request, p: int) {
    q.typ != UNLCK && exists x :: x in fl && Conflicts(x, q, p)
  }

  /** The reply to a request, on the list `fl`, with `n` free records and the sleepers `sl`: unless a lock is in
      the way it is granted whenever there are records enough; otherwise the caller sleeps if he may, has a
      record to sleep on, and waits for nobody who waits for him. */
  ghost predicate Answered(r: Reply, fl: seq<Lock>, q: Request, p: int, mayWait: bool, n: nat, sl: seq<Sleeper>) {
    if !InTheWay(fl, q, p) then r == if Lacks(fl, p, q, n) then NoRecords else Granted
    else if !mayWait then r == WouldBlock
    else
      exists x :: (x in fl && Conflicts(x, q, p)
                   && r == if Leads(sl, x.pid, p) then Deadlock else if n == 0 then NoRecords else Slept)
  }

  lemma NothingLacks(p: int, q: Request, n: nat)
    requires q.typ == UNLCK
    ensures !Lacks([], p, q, n)
  {
  }

  class LockServer {
    const pool: Pool
    var files: map<int, Flino>
    var sleepers: seq<Sleeper>
    ghost var ss: seq<State>     // the states since the start
    ghost var es: seq<Event>     // the calls between them

    constructor (pool: Pool)
      requires forall i, j :: 0 <= i < j < |pool.frlock| ==> pool.frlock[i] != pool.frlock[j]
      ensures Valid() && Recorded() && St() == State(map[], []) && es == [] && this.pool == pool
    {
      this.pool := pool;
      files, sleepers := map[], [];
      ss, es := [State(map[], [])], [];
    }

    ghost predicate Valid()
      reads this`files, this`sleepers, pool, files.Values
    {
      && (forall f :: f in files ==> files[f].pool == pool)
      && (forall f, g :: f in files && g in files && f != g ==> files[f] != files[g])
      && Apart(St(), pool.frlock)
    }

    ghost function St(): State
      reads this`files, this`sleepers, files.Values
    {
      State(map f | f in files :: files[f].flck, sleepers)
    }

    ghost predicate Recorded()
      reads this, files.Values
    {
      Logged(ss, es, St())
    }

    ghost function Everything(): set<int>
      reads this`files, this`sleepers, pool, files.Values
    {
      AllRecords(St(), pool.frlock)
    }

    /** Makes the (empty) list of a file. */
    method Allocfid(f: int)
      requires Valid() && f !in files
      modifies this`files
      ensures Valid() && f in files && fresh(files[f]) && Same(old(St()), St()) && Everything() == old(Everything())
    {
      ghost var s, was := St(), files;
      var file := new Flino(pool);
      files := files[f := file];
      forall g | g in was ensures files[g] == was[g] && was[g].flck == s.files[g] {}
      assert St().files == s.files[f := []];
      Exchange(s, f, [], s.sl, pool.frlock, pool.frlock);
    }

    /** The list of the file is edited, and sleepers are woken. */
    method Adjust(f: int, insrt: int, q: Request, p: int) returns (o: Outcome)
      requires Valid() && f in files && FileInv(files[f].flck) && q.start < q.end && !Sleeps(sleepers, p)
      requires if q.typ == UNLCK then insrt == (if files[f].flck == [] then NULL else 0)
               else Admitted(files[f].flck, p, q, insrt) && forall r :: r in files[f].flck ==> !Conflicts(r, q, p)
      modifies this`sleepers, files[f], pool
      ensures Valid() && Everything() == old(Everything())
      ensures o == NoSpace <==> Lacks(old(files[f].flck), p, q, |old(pool.frlock)|)
      ensures o == Ok ==> Next(old(St()), if q.typ == UNLCK then Release(f, p, q) else Grant(f, p, q), St())
      ensures o == NoSpace ==> Next(old(St()), Shortage(f, p, q, |old(pool.frlock)|), St()) && pool.frlock == []
    {
      hide Adjusted, Failed, FileInv, Apart, AllRecords, Records, Sleeps, Waken, Next, Lacks;
      FileFacts(files[f].flck);
      Own(St(), f, pool.frlock);
      ghost var s, free := St(), pool.frlock;
      o := files[f].Flckadj(insrt, q, p);
      sleepers := Waken(sleepers, files[f].woken);
      forall g | g in files && g != f ensures files[g].flck == s.files[g] {}
      assert St() == State(s.files[f := files[f].flck], Waken(s.sl, files[f].woken));
      WakenIds(s.sl, files[f].woken);
      Exchange(s, f, files[f].flck, sleepers, free, pool.frlock);
      if o == Ok {
        AdjustNext(s, f, p, q, files[f].flck, files[f].woken);
      } else {
        FailNext(s, f, p, q, |free|, files[f].flck, files[f].woken);
      }
    }

    /** The caller goes to sleep on the record at `found`. */
    method Sleep(f: int, found: int, q: Request, p: int) returns (ok: bool)
      requires Valid() && f in files && 0 <= found < |files[f].flck| && Conflicts(files[f].flck[found], q, p)
      requires !Sleeps(sleepers, p) && !Leads(sleepers, files[f].flck[found].pid, p)
      modifies this`sleepers, files[f], pool
      ensures Valid() && Everything() == old(Everything())
      ensures ok <==> old(pool.frlock) != []
      ensures ok ==> exists id :: Next(old(St()), Block(f, p, q, found, id), St())
      ensures !ok ==> St() == old(St()) && pool.frlock == []
    {
      hide Apart, AllRecords, Records, Sleeps, Leads;
      ghost var s, free := St(), pool.frlock;
      ok := pool.frlock != [];
      if ok {
        var r := files[f].flck[found];
        var entry := Sleeper(pool.frlock[0], p, r.pid, f, r, false);
        sleepers := [entry] + sleepers;
        files[f].flck := files[f].flck[found := r.(stat := r.stat + 1)];
        pool.frlock := pool.frlock[1..];
        ghost var fl := Locks(s, f)[found := r.(stat := r.stat + 1)];
        forall g | g in files && g != f ensures files[g].flck == s.files[g] {}
        assert St() == State(s.files[f := fl], [entry] + s.sl);
        UpdateRecords(Locks(s, f), found, r.(stat := r.stat + 1), free);
        FlagFree(s, f, found, r.(stat := r.stat + 1), free);
        Exchange(s, f, fl, s.sl, free, free);
        EntryTaken(State(s.files[f := fl], s.sl), entry, free);
        assert Next(s, Block(f, p, q, found, entry.id), St());
      }
    }

    /** The record at `found` is in the way. Whatever the list is like, nobody goes to sleep who would wait
        for himself. */
    method Wait(f: int, found: int, q: Request, p: int) returns (r: Reply)
      requires Valid() && f in files && 0 <= found < |files[f].flck| && Conflicts(files[f].flck[found], q, p)
      requires !Sleeps(sleepers, p) && OneEdgeEach(sleepers) && Acyclic(sleepers)
      modifies this`sleepers, files[f], pool
      ensures Valid() && Everything() == old(Everything()) && OneEdgeEach(sleepers) && Acyclic(sleepers)
      ensures r == Slept || r == Deadlock || r == NoRecords
      ensures r == Slept ==> exists id :: Next(old(St()), Block(f, p, q, found, id), St())
      ensures r == Deadlock <==> old(Leads(sleepers, files[f].flck[found].pid, p))
      ensures r == Deadlock ==> St() == old(St())
      ensures r != Deadlock ==> r == if old(pool.frlock) == [] then NoRecords else Slept
      ensures r == NoRecords ==> St() == old(St()) && pool.frlock == []
    {
      hide LockServer.Valid, AllRecords, Leads, Next, Sleeps, Acyclic, OneEdgeEach;
      ghost var s := St();
      var dead := Deadflck(sleepers, files[f].flck[found].pid, p);
      if dead {
        r := Deadlock;
      } else {
        var ok := Sleep(f, found, q, p);
        r := if ok then Slept else NoRecords;
        if ok {
          ghost var id :| Next(s, Block(f, p, q, found, id), St());
          NextSleeping(s, Block(f, p, q, found, id), St());
          SleepingAcyclic(s, Block(f, p, q, found, id), St());
        }
      }
    }

    /** One attempt at a request on a file that has a list. */
    method Attempt(f: int, p: int, q: Request, mayWait: bool) returns (r: Reply)
      requires Valid() && Inv(St()) && f in files && q.start < q.end && !Sleeps(sleepers, p)
      modifies this`sleepers, files[f], pool
      ensures Valid() && Everything() == old(Everything())
      ensures Answered(r, old(Locks(St(), f)), q, p, mayWait, |old(pool.frlock)|, old(sleepers))
      ensures r == Granted ==> Next(old(St()), if q.typ == UNLCK then Release(f, p, q) else Grant(f, p, q), St())
      ensures r == Slept ==> mayWait && exists i, id :: Next(old(St()), Block(f, p, q, i, id), St())
      ensures r == WouldBlock || r == Deadlock ==> Same(old(St()), St())
      ensures r == WouldBlock ==> !mayWait && exists x :: x in Locks(St(), f) && Conflicts(x, q, p)
      ensures r == Deadlock ==>
        mayWait && exists x :: x in Locks(St(), f) && Conflicts(x, q, p) && Leads(sleepers, x.pid, p)
      ensures r == NoRecords ==> pool.frlock == []
      ensures r == NoRecords ==> Same(old(St()), St()) || Next(old(St()), Shortage(f, p, q, |old(pool.frlock)|), St())
    {
      hide Apart, AllRecords, FileInv, OneEdgeEach, NobodyForgotten, Sleeps, Leads, Next, Admitted, Lacks;
      var file := files[f];
      assert Locks(St(), f) == file.flck;
      assert FileInv(Locks(St(), f));
      if q.typ == UNLCK {
        var o := Adjust(f, if file.flck == [] then NULL else 0, q, p);
        r := if o == Ok then Granted else NoRecords;
      } else {
        FileFacts(file.flck);
        var found, insrt := file.Blocked(q, p);
        SearchExact(file.flck, q, p, 0);
        if found == NULL {
          var o := Adjust(f, insrt, q, p);
          r := if o == Ok then Granted else NoRecords;
        } else if !mayWait {
          r := WouldBlock;
        } else {
          r := Wait(f, found, q, p);
        }
      }
    }

    /** The call, on a file that has a list or does not. */
    method Serve(f: int, p: int, q: Request, mayWait: bool) returns (r: Reply)
      requires Valid() && Inv(St()) && q.start < q.end && !Sleeps(sleepers, p)
      modifies this`files, this`sleepers, pool, files.Values
      ensures Valid() && Everything() == old(Everything())
      ensures Answered(r, old(Locks(St(), f)), q, p, mayWait, |old(pool.frlock)|, old(sleepers))
      ensures r == Granted ==> Next(old(St()), if q.typ == UNLCK then Release(f, p, q) else Grant(f, p, q), St())
      ensures r == Slept ==> mayWait && exists i, id :: Next(old(St()), Block(f, p, q, i, id), St())
      ensures r == WouldBlock || r == Deadlock ==> Same(old(St()), St())
      ensures r == WouldBlock ==> !mayWait && exists x :: x in Locks(St(), f) && Conflicts(x, q, p)
      ensures r == Deadlock ==>
        mayWait && exists x :: x in Locks(St(), f) && Conflicts(x, q, p) && Leads(sleepers, x.pid, p)
      ensures r == NoRecords ==> pool.frlock == []
      ensures r == NoRecords ==> Same(old(St()), St()) || Next(old(St()), Shortage(f, p, q, |old(pool.frlock)|), St())
    {
      hide Apart, AllRecords, Inv, Sleeps, Leads, Step;
      ghost var s := St();
      if f !in files && q.typ == UNLCK {
        NothingHeld(s, f, p, q);
        NothingLacks(p, q, |pool.frlock|);
        r := Granted;
      } else {
        if f !in files {
          Allocfid(f);
          InvSame(s, St());
        }
        ghost var made := St();
        r := Attempt(f, p, q, mayWait);
        forall e: Event | Next(made, e, St()) ensures Next(s, e, St()) {
          NextSame(s, made, e, St());
        }
      }
    }

    /** The sleeper at `i` leaves the list. */
    method Wake(i: int)
      requires Valid() && 0 <= i < |sleepers|
      modifies this`sleepers, pool
      ensures Valid() && Everything() == old(Everything()) && Next(old(St()), FlockRun.Resume(i), St())
    {
      hide Apart, AllRecords;
      EntryGiven(St(), i, pool.frlock);
      ghost var s := St();
      pool.frlock := [sleepers[i].id] + pool.frlock;
      sleepers := sleepers[..i] + sleepers[i + 1..];
      assert St() == State(s.files, RemoveAt(s.sl, i));
    }

    /** The locks of a process on the file go. */
    method Drop(f: int, p: int)
      requires Valid() && Inv(St()) && !Sleeps(sleepers, p)
      modifies this`sleepers, files.Values, pool
      ensures Valid() && Everything() == old(Everything()) && Next(old(St()), FlockRun.Close(f, p), St())
    {
      hide Apart, AllRecords, Records, Sleeps, Waken, Acyclic, OneEdgeEach, NobodyForgotten, NoLostWakeup;
      ghost var s, free := St(), pool.frlock;
      if f in files {
        assert Locks(s, f) == files[f].flck && FileInv(Locks(s, f));
        Own(s, f, free);
        files[f].Cleanlocks(p);
        sleepers := Waken(sleepers, files[f].woken);
        forall g | g in files && g != f ensures files[g].flck == s.files[g] {}
        assert St() == State(s.files[f := files[f].flck], Waken(s.sl, files[f].woken));
        WakenIds(s.sl, files[f].woken);
        Exchange(s, f, files[f].flck, sleepers, free, pool.frlock);
      } else {
        NothingClosed(s, f, p);
      }
    }

    // ----- the calls themselves, recorded -----

    /** A lock request (`mayWait` as in the sleeping form of the call), or an unlock. */
    method Setflck(f: int, p: int, q: Request, mayWait: bool) returns (r: Reply)
      requires Valid() && Recorded() && Orderly(ss, es) && q.start < q.end && !Sleeps(sleepers, p)
      modifies this, pool, files.Values
      ensures Valid() && Recorded() && Everything() == old(Everything())
      ensures Answered(r, old(Locks(St(), f)), q, p, mayWait, |old(pool.frlock)|, old(sleepers))
      ensures r == Granted ==> es == old(es) + [if q.typ == UNLCK then Release(f, p, q) else Grant(f, p, q)]
      ensures r == Slept ==> mayWait && exists i, id :: es == old(es) + [Block(f, p, q, i, id)]
      ensures r == WouldBlock || r == Deadlock ==> Same(old(St()), St()) && es == old(es)
      ensures r == WouldBlock ==> !mayWait && exists x :: x in Locks(St(), f) && Conflicts(x, q, p)
      ensures r == Deadlock ==>
        mayWait && exists x :: x in Locks(St(), f) && Conflicts(x, q, p) && Leads(sleepers, x.pid, p)
      ensures r == NoRecords ==>
        pool.frlock == []
        && ((Same(old(St()), St()) && es == old(es)) || es == old(es) + [Shortage(f, p, q, |old(pool.frlock)|)])
      ensures if es == old(es) then ss == old(ss) else ss == old(ss) + [St()]
    {
      hide LockServer.Valid, Same, AllRecords, Inv, Sleeps, Leads, Next, Run, Orderly, Logged, Conflicts, Answered;
      ghost var s := St();
      LoggedInv(ss, es, s);
      r := Serve(f, p, q, mayWait);
      if r == Granted {
        Log(s, if q.typ == UNLCK then Release(f, p, q) else Grant(f, p, q));
      } else if r == Slept {
        ghost var i, id :| Next(s, Block(f, p, q, i, id), St());
        Log(s, Block(f, p, q, i, id));
      } else if Same(s, St()) {
        LogSame(ss, es, s, St());
      } else {
        Log(s, Shortage(f, p, q, |old(pool.frlock)|));
      }
    }

    /** The call `e` has led from `s` to where things stand now. */
    ghost method Log(s: State, e: Event)
      requires Logged(ss, es, s) && Next(s, e, St())
      modifies this`ss, this`es
      ensures Recorded() && ss == old(ss) + [St()] && es == old(es) + [e]
    {
      hide Logged, Next, Same;
      LogMore(ss, es, s, e, St());
      ss, es := ss + [St()], es + [e];
    }

    /** A sleeper runs again, and its entry becomes free. */
    method Resume(i: int)
      requires Valid() && Recorded() && 0 <= i < |sleepers|
      modifies this`sleepers, this`ss, this`es, pool
      ensures Valid() && Recorded() && Everything() == old(Everything())
      ensures es == old(es) + [FlockRun.Resume(i)] && ss == old(ss) + [St()]
    {
      hide LockServer.Valid, AllRecords, Logged, Next;
      ghost var s := St();
      Wake(i);
      Log(s, FlockRun.Resume(i));
    }

    /** The process closes the file. */
    method Close(f: int, p: int)
      requires Valid() && Recorded() && Orderly(ss, es) && !Sleeps(sleepers, p)
      modifies this`sleepers, this`ss, this`es, files.Values, pool
      ensures Valid() && Recorded() && Everything() == old(Everything())
      ensures es == old(es) + [FlockRun.Close(f, p)] && ss == old(ss) + [St()]
    {
      hide LockServer.Valid, AllRecords, Sleeps, Inv, Logged, Orderly, Next;
      ghost var s := St();
      LoggedInv(ss, es, s);
      Drop(f, p);
      Log(s, FlockRun.Close(f, p));
    }

    /** After any history of calls, whatever the lists are like, nobody waits for himself. */
    lemma NoDeadlock()
      requires Recorded()
      ensures OneEdgeEach(sleepers) && Acyclic(sleepers)
    {
      hide Run, Acyclic, OneEdgeEach;
      AcyclicRun(ss, es, |es|);
    }

    /** After any history of calls with write locks only, on any files: no byte has two owners, nobody
        waits for himself, and nobody is forgotten; so the next call may be made. */
    lemma WritesKeep()
      requires Valid() && Recorded() && WritesOnly(es)
      ensures Orderly(ss, es) && Inv(St()) && forall f :: AllWrite(Locks(St(), f)) && Disjoint(Locks(St(), f))
    {
      LoggedWrites(ss, es, St());
    }
  }
}
