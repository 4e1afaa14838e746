/** Runs of the locking calls: the steps that processes take between sleeps. */
module FlockRun {
  import opened LockList
  import opened LockSteps
  import opened WaitGraph

  /** The lock lists of all files, and the one list of sleeping requests. */
  datatype State = State(files: map<int, seq<Lock>>, sl: seq<Sleeper>)

  /** The locks on file `f`: none, if it has no list yet. */
  function Locks(s: State, f: int): seq<Lock> {
    if f in s.files then s.files[f] else []
  }

  datatype Event =
    | Grant(f: int, p: int, q: Request)
    | Block(f: int, p: int, q: Request, i: int, id: int)
    | Release(f: int, p: int, q: Request)
    | Shortage(f: int, p: int, q: Request, free: nat)
    | Close(f: int, p: int)
    | Resume(i: int)

  /** A lock call that goes through, one that puts the caller to sleep on the record at `i` (with the
      free record `id` as its entry), an unlock call, a call of either kind that finds no free
      record, the closing of a file, and a sleeper that runs again (woken, or interrupted by a
      signal). */
  ghost predicate Next(s: State, e: Event, s': State) {
    if e.Resume? then
      0 <= e.i < |s.sl| && (forall g :: Locks(s', g) == Locks(s, g)) && s'.sl == RemoveAt(s.sl, e.i)
    else
      && !Sleeps(s.sl, e.p)
      && (forall g :: g != e.f ==> Locks(s', g) == Locks(s, g))
      && Step(Locks(s, e.f), s.sl, e, Locks(s', e.f), s'.sl)
  }

  /** What the call does to its file and to the sleepers. */
  ghost predicate Step(fl: seq<Lock>, sl: seq<Sleeper>, e: Event, fl': seq<Lock>, sl': seq<Sleeper>)
    requires !e.Resume?
  {
    match e
    case Grant(_, p, q) =>
      && q.start < q.end && q.typ != UNLCK && (forall r :: r in fl ==> !Conflicts(r, q, p))
      && exists w :: Adjusted(fl, p, q, fl', w) && sl' == Waken(sl, w)
    case Block(f, p, q, i, id) =>
      && 0 <= i < |fl| && Conflicts(fl[i], q, p) && !Leads(sl, fl[i].pid, p)
      && fl' == fl[i := fl[i].(stat := fl[i].stat + 1)]
      && sl' == [Sleeper(id, p, fl[i].pid, f, fl[i], false)] + sl
    case Release(_, p, q) =>
      && q.start < q.end && q.typ == UNLCK
      && exists w :: Adjusted(fl, p, q, fl', w) && sl' == Waken(sl, w)
    case Shortage(_, p, q, free) =>
      && q.start < q.end && exists w :: Failed(fl, p, q, free, fl', w) && sl' == Waken(sl, w)
    case Close(_, p) =>
      && fl' == Others(fl, p) && WellFormed(fl')
      && exists w :: NoLostWakeup(fl, fl', w) && sl' == Waken(sl, w)
  }

  /** The step puts a split-off tail in front of a record that starts before it; a call that fails does so
      with the last free record. */
  predicate Disorders(s: State, e: Event) {
    && (e.Grant? || e.Release? || (e.Shortage? && e.free > 0))
    && Misplaces(Locks(s, e.f), e.p, e.q)
  }

  /** The record a sleeper waits for is still in the list, unchanged but for its wake-up flag,
      which is set. */
  predicate Watched(fl: seq<Lock>, on: Lock) {
    exists r :: r in fl && r.stat > 0 && r.(stat := 0) == on.(stat := 0)
  }

  predicate NobodyForgotten(s: State) {
    forall i :: 0 <= i < |s.sl| && !s.sl[i].awake ==> Watched(Locks(s, s.sl[i].file), s.sl[i].on)
  }

  /** A byte under a write lock of one process is under no lock of another. */
  ghost predicate Exclusive(fl: seq<Lock>) {
    forall p, p', b, t :: p != p' && Holds(fl, p, b, WRLCK) ==> !Holds(fl, p', b, t)
  }

  ghost predicate FileInv(fl: seq<Lock>) {
    && WellFormed(fl) && Sorted(fl) && (forall p :: Canonical(fl, p)) && Exclusive(fl)
    && (forall r :: r in fl ==> 0 <= r.stat)
  }

  /** On every file the locks are in order and exclude each other; and over all files together
      nobody waits for himself and nobody has been forgotten. */
  ghost predicate Inv(s: State) {
    && (forall f :: FileInv(Locks(s, f)))
    && OneEdgeEach(s.sl) && Acyclic(s.sl) && NobodyForgotten(s)
  }

  // ----- other processes are not affected -----

  lemma {:induction false} OthersMembers(fl: seq<Lock>, p: int)
    ensures forall r :: r in Others(fl, p) <==> r in fl && r.pid != p
  {
    if fl != [] {
      OthersMembers(fl[1..], p);
      assert fl == [fl[0]] + fl[1..];
    }
  }

  lemma HoldsOthers(fl: seq<Lock>, p: int, p': int, b: int, t: LockType)
    requires p' != p
    ensures Holds(Others(fl, p), p', b, t) <==> Holds(fl, p', b, t)
  {
    OthersMembers(fl, p);
    if Holds(fl, p', b, t) {
      var r :| r in fl && r.pid == p' && r.start <= b < r.end && r.typ == t;
      assert r in Others(fl, p);
    }
  }

  lemma CanonicalCons(r: Lock, fl: seq<Lock>, p: int)
    ensures Canonical([r] + fl, p) <==>
      Canonical(fl, p) && (r.pid == p ==> forall x :: x in fl && x.pid == p ==> Before(r, x))
  {
    var g := [r] + fl;
    if Canonical(g, p) {
      forall i, j | 0 <= i < j < |fl| && fl[i].pid == p && fl[j].pid == p ensures Before(fl[i], fl[j]) {
        assert Before(g[i + 1], g[j + 1]);
      }
      if r.pid == p {
        forall x | x in fl && x.pid == p ensures Before(r, x) {
          var j :| 0 <= j < |fl| && fl[j] == x;
          assert Before(g[0], g[j + 1]);
        }
      }
    } else {
      var i, j :| 0 <= i < j < |g| && g[i].pid == p && g[j].pid == p && !Before(g[i], g[j]);
      if i == 0 { assert fl[j - 1] in fl; } else { assert !Before(fl[i - 1], fl[j - 1]); }
    }
  }

  lemma {:induction false} CanonicalOthers(fl: seq<Lock>, p: int, p': int)
    requires p' != p
    ensures Canonical(Others(fl, p), p') <==> Canonical(fl, p')
  {
    if fl != [] {
      CanonicalOthers(fl[1..], p, p');
      assert fl == [fl[0]] + fl[1..];
      CanonicalCons(fl[0], fl[1..], p');
      if fl[0].pid != p {
        CanonicalCons(fl[0], Others(fl[1..], p), p');
        OthersMembers(fl[1..], p);
      }
    }
  }

  lemma SortedCons(r: Lock, fl: seq<Lock>)
    ensures Sorted([r] + fl) <==> Sorted(fl) && forall x :: x in fl ==> r.start <= x.start
  {
    var g := [r] + fl;
    if Sorted(g) {
      forall i, j | 0 <= i < j < |fl| ensures fl[i].start <= fl[j].start { assert g[i + 1].start <= g[j + 1].start; }
      forall x | x in fl ensures r.start <= x.start {
        var j :| 0 <= j < |fl| && fl[j] == x;
        assert g[0].start <= g[j + 1].start;
      }
    } else {
      var i, j :| 0 <= i < j < |g| && g[i].start > g[j].start;
      if i == 0 { assert fl[j - 1] in fl; } else { assert fl[i - 1].start > fl[j - 1].start; }
    }
  }

  lemma {:induction false} SortedOthers(fl: seq<Lock>, p: int)
    requires Sorted(fl)
    ensures Sorted(Others(fl, p))
  {
    if fl != [] {
      assert fl == [fl[0]] + fl[1..];
      SortedCons(fl[0], fl[1..]);
      SortedOthers(fl[1..], p);
      if fl[0].pid != p {
        SortedCons(fl[0], Others(fl[1..], p));
        OthersMembers(fl[1..], p);
      }
    }
  }

  lemma SameOthers(fl: seq<Lock>, fl': seq<Lock>, p: int)
    requires Others(fl, p) == Others(fl', p)
    ensures forall p', b, t :: p' != p ==> (Holds(fl', p', b, t) <==> Holds(fl, p', b, t))
    ensures forall p' :: p' != p ==> (Canonical(fl', p') <==> Canonical(fl, p'))
    ensures forall r: Lock :: r.pid != p ==> (r in fl' <==> r in fl)
  {
    forall p', b, t | p' != p ensures Holds(fl', p', b, t) <==> Holds(fl, p', b, t) {
      HoldsOthers(fl, p, p', b, t);
      HoldsOthers(fl', p, p', b, t);
    }
    forall p' | p' != p ensures Canonical(fl', p') <==> Canonical(fl, p') {
      CanonicalOthers(fl, p, p');
      CanonicalOthers(fl', p, p');
    }
    OthersMembers(fl, p);
    OthersMembers(fl', p);
  }

  // ----- each step keeps the invariant -----

  /** Nobody else's lock stands in the way, so the new lock excludes nobody's. */
  lemma GrantExclusive(fl: seq<Lock>, p: int, q: Request, fl': seq<Lock>, w: set<int>)
    requires Exclusive(fl) && Adjusted(fl, p, q, fl', w) && WellFormed(fl)
    requires q.typ == UNLCK || forall r :: r in fl ==> !Conflicts(r, q, p)
    ensures Exclusive(fl')
  {
    SameOthers(fl, fl', p);
    forall p1, p2, b, t | p1 != p2 && Holds(fl', p1, b, WRLCK) ensures !Holds(fl', p2, b, t) {
      if p1 == p {
        assert Wanted(fl, p, q, b, WRLCK);
        if q.start <= b < q.end { NobodyElse(fl, p, q, p2, b, t); }
      } else if p2 == p {
        assert Holds(fl', p, b, t) <==> Wanted(fl, p, q, b, t);
        if q.start <= b < q.end && q.typ != UNLCK { NobodyElse(fl, p, q, p1, b, WRLCK); }
      }
    }
  }

  lemma NobodyElse(fl: seq<Lock>, p: int, q: Request, p': int, b: int, t: LockType)
    requires WellFormed(fl) && p' != p && q.start <= b < q.end && (forall r :: r in fl ==> !Conflicts(r, q, p))
    requires t == WRLCK || q.typ == WRLCK
    ensures !Holds(fl, p', b, t)
  {
  }

  /** The unlock that a failed call amounts to. */
  lemma FailedRequest(fl: seq<Lock>, p: int, q: Request, free: nat, fl': seq<Lock>, w: set<int>)
    returns (q': Request)
    requires Failed(fl, p, q, free, fl', w) && q.start < q.end
    ensures q'.start == q.start && q'.end <= q.end && q'.typ == UNLCK && Overridden(fl, p, q', fl')
  {
    if Cleared(fl, p, q, fl') {
      q' := q.(typ := UNLCK);
    } else {
      var r :| r in fl && Tail(r, p, q)
        && Cleared(fl, p, q.(end := if r.start < q.start then q.start else r.start), fl');
      q' := q.(end := if r.start < q.start then q.start else r.start, typ := UNLCK);
    }
  }

  /** A call that fails sets nothing, so it leaves less that excludes. */
  lemma FailExclusive(fl: seq<Lock>, p: int, q: Request, free: nat, fl': seq<Lock>, w: set<int>)
    requires Exclusive(fl) && Failed(fl, p, q, free, fl', w) && q.start < q.end
    ensures Exclusive(fl')
  {
    SameOthers(fl, fl', p);
    var q' := FailedRequest(fl, p, q, free, fl', w);
    forall p1, b, t | Holds(fl', p1, b, t) ensures Holds(fl, p1, b, t) {
      if p1 == p { assert Wanted(fl, p, q', b, t); }
    }
  }

  /** What a call changes on file `f`, and whom it wakes. */
  ghost predicate Changes(s: State, f: int, w: set<int>, s': State) {
    && (forall g :: g != f ==> Locks(s', g) == Locks(s, g))
    && NoLostWakeup(Locks(s, f), Locks(s', f), w) && s'.sl == Waken(s.sl, w)
  }

  /** Sleepers whose record has gone or changed are woken. */
  lemma StillWatched(s: State, f: int, w: set<int>, s': State)
    requires NobodyForgotten(s) && Changes(s, f, w, s')
    ensures NobodyForgotten(s')
  {
    forall i | 0 <= i < |s'.sl| && !s'.sl[i].awake ensures Watched(Locks(s', s'.sl[i].file), s'.sl[i].on) {
      assert !s.sl[i].awake && s.sl[i].on.id !in w && s'.sl[i].file == s.sl[i].file;
      var r :| r in Locks(s, s.sl[i].file) && r.stat > 0 && r.(stat := 0) == s.sl[i].on.(stat := 0);
      assert r.id == s.sl[i].on.id;
      assert r in Locks(s', s.sl[i].file);
    }
  }

  lemma ChangesInv(s: State, f: int, w: set<int>, s': State)
    requires Inv(s) && Changes(s, f, w, s') && FileInv(Locks(s', f))
    ensures Inv(s')
  {
    hide FileInv, Acyclic, OneEdgeEach, NobodyForgotten, NoLostWakeup;
    StillWatched(s, f, w, s');
    WakenAcyclic(s.sl, w);
    forall g ensures FileInv(Locks(s', g)) { assert FileInv(Locks(s, g)); }
  }

  /** A lock or unlock call. */
  lemma AdjustInv(fl: seq<Lock>, p: int, q: Request, fl': seq<Lock>, w: set<int>)
    requires FileInv(fl) && Adjusted(fl, p, q, fl', w) && !Misplaces(fl, p, q)
    requires q.typ == UNLCK || forall r :: r in fl ==> !Conflicts(r, q, p)
    ensures FileInv(fl') && NoLostWakeup(fl, fl', w)
  {
    SameOthers(fl, fl', p);
    GrantExclusive(fl, p, q, fl', w);
  }

  lemma FailInv(fl: seq<Lock>, p: int, q: Request, free: nat, fl': seq<Lock>, w: set<int>)
    requires FileInv(fl) && Failed(fl, p, q, free, fl', w) && q.start < q.end && (free > 0 ==> !Misplaces(fl, p, q))
    ensures FileInv(fl') && NoLostWakeup(fl, fl', w)
  {
    SameOthers(fl, fl', p);
    FailExclusive(fl, p, q, free, fl', w);
  }

  lemma CloseInv(fl: seq<Lock>, p: int)
    requires FileInv(fl) && WellFormed(Others(fl, p))
    ensures FileInv(Others(fl, p))
  {
    var fl' := Others(fl, p);
    OthersMembers(fl, p);
    SortedOthers(fl, p);
    forall p1, b, t | Holds(fl', p1, b, t) ensures Holds(fl, p1, b, t) {}
    forall j | 0 <= j < |fl'| ensures fl'[j].pid != p { assert fl'[j] in fl'; }
    forall p' ensures Canonical(fl', p') {
      if p' != p { CanonicalOthers(fl, p, p'); }
    }
  }

  lemma FlagMembers(fl: seq<Lock>, i: nat, r': Lock)
    requires i < |fl| && WellFormed(fl)
    ensures forall x :: x in fl[i := r'] <==> (x in fl && x != fl[i]) || x == r'
  {
    var fl' := fl[i := r'];
    forall x ensures x in fl' <==> (x in fl && x != fl[i]) || x == r' {
      if x in fl && x != fl[i] {
        var j :| 0 <= j < |fl| && fl[j] == x;
        assert fl'[j] == x;
      }
      assert fl'[i] == r';
    }
  }

  lemma FlagList(fl: seq<Lock>, i: nat, r': Lock, fl': seq<Lock>)
    requires i < |fl| && WellFormed(fl) && Sorted(fl) && r'.(stat := 0) == fl[i].(stat := 0) && fl' == fl[i := r']
    ensures WellFormed(fl') && Sorted(fl')
    ensures forall p :: Canonical(fl, p) ==> Canonical(fl', p)
    ensures forall p, b, t :: Holds(fl', p, b, t) <==> Holds(fl, p, b, t)
  {
    assert fl[i] in fl;
    FlagMembers(fl, i, r');
    forall p, b, t ensures Holds(fl', p, b, t) <==> Holds(fl, p, b, t) { FlagOnly(fl, fl', fl[i], r', p, b, t); }
    forall p | Canonical(fl, p) ensures Canonical(fl', p) {
      forall a, b | 0 <= a < b < |fl'| && fl'[a].pid == p && fl'[b].pid == p ensures Before(fl'[a], fl'[b]) {
        assert Before(fl[a], fl[b]);
      }
    }
  }

  lemma BlockSleepers(s: State, e: Sleeper, r: Lock, r': Lock, s': State)
    requires NobodyForgotten(s) && OneEdgeEach(s.sl) && !Sleeps(s.sl, e.pid) && e.on == r
    requires r'.stat > 0 && r'.(stat := 0) == r.(stat := 0) && s'.sl == [e] + s.sl
    requires forall g :: g != e.file ==> Locks(s', g) == Locks(s, g)
    requires forall x :: x in Locks(s', e.file) <==> (x in Locks(s, e.file) && x != r) || x == r'
    ensures NobodyForgotten(s') && OneEdgeEach(s'.sl)
  {
    var sl' := s'.sl;
    forall k | 0 <= k < |sl'| && !sl'[k].awake ensures Watched(Locks(s', sl'[k].file), sl'[k].on) {
      if k == 0 {
        assert r' in Locks(s', e.file);
      } else {
        assert sl'[k] == s.sl[k - 1];
        var f := sl'[k].file;
        var x :| x in Locks(s, f) && x.stat > 0 && x.(stat := 0) == s.sl[k - 1].on.(stat := 0);
        assert (if f == e.file && x == r then r' else x) in Locks(s', f);
      }
    }
    forall a, b | 0 <= a < b < |sl'| ensures sl'[a].pid != sl'[b].pid {
      assert sl'[b] == s.sl[b - 1];
    }
  }

  /** The record slept on gets a flag, nothing else. */
  lemma FlagInv(fl: seq<Lock>, i: nat, r': Lock, fl': seq<Lock>)
    requires i < |fl| && FileInv(fl) && r'.(stat := 0) == fl[i].(stat := 0) && 0 <= r'.stat && fl' == fl[i := r']
    ensures FileInv(fl')
  {
    hide Holds, Canonical, Sorted, WellFormed;
    FlagList(fl, i, r', fl');
    FlagMembers(fl, i, r');
  }

  lemma BlockInv(s: State, e: Event, s': State)
    requires Inv(s) && e.Block? && Next(s, e, s')
    ensures Inv(s')
  {
    hide FileInv, Acyclic, OneEdgeEach, NobodyForgotten, Sleeps, Leads;
    var fl := Locks(s, e.f);
    var r := fl[e.i];
    var r' := r.(stat := r.stat + 1);
    assert FileInv(fl);
    FileFacts(fl);
    assert r in fl;
    FlagMembers(fl, e.i, r');
    FlagInv(fl, e.i, r', Locks(s', e.f));
    var entry := Sleeper(e.id, e.p, r.pid, e.f, r, false);
    AddEdge(s.sl, entry);
    BlockSleepers(s, entry, r, r', s');
    forall g ensures FileInv(Locks(s', g)) { assert FileInv(Locks(s, g)); }
  }

  lemma FileFacts(fl: seq<Lock>)
    requires FileInv(fl)
    ensures WellFormed(fl) && Sorted(fl) && (forall p :: Canonical(fl, p)) && forall r :: r in fl ==> 0 <= r.stat
  {
  }

  lemma FlagOnly(fl: seq<Lock>, fl': seq<Lock>, r: Lock, r': Lock, p: int, b: int, t: LockType)
    requires r in fl && r'.(stat := 0) == r.(stat := 0) && forall x :: x in fl' <==> (x in fl && x != r) || x == r'
    ensures Holds(fl', p, b, t) <==> Holds(fl, p, b, t)
  {
    if Holds(fl', p, b, t) {
      var x :| x in fl' && x.pid == p && x.start <= b < x.end && x.typ == t;
      assert (if x == r' then r else x) in fl;
    }
    if Holds(fl, p, b, t) {
      var x :| x in fl && x.pid == p && x.start <= b < x.end && x.typ == t;
      assert (if x == r then r' else x) in fl';
    }
  }

  lemma ResumeInv(s: State, i: int, s': State)
    requires Inv(s) && Next(s, Resume(i), s')
    ensures Inv(s')
  {
    hide FileInv, Acyclic;
    RemoveEdge(s.sl, i);
    forall k | 0 <= k < |s'.sl| ensures s'.sl[k] == s.sl[if k < i then k else k + 1] {}
    forall g ensures FileInv(Locks(s', g)) { assert FileInv(Locks(s, g)); }
  }

  lemma NextInv(s: State, e: Event, s': State)
    requires Inv(s) && Next(s, e, s') && !Disorders(s, e)
    ensures Inv(s')
  {
    if e.Block? {
      BlockInv(s, e, s');
    } else if e.Resume? {
      ResumeInv(s, e.i, s');
    } else {
      var w := CallInv(s, e, s');
      ChangesInv(s, e.f, w, s');
    }
  }

  /** The condition is exact: a step that misplaces a tail, be it one that then fails, breaks the invariant. */
  lemma NextExact(s: State, e: Event, s': State)
    requires Inv(s) && Next(s, e, s')
    ensures Inv(s') <==> !Disorders(s, e)
  {
    hide Acyclic, NobodyForgotten, OneEdgeEach, Waken;
    if Disorders(s, e) {
      Unsorted(s, e, s');
    } else {
      NextInv(s, e, s');
    }
  }

  lemma Unsorted(s: State, e: Event, s': State)
    requires Next(s, e, s') && Disorders(s, e)
    ensures !Inv(s')
  {
    assert !FileInv(Locks(s', e.f));
  }

  /** The calls that edit a list. */
  lemma CallInv(s: State, e: Event, s': State) returns (w: set<int>)
    requires Inv(s) && Next(s, e, s') && !Disorders(s, e) && !e.Block? && !e.Resume?
    ensures Changes(s, e.f, w, s') && FileInv(Locks(s', e.f))
  {
    hide FileInv, Adjusted, Failed, NoLostWakeup, Misplaces, Acyclic, NobodyForgotten, OneEdgeEach, Waken;
    var fl, fl' := Locks(s, e.f), Locks(s', e.f);
    assert FileInv(fl);
    match e
    case Grant(f, p, q) =>
      w :| Adjusted(fl, p, q, fl', w) && s'.sl == Waken(s.sl, w);
      AdjustInv(fl, p, q, fl', w);
    case Release(f, p, q) =>
      w :| Adjusted(fl, p, q, fl', w) && s'.sl == Waken(s.sl, w);
      AdjustInv(fl, p, q, fl', w);
    case Shortage(f, p, q, free) =>
      w :| Failed(fl, p, q, free, fl', w) && s'.sl == Waken(s.sl, w);
      FailInv(fl, p, q, free, fl', w);
    case Close(f, p) =>
      w :| NoLostWakeup(fl, fl', w) && s'.sl == Waken(s.sl, w);
      CloseInv(fl, p);
  }

  ghost predicate Run(ss: seq<State>, es: seq<Event>) {
    && |ss| == |es| + 1 && ss[0] == State(map[], [])
    && forall i :: 0 <= i < |es| ==> Next(ss[i], es[i], ss[i + 1])
  }

  /** Over every run in which no tail is misplaced, with locks of both kinds on any number of files:
      every list stays sorted and exclusive, the waits-for graph over all files acyclic, and no
      sleeper is forgotten. */
  lemma {:induction false} RunInv(ss: seq<State>, es: seq<Event>, k: nat)
    requires Run(ss, es) && k <= |es| && forall i :: 0 <= i < k ==> !Disorders(ss[i], es[i])
    ensures Inv(ss[k])
  {
    if k == 0 {
      assert forall p, k: nat :: 0 < k ==> Walk([], p, k) == Gone;
    } else {
      RunInv(ss, es, k - 1);
      assert Next(ss[k - 1], es[k - 1], ss[k - 1 + 1]);
      NextInv(ss[k - 1], es[k - 1], ss[k]);
    }
  }

  // ----- the waits-for graph on its own -----

  /** What a step does to the sleepers, whatever is in the lists and becomes of them: so it is also after
      a tail has been misplaced, when a lock in the way may be overlooked. */
  ghost predicate Sleeping(s: State, e: Event, s': State) {
    match e
    case Block(f, p, q, i, id) =>
      var fl := Locks(s, f);
      && !Sleeps(s.sl, p) && 0 <= i < |fl| && !Leads(s.sl, fl[i].pid, p)
      && s'.sl == [Sleeper(id, p, fl[i].pid, f, fl[i], false)] + s.sl
    case Resume(i) => 0 <= i < |s.sl| && s'.sl == RemoveAt(s.sl, i)
    case _ => !Sleeps(s.sl, e.p) && exists w :: s'.sl == Waken(s.sl, w)
  }

  lemma NextSleeping(s: State, e: Event, s': State)
    requires Next(s, e, s')
    ensures Sleeping(s, e, s')
  {
    hide Adjusted, Failed, NoLostWakeup, Waken, Leads, Sleeps, WellFormed;
  }

  lemma SleepingAcyclic(s: State, e: Event, s': State)
    requires Sleeping(s, e, s') && OneEdgeEach(s.sl) && Acyclic(s.sl)
    ensures OneEdgeEach(s'.sl) && Acyclic(s'.sl)
  {
    match e
    case Block(f, p, q, i, id) =>
      var r := Locks(s, f)[i];
      var entry := Sleeper(id, p, r.pid, f, r, false);
      AddEdge(s.sl, entry);
      forall a, b | 0 <= a < b < |s'.sl| ensures s'.sl[a].pid != s'.sl[b].pid { assert s'.sl[b] == s.sl[b - 1]; }
    case Resume(i) => RemoveEdge(s.sl, i);
    case _ =>
      var w :| s'.sl == Waken(s.sl, w);
      WakenAcyclic(s.sl, w);
  }

  /** Over every run, whatever happens to the lists: no process waits, directly or through others and over
      any files, for itself, and each sleeps once. */
  lemma {:induction false} GraphRun(ss: seq<State>, es: seq<Event>, k: nat)
    requires |ss| == |es| + 1 && ss[0].sl == [] && k <= |es|
    requires forall i :: 0 <= i < |es| ==> Sleeping(ss[i], es[i], ss[i + 1])
    ensures OneEdgeEach(ss[k].sl) && Acyclic(ss[k].sl)
  {
    if k == 0 {
      assert forall p, k: nat :: 0 < k ==> Walk([], p, k) == Gone;
    } else {
      GraphRun(ss, es, k - 1);
      assert Sleeping(ss[k - 1], es[k - 1], ss[k - 1 + 1]);
      SleepingAcyclic(ss[k - 1], es[k - 1], ss[k]);
    }
  }

  /** So it is over every run of calls, whether or not a tail is misplaced. */
  lemma AcyclicRun(ss: seq<State>, es: seq<Event>, k: nat)
    requires Run(ss, es) && k <= |es|
    ensures OneEdgeEach(ss[k].sl) && Acyclic(ss[k].sl)
  {
    hide Next, Sleeping, Acyclic, OneEdgeEach;
    forall i | 0 <= i < |es| ensures Sleeping(ss[i], es[i], ss[i + 1]) {
      assert Next(ss[i], es[i], ss[i + 1]);
      NextSleeping(ss[i], es[i], ss[i + 1]);
    }
    GraphRun(ss, es, k);
  }

  // ----- write locks only -----

  predicate WritesOnly(es: seq<Event>) {
    forall e :: e in es ==> OnlyWrites(e)
  }

  predicate OnlyWrites(e: Event) {
    e.Grant? || e.Block? || e.Release? || e.Shortage? ==> e.q.typ != RDLCK
  }

  predicate AllWrite(fl: seq<Lock>) {
    forall r :: r in fl ==> r.typ == WRLCK
  }

  /** With write locks only, no record of another process can start inside one's own record. */
  lemma WritesInOrder(s: State, e: Event)
    requires Inv(s) && (!e.Resume? ==> AllWrite(Locks(s, e.f)))
    ensures !Disorders(s, e)
  {
    if e.Grant? || e.Release? || e.Shortage? {
      var fl := Locks(s, e.f);
      assert FileInv(fl);
      forall i, j | 0 <= i < j < |fl| && fl[i].pid == e.p && fl[j].pid != e.p ensures fl[i].end <= fl[j].start {
        var b := fl[j].start;
        assert fl[i] in fl && fl[j] in fl;
        assert Holds(fl, fl[j].pid, b, WRLCK);
        assert !Holds(fl, e.p, b, WRLCK);
      }
    }
  }

  lemma StaysWrite(fl: seq<Lock>, sl: seq<Sleeper>, e: Event, fl': seq<Lock>, sl': seq<Sleeper>)
    requires !e.Resume? && Step(fl, sl, e, fl', sl') && AllWrite(fl) && OnlyWrites(e)
    ensures AllWrite(fl')
  {
    match e
    case Grant(_, p, q) =>
      var w :| Adjusted(fl, p, q, fl', w) && sl' == Waken(sl, w);
      OverrideWrite(fl, p, q, fl');
    case Release(_, p, q) =>
      var w :| Adjusted(fl, p, q, fl', w) && sl' == Waken(sl, w);
      OverrideWrite(fl, p, q, fl');
    case Shortage(_, p, q, free) =>
      var w :| Failed(fl, p, q, free, fl', w) && sl' == Waken(sl, w);
      var q' := FailedRequest(fl, p, q, free, fl', w);
      OverrideWrite(fl, p, q', fl');
    case Block(_, p, q, i, id) =>
      forall j | 0 <= j < |fl'| ensures fl'[j].typ == WRLCK { assert fl[j] in fl; }
    case Close(_, p) => OthersMembers(fl, p);
  }

  lemma OverrideWrite(fl: seq<Lock>, p: int, q: Request, fl': seq<Lock>)
    requires Overridden(fl, p, q, fl') && Others(fl', p) == Others(fl, p) && WellFormed(fl')
    requires AllWrite(fl) && q.typ != RDLCK
    ensures AllWrite(fl')
  {
    SameOthers(fl, fl', p);
    forall r | r in fl' ensures r.typ == WRLCK {
      if r.pid == p {
        assert Holds(fl', p, r.start, r.typ);
        assert Wanted(fl, p, q, r.start, r.typ);
      } else {
        assert r in fl;
      }
    }
  }

  predicate Disjoint(fl: seq<Lock>) {
    forall i, j :: 0 <= i < j < |fl| ==> fl[i].end <= fl[j].start
  }

  lemma WriteDisjoint(fl: seq<Lock>)
    requires FileInv(fl) && AllWrite(fl)
    ensures Disjoint(fl)
  {
    forall i, j | 0 <= i < j < |fl| ensures fl[i].end <= fl[j].start {
      var b := fl[j].start;
      assert fl[i] in fl && fl[j] in fl;
      if fl[i].pid == fl[j].pid {
        assert Canonical(fl, fl[i].pid) && Before(fl[i], fl[j]);
      } else {
        assert Holds(fl, fl[j].pid, b, WRLCK);
        assert !Holds(fl, fl[i].pid, b, WRLCK);
      }
    }
  }

  /** The step of a run with write locks only. */
  lemma WriteNext(s: State, e: Event, s': State)
    requires Next(s, e, s') && OnlyWrites(e) && forall f :: AllWrite(Locks(s, f))
    ensures forall f :: AllWrite(Locks(s', f))
  {
    hide Step, AllWrite;
    forall f ensures AllWrite(Locks(s', f)) {
      assert AllWrite(Locks(s, f));
      if !e.Resume? && f == e.f { StaysWrite(Locks(s, f), s.sl, e, Locks(s', f), s'.sl); }
    }
  }

  lemma NoLocks(s: State)
    requires s.files == map[]
    ensures forall f :: AllWrite(Locks(s, f)) && Disjoint(Locks(s, f))
  {
  }

  /** Over every run with write locks only, without any further condition: on every file no byte
      ever has two owners, the waits-for graph over all files stays acyclic, and no wake-up is
      lost. */
  lemma {:induction false} WriteRun(ss: seq<State>, es: seq<Event>, k: nat)
    requires Run(ss, es) && k <= |es| && WritesOnly(es)
    ensures Inv(ss[k]) && forall f :: AllWrite(Locks(ss[k], f)) && Disjoint(Locks(ss[k], f))
    ensures forall i :: 0 <= i < k ==> !Disorders(ss[i], es[i])
  {
    hide Next, Disorders, FileInv, AllWrite, Disjoint, Acyclic, OneEdgeEach, NobodyForgotten;
    if k == 0 {
      RunInv(ss, es, 0);
      NoLocks(ss[0]);
    } else {
      WriteRun(ss, es, k - 1);
      assert es[k - 1] in es;
      assert Next(ss[k - 1], es[k - 1], ss[k - 1 + 1]);
      WritesInOrder(ss[k - 1], es[k - 1]);
      RunInv(ss, es, k);
      WriteNext(ss[k - 1], es[k - 1], ss[k]);
      forall f ensures Disjoint(Locks(ss[k], f)) {
        assert FileInv(Locks(ss[k], f)) && AllWrite(Locks(ss[k], f));
        WriteDisjoint(Locks(ss[k], f));
      }
    }
  }

  // ----- why mixed locks need the condition -----

  /** Three calls by two readers of one file; the third, an unlock inside the first lock, leaves its
      tail in front of the other reader's record. */
  function MixedLists(): seq<seq<Lock>> {
    var a, b := Lock(1, 0, 100, RDLCK, 1, 0), Lock(2, 10, 20, RDLCK, 2, 0);
    [[], [a], [a, b], [Lock(1, 0, 5, RDLCK, 1, 0), Lock(3, 50, 100, RDLCK, 1, 0), b]]
  }

  function MixedStates(): seq<State> {
    var fls := MixedLists();
    [State(map[], []), State(map[0 := fls[1]], []), State(map[0 := fls[2]], []), State(map[0 := fls[3]], [])]
  }

  function MixedEvents(): seq<Event> {
    [Grant(0, 1, Request(0, 100, RDLCK)), Grant(0, 2, Request(10, 20, RDLCK)),
     Release(0, 1, Request(5, 50, UNLCK))]
  }

  lemma MixedFirst()
    ensures Adjusted([], 1, Request(0, 100, RDLCK), MixedLists()[1], {})
  {
    var fl := MixedLists()[1];
    assert fl[0] in fl;
  }

  lemma MixedSecond()
    ensures Adjusted(MixedLists()[1], 2, Request(10, 20, RDLCK), MixedLists()[2], {})
  {
    var fl0, fl := MixedLists()[1], MixedLists()[2];
    assert fl[0] in fl && fl[1] in fl && fl0[0] in fl0;
    assert fl[1..] == [fl[1]] && fl[1..][1..] == [] && fl0[1..] == [];
  }

  lemma MixedThird()
    ensures Adjusted(MixedLists()[2], 1, Request(5, 50, UNLCK), MixedLists()[3], {})
    ensures Misplaces(MixedLists()[2], 1, Request(5, 50, UNLCK))
  {
    var fl0, fl := MixedLists()[2], MixedLists()[3];
    assert fl[0] in fl && fl[1] in fl && fl[2] in fl && fl0[0] in fl0 && fl0[1] in fl0;
    assert fl[1].start > fl[2].start;
    assert fl[1..] == [fl[1], fl[2]] && fl[1..][1..] == [fl[2]] && fl[1..][1..][1..] == [];
    assert fl0[1..] == [fl0[1]] && fl0[1..][1..] == [];
    assert fl0[0].pid == 1 && fl0[1].pid == 2;
  }

  lemma MixedSearch()
    ensures var fl := MixedLists()[3]; var q := Request(10, 20, WRLCK);
      Conflicts(fl[2], q, 3) && Search(fl, q, 3, 0) == -1
  {
    var fl, q := MixedLists()[3], Request(10, 20, WRLCK);
    assert Search(fl, q, 3, 1) == SearchOn(fl, q, 3, 1) == -1;
  }

  /** After this run the search overlooks the read lock of process 2: a write lock of process 3 on
      the same bytes would be let through. */
  lemma MixedRunOverlooks()
    ensures Run(MixedStates(), MixedEvents())
    ensures var fl := Locks(MixedStates()[3], 0); var q := Request(10, 20, WRLCK);
      Conflicts(fl[2], q, 3) && Search(fl, q, 3, 0) == -1
  {
    hide Adjusted, Misplaces, Search, SearchOn;
    MixedSearch();
    var ss, es := MixedStates(), MixedEvents();
    MixedFirst();
    MixedSecond();
    MixedThird();
    forall i | 0 <= i < |es| ensures Next(ss[i], es[i], ss[i + 1]) {
      assert Waken([], {}) == [];
    }
  }
}
