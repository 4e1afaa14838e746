/** When the end of a connection's stream is reported. */
module TcpFin {
  import opened Segments
  import opened TcpStream
  import opened TcpReassembly

  // ----- what of a segment is accepted -----

  /** Exactly the bytes in the window are accepted, and the FIN exactly if the stream's end is in it; but
      nothing of a segment whose SYN is still expected, and into a closed window only a FIN by itself. */
  lemma AcceptedExact(s: Seg, syn: bool, n: nat, wnd: nat)
    ensures var c := Accepted(s, syn, n, wnd);
      && (forall x :: c.Keep? && Has(c.s, x) <==> n <= x < n + wnd && Has(s, x) && !(syn && n < s.start))
      && (c.Keep? && c.s.last <==>
            s.last && n <= End(s) <= n + wnd && !(syn && n < s.start) && (wnd == 0 ==> s.start == n && !syn))
      && (c.Keep? ==> c.s.last || c.s.data != [] || c.s.start == n)
  {
  }

  // ----- the marks in a queue -----

  /** Some piece ends the stream. */
  predicate AnyLast(q: seq<Seg>) {
    exists i :: 0 <= i < |q| && q[i].last
  }

  /** Piece `p` begins inside `b` and does not reach beyond it. */
  predicate Swallowed(p: Seg, b: Seg) {
    b.start < p.start < End(b) && End(p) <= End(b)
  }

  predicate LastBeyond(q: seq<Seg>, b: Seg) {
    exists i :: 0 <= i < |q| && q[i].last && !Swallowed(q[i], b)
  }

  predicate LastPast(q: seq<Seg>, p: int) {
    exists i :: 0 <= i < |q| && q[i].last && !(q[i].start < p && End(q[i]) <= p)
  }

  lemma AnyParts(u: seq<Seg>, v: seq<Seg>)
    ensures AnyLast(u + v) <==> AnyLast(u) || AnyLast(v)
  {
    forall i | 0 <= i < |u| ensures (u + v)[i] == u[i] {}
    forall i | 0 <= i < |v| ensures (u + v)[|u| + i] == v[i] {}
  }

  lemma AnyOne(s: Seg)
    ensures AnyLast([s]) <==> s.last
  {
    assert [s][0] == s;
  }

  lemma PastParts(s: Seg, v: seq<Seg>, p: int)
    ensures LastPast([s] + v, p) <==> (s.last && !(s.start < p && End(s) <= p)) || LastPast(v, p)
  {
    assert ([s] + v)[0] == s;
    forall i | 0 <= i < |v| ensures ([s] + v)[1 + i] == v[i] {}
  }

  /** Trimming keeps the marks of the pieces that reach further. */
  lemma {:induction false} TrimMarks(q: seq<Seg>, p: int)
    requires Ordered(q)
    ensures AnyLast(Trim(0, q, p)) <==> LastPast(q, p)
  {
    if q != [] {
      var head, rest := q[0], q[1..];
      assert q == [head] + rest;
      PastParts(head, rest, p);
      AnyParts([head], rest);
      AnyOne(head);
      assert forall i :: 0 <= i < |rest| ==> End(head) <= rest[i].start;
      if p <= head.start {
        AllPast(rest, p);
      } else if p - head.start < |head.data| {
        var d := Drop(0, head, p - head.start);
        AnyParts([d], rest);
        AnyOne(d);
        AllPast(rest, p);
      } else {
        TrimMarks(rest, p);
      }
    }
  }

  lemma AllPast(q: seq<Seg>, p: int)
    requires forall i :: 0 <= i < |q| ==> p <= q[i].start
    ensures AnyLast(q) <==> LastPast(q, p)
  {
  }

  /** After an insertion some piece ends the stream exactly if the new one does, or an old one that was not
      swallowed; a piece that is known already, with a FIN or not, changes nothing. */
  lemma InsertMarks(q: seq<Seg>, b: Seg)
    requires Ordered(q)
    ensures AnyLast(Insert(0, q, b)) <==> if Known(q, b) then AnyLast(q) else b.last || LastBeyond(q, b)
  {
    InsertKnown(q, b);
    if !Known(q, b) {
      var k := Place(q, b.start);
      var i := if k > 0 then End(q[k - 1]) - b.start else 0;
      var b' := if i > 0 then Drop(0, b, i) else b;
      var u, v := q[..k], q[k..];
      assert Insert(0, q, b) == u + [b'] + Trim(0, v, End(b'));
      assert forall j :: 0 <= j < |v| ==> b.start < v[j].start;
      hide Insert, Trim;
      assert Ordered(v);
      TrimMarks(v, End(b));
      AnyParts(u + [b'], Trim(0, v, End(b)));
      AnyParts(u, [b']);
      AnyOne(b');
      BeyondParts(q, k, b);
    }
  }

  lemma BeyondParts(q: seq<Seg>, k: nat, b: Seg)
    requires k <= |q| && (forall j :: 0 <= j < k ==> q[j].start <= b.start)
    requires forall j :: k <= j < |q| ==> b.start < q[j].start
    ensures LastBeyond(q, b) <==> AnyLast(q[..k]) || LastPast(q[k..], End(b))
  {
    forall j | 0 <= j < k ensures q[..k][j] == q[j] && !Swallowed(q[j], b) {}
    forall j | 0 <= j < |q| - k ensures q[k..][j] == q[k + j] {}
    if j :| k <= j < |q| && q[j].last && !Swallowed(q[j], b) { assert q[k..][j - k] == q[j]; }
  }

  // ----- empty pieces -----

  /** A piece that waits has data or ends the stream, unless it has just come to an edge of the window. */
  predicate Solid(q: seq<Seg>, n: int) {
    forall i :: 0 <= i < |q| ==> q[i].last || q[i].data != [] || q[i].start == n
  }

  lemma {:induction false} TrimSolid(q: seq<Seg>, p: int, n: int)
    requires Solid(q, n)
    ensures Solid(Trim(0, q, p), n)
  {
    if q != [] && q[0].start < p && p - q[0].start >= |q[0].data| { TrimSolid(q[1..], p, n); }
  }

  lemma InsertSolid(q: seq<Seg>, b: Seg, n: int)
    requires Solid(q, n) && Solid([b], n)
    ensures Solid(Insert(0, q, b), n)
  {
    hide Trim;
    var k := Place(q, b.start);
    assert [b][0] == b;
    forall p ensures Solid(Trim(0, q[k..], p), n) { TrimSolid(q[k..], p, n); }
  }

  /** What is left after a delivery lies further on. */
  lemma DeliverSolid(st: Rcv, acc: seq<Seg>, stream: seq<Byte>)
    requires Holding(st, acc, stream) && Solid(st.q, st.n)
    ensures Solid(Deliver(st).q, Deliver(st).n)
  {
    DeliverCorrect(st, acc, stream);
    var st' := Deliver(st);
    var k := Ready(st.q, st.n);
    assert st'.n >= st.n;
    hide Covers, AllPartOf, Concat, Ready;
    forall i | 0 <= i < |st'.q| ensures st'.q[i].last || st'.q[i].data != [] {
      assert st'.q[i] == st.q[k + i];
      assert End(st'.q[0]) >= st'.q[0].start > st'.n;
    }
  }

  // ----- the end of the stream -----

  /** Once the whole stream has been delivered nothing waits, so the last piece of all has been handed
      over. */
  lemma AllReady(st: Rcv, acc: seq<Seg>, stream: seq<Byte>)
    requires Holding(st, acc, stream) && Deliver(st).n == |stream|
    ensures Ready(st.q, st.n) == |st.q|
  {
    DeliverCorrect(st, acc, stream);
    var st' := Deliver(st);
    hide Covers, Concat, Ready;
    if st'.q != [] { PartIs(st'.q, stream); }
  }

  /** If some piece of a queue ends the stream, the last one does. */
  lemma LastIsLast(q: seq<Seg>, n: int, stream: seq<Byte>)
    requires Ordered(q) && AllPartOf(q, stream) && Marked(q, stream) && Solid(q, n) && AnyLast(q)
    requires n < |stream| || |q| == 1
    ensures q[|q| - 1].last
  {
    var i :| 0 <= i < |q| && q[i].last;
    var z := q[|q| - 1];
    if i < |q| - 1 {
      assert End(q[i]) <= z.start && PartOf(z, stream);
    }
  }

  /** While the connection is established, a segment reports a FIN exactly if it completes the stream and
      has the FIN itself, or the FIN waited and was not swallowed with its data. */
  lemma FinExact(r: Result, b: Seg, stream: seq<Byte>)
    requires Good(r, stream) && Prompt(r.st) && Solid(r.st.q, r.st.n) && Sent(b, stream) && r.st.n <= b.start
    requires Solid([b], r.st.n) && !Known(r.st.q, b)
    requires Holding(Rcv(r.st.n, Insert(0, r.st.q, b)), r.acc + [b], stream) && Marked(Insert(0, r.st.q, b), stream)
    ensures var st := Rcv(r.st.n, Insert(0, r.st.q, b));
      Fin(st) <==> Deliver(st).n == |stream| && (b.last || LastBeyond(r.st.q, b))
  {
    hide Covers, Insert, Known, Deliver, Concat, Swallowed;
    var q, n := r.st.q, r.st.n;
    var q' := Insert(0, q, b);
    var st := Rcv(n, q');
    InsertMarks(q, b);
    InsertSolid(q, b, n);
    if Fin(st) {
      EndReached(st, r.acc + [b], stream);
      assert AnyLast(q');
    } else if Deliver(st).n == |stream| && AnyLast(q') {
      AllReady(st, r.acc + [b], stream);
      if n == |stream| { AtEnd(q, b, n, stream); }
      LastIsLast(q', n, stream);
    }
  }

  lemma AtEnd(q: seq<Seg>, b: Seg, n: nat, stream: seq<Byte>)
    requires AllPartOf(q, stream) && Prompt(Rcv(n, q)) && n == |stream|
    ensures q == [] && |Insert(0, q, b)| == 1
  {
    if q != [] { PartIs(q, stream); }
  }

  // ----- one call -----

  /** Nothing that could be handed over waits, but for data that wait for the connection. */
  predicate Settled(state: State, st: Rcv) {
    Prompt(st) || Held(state, st)
  }

  /** A queue whose first piece is due keeps it in front. */
  lemma StaysHeld(state: State, st: Rcv, b: Seg)
    requires Held(state, st) && st.n <= b.start
    ensures Held(state, Rcv(st.n, Insert(0, st.q, b)))
  {
  }

  /** A known piece, and data that wait for the connection, leave some of the stream undelivered. */
  lemma NotAtEnd(state: State, st: Rcv, acc: seq<Seg>, stream: seq<Byte>)
    requires Holding(st, acc, stream) && st.q != [] && Settled(state, st)
    ensures st.n < |stream|
  {
    hide Covers;
    PartIs(st.q, stream);
  }

  lemma KnownHas(q: seq<Seg>, b: Seg)
    requires Known(q, b)
    ensures q != []
  {
  }

  /** What a call says of a FIN: it is reported exactly if the call completes the stream and what was
      accepted of the segment has the FIN, or one waited and was not swallowed with its data. */
  ghost predicate FinRight(q: seq<Seg>, c: Clipped, done: bool, verdict: Verdict) {
    match c
    case Nothing => !(verdict.Taken? && verdict.fin)
    case Keep(b) => verdict.Taken? && (verdict.fin <==> done && (b.last || LastBeyond(q, b)))
  }

  lemma TookFin(state: State, r: Result, out: seq<Byte>, s: Seg, syn: bool, wnd: nat, st': Rcv, out': seq<Byte>,
        verdict: Verdict, stream: seq<Byte>)
    requires Good(r, stream) && Sent(s, stream) && Took(state, r.st, out, s, syn, wnd, st', out', verdict)
    requires Settled(state, r.st) && Solid(r.st.q, r.st.n)
    ensures FinRight(r.st.q, Accepted(s, syn, r.st.n, wnd), st'.n == |stream|, verdict)
    ensures Settled(state, st') && Solid(st'.q, st'.n)
  {
    hide Clip, Insert, Known, Held, Deliver, Fin, Covers, Sent, Delivered, Marked, Prompt, LastBeyond, Ordered,
      AllPartOf;
    var c := Accepted(s, syn, r.st.n, wnd);
    if c.Keep? {
      var b := c.s;
      var st := Rcv(r.st.n, Insert(0, r.st.q, b));
      var acc' := r.acc + [b];
      assert Clip(s, r.st.n, wnd) == c && Queued(r.st, s, wnd) == st;
      KeptIs(s, syn, r.st.n, wnd, stream);
      QueuedCorrect(r.st, r.acc, s, wnd, stream);
      QueuedMarked(r.st, r.acc, Event(s, wnd), stream);
      InsertSolid(r.st.q, b, r.st.n);
      hide Took, Accepted, Solid, Holding;
      GoodHolds(r, stream);
      if Known(r.st.q, b) {
        InsertKnown(r.st.q, b);
        KnownHas(r.st.q, b);
        NotAtEnd(state, r.st, r.acc, stream);
        TookKnown(state, r.st, out, s, syn, wnd, st', out', verdict);
      } else if Held(state, st) {
        HeldHas(state, st);
        NotAtEnd(state, st, acc', stream);
        TookKnown(state, r.st, out, s, syn, wnd, st', out', verdict);
      } else {
        if Held(state, r.st) { StaysHeld(state, r.st, b); }
        FinExact(r, b, stream);
        DeliverCorrect(st, acc', stream);
        DeliverSolid(st, acc', stream);
        TookOut(state, r.st, out, s, syn, wnd, st', out', verdict);
      }
    }
  }

  lemma HeldHas(state: State, st: Rcv)
    requires Held(state, st)
    ensures st.q != []
  {
  }

  lemma GoodHolds(r: Result, stream: seq<Byte>)
    requires Good(r, stream)
    ensures Holding(r.st, r.acc, stream)
  {
  }

  /** What is accepted is a piece of the stream in front of nothing that was delivered. */
  lemma KeptIs(s: Seg, syn: bool, n: nat, wnd: nat, stream: seq<Byte>)
    requires Sent(s, stream) && n <= |stream| && Accepted(s, syn, n, wnd).Keep?
    ensures var b := Accepted(s, syn, n, wnd).s; Sent(b, stream) && n <= b.start && Solid([b], n)
  {
    AcceptedExact(s, syn, n, wnd);
    ClipCorrect(s, n, wnd, stream);
    hide Clip;
  }

  lemma TookKnown(state: State, st: Rcv, out: seq<Byte>, s: Seg, syn: bool, wnd: nat, st': Rcv, out': seq<Byte>,
        verdict: Verdict)
    requires Took(state, st, out, s, syn, wnd, st', out', verdict) && Accepted(s, syn, st.n, wnd).Keep?
    requires var b := Accepted(s, syn, st.n, wnd).s;
      Known(st.q, b) || Held(state, Rcv(st.n, Insert(0, st.q, b)))
    ensures verdict == Taken(false) && st' == Rcv(st.n, Insert(0, st.q, Accepted(s, syn, st.n, wnd).s))
  {
  }

  lemma TookOut(state: State, st: Rcv, out: seq<Byte>, s: Seg, syn: bool, wnd: nat, st': Rcv, out': seq<Byte>,
        verdict: Verdict)
    requires Took(state, st, out, s, syn, wnd, st', out', verdict) && Accepted(s, syn, st.n, wnd).Keep?
    requires var b := Accepted(s, syn, st.n, wnd).s;
      !Known(st.q, b) && !Held(state, Rcv(st.n, Insert(0, st.q, b)))
    ensures var queued := Rcv(st.n, Insert(0, st.q, Accepted(s, syn, st.n, wnd).s));
      verdict == Taken(Fin(queued)) && st' == Deliver(queued)
  {
  }

  /** When waiting data are handed over, a FIN is reported exactly if that completes the stream and the last
      piece of all has it. */
  lemma HandedFin(st: Rcv, acc: seq<Seg>, stream: seq<Byte>)
    requires Holding(st, acc, stream) && Marked(st.q, stream)
    ensures Fin(st) <==> Deliver(st).n == |stream| && st.q != [] && st.q[|st.q| - 1].last
  {
    hide Covers, Concat, Ordered, AllPartOf;
    if Fin(st) { EndReached(st, acc, stream); }
    if Deliver(st).n == |stream| { AllReady(st, acc, stream); }
  }

  /** What has been accepted afterwards is what was before and the segment's bytes in the window. */
  ghost predicate Gains(acc: seq<Seg>, acc': seq<Seg>, s: Seg, syn: bool, n: nat, wnd: nat) {
    forall x :: Covers(acc', x) <==> Covers(acc, x) || (n <= x < n + wnd && Has(s, x) && !(syn && n < s.start))
  }

  /** The segment has the FIN, and the window takes it. */
  predicate Closes(s: Seg, syn: bool, n: nat, wnd: nat) {
    s.last && !syn && n <= End(s) <= n + wnd && (wnd > 0 || s.start == n)
  }

  lemma AcceptedCovers(acc: seq<Seg>, s: Seg, syn: bool, n: nat, wnd: nat)
    ensures var c := Accepted(s, syn, n, wnd); Gains(acc, if c.Keep? then acc + [c.s] else acc, s, syn, n, wnd)
  {
    AcceptedExact(s, syn, n, wnd);
    hide Covers, Accepted, Has;
    var c := Accepted(s, syn, n, wnd);
    if c.Keep? {
      forall x ensures Covers(acc + [c.s], x) <==> Covers(acc, x) || Has(c.s, x) {
        CoversConcat(acc, [c.s], x);
        CoversOne(c.s, x);
      }
    }
  }

  // ----- a FIN that is lost -----

  lemma RunThree(r: Result, e1: Event, e2: Event, e3: Event)
    ensures Run(r, [e1]) == Step(r, e1) && Run(r, [e1, e2]) == Step(Step(r, e1), e2)
    ensures Run(r, [e1, e2, e3]) == Step(Step(Step(r, e1), e2), e3)
  {
    hide Step;
    assert [e1][..0] == [] && [e1, e2][..1] == [e1] && [e1, e2, e3][..2] == [e1, e2];
  }

  /** A piece that comes early waits. */
  lemma WaitsBehind(s: Seg)
    requires s.start > 0
    ensures Place([], s.start) == 0 && Insert(0, [], s) == [s] && Ready([s], 0) == 0
    ensures Deliver(Rcv(0, [s])) == Rcv(0, [s]) && Delivered(Rcv(0, [s])) == [] && !Fin(Rcv(0, [s]))
  {
    assert [s][..0] == [] && [s][0..] == [s];
    assert [] + [s] + [] == [s];
  }

  /** One that is known changes nothing. */
  lemma KnownWaits(s: Seg, b: Seg)
    requires 0 < s.start < b.start && End(b) <= End(s) && |b.data| > 0
    ensures Insert(0, [s], b) == [s]
  {
    assert Place([s], b.start) == 1 + Place([], b.start);
  }

  /** What joins a piece that waits is handed over with it. */
  lemma JoinsWaiting(s: Seg, b: Seg)
    requires b.start == 0 && End(b) == s.start && s.start > 0
    ensures Insert(0, [s], b) == [b, s] && Ready([b, s], 0) == 2 && Delivered(Rcv(0, [b, s])) == b.data + s.data
    ensures Fin(Rcv(0, [b, s])) == s.last
  {
    assert Place([s], 0) == 0;
    assert [] + [b] + [s] == [b, s];
    assert [b, s][1..] == [s] && [s][1..] == [];
    assert Ready([], End(s)) == 0 && Ready([s], End(b)) == 1;
    assert [b, s][..2] == [b, s];
    assert Concat([b, s]) == b.data + Concat([s]);
    assert Concat([s]) == s.data + Concat([]);
  }

  /** A piece in the window, from the beginning, is accepted as it is. */
  lemma Whole(s: Seg, wnd: nat)
    requires 0 <= s.start && End(s) <= wnd && |s.data| > 0
    ensures Clip(s, 0, wnd) == Keep(s)
  {
  }

  /** A FIN whose data wait already is dropped with them: a later piece `s1`, the end `s2` of it with the
      FIN, and the piece `s3` before it. Then all of the stream has been delivered, and no call has
      reported the FIN that came. */
  lemma FinLost(s1: Seg, s2: Seg, s3: Seg, wnd: nat)
    requires 0 < s1.start < s2.start && End(s2) == End(s1) <= wnd && |s2.data| > 0 && s2.last && !s1.last
    requires s3.start == 0 && End(s3) == s1.start
    ensures var e1, e2, e3 := Event(s1, wnd), Event(s2, wnd), Event(s3, wnd);
      && Run(Start(), [e1, e2, e3]).out == s3.data + s1.data && Run(Start(), [e1, e2, e3]).st.n == End(s1)
      && !Fin(Queued(Start().st, s1, wnd)) && !Fin(Queued(Run(Start(), [e1]).st, s2, wnd))
      && !Fin(Queued(Run(Start(), [e1, e2]).st, s3, wnd))
  {
    var e1, e2, e3 := Event(s1, wnd), Event(s2, wnd), Event(s3, wnd);
    RunThree(Start(), e1, e2, e3);
    Whole(s1, wnd);
    Whole(s2, wnd);
    Whole(s3, wnd);
    WaitsBehind(s1);
    KnownWaits(s1, s2);
    JoinsWaiting(s1, s3);
    assert Deliver(Rcv(0, [s3, s1])).n == |Delivered(Rcv(0, [s3, s1]))|;
    hide Clip, Insert, Deliver, Delivered, Fin, Run, Ready, Concat;
    assert Step(Start(), e1) == Result(Rcv(0, [s1]), [], [s1]);
    assert Step(Step(Start(), e1), e2) == Result(Rcv(0, [s1]), [], [s1, s2]);
    assert [] + (s3.data + s1.data) == s3.data + s1.data;
  }
}
