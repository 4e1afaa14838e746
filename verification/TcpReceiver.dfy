/** A connection's receiver over whole histories of calls: segments arrive, the connection becomes
    established, the user reads. */
module TcpReceiver {
  import opened Segments
  import opened TcpStream
  import opened TcpReassembly
  import opened TcpFin
  import SocketBuffer

  class TcpReceiver {
    const tp: Tcpcb
    ghost const stream: seq<Byte>     // what the sender sends
    ghost var taken: seq<Byte>        // what the user has read
    ghost var acc: seq<Seg>           // what of the segments was accepted
    ghost var since: Result           // how things stood when the connection became established
    ghost var events: seq<Event>      // the segments taken since then

    ghost predicate Valid()
      reads this, tp, tp.so_rcv
    {
      && tp.Valid() && Good(Now(), stream)
      && (tp.t_state.Established? ==> Logged(since, events, stream, Now()))
      && Settled(tp.t_state, tp.St()) && Solid(tp.q, tp.n)
    }

    /** How things stand: what was delivered is what the user has read and can read. */
    ghost function Now(): Result
      requires tp.Valid()
      reads this, tp, tp.so_rcv
    {
      Result(tp.St(), taken + tp.so_rcv.Contents(), acc)
    }

    constructor (irs: int, so_rcv: SocketBuffer.SockBuf, ghost stream: seq<Byte>)
      requires so_rcv.Valid() && so_rcv.sb_hiwat <= MAXWND && so_rcv.Contents() == []
      ensures Valid() && this.stream == stream && fresh(tp) && tp.so_rcv == so_rcv && Now() == Start()
    {
      tp := new Tcpcb(irs, so_rcv);
      this.stream, taken, acc := stream, [], [];
      since, events := Start(), [];
      StartGood(stream);
    }

    /** A segment of the stream arrives, perhaps with a SYN. Before the connection is established its
        data may wait; then, a segment that is taken is one step of a run. Exactly the bytes in the window
        are accepted. A FIN is reported exactly when all of the stream has been delivered by a segment that
        has the FIN, or completes it in front of one that waits. */
    method Input(ti: Tseg, syn: bool, ghost s: Seg) returns (verdict: Verdict)
      requires Valid() && Arrived(ti, syn, s, tp.base, tp.n) && Sent(s, stream)
      modifies this, tp, tp.so_rcv
      ensures Valid() && tp.t_state == old(tp.t_state) && taken == old(taken)
      ensures Now() == After(tp.t_state, old(Now()), s, syn, old(Window(tp.so_rcv.Sbspace())))
      ensures verdict.Taken? && verdict.fin ==> Now().out == stream
      ensures Judged(verdict, s, syn, old(tp.n), old(Window(tp.so_rcv.Sbspace())))
      ensures Gains(old(acc), acc, s, syn, old(tp.n), old(Window(tp.so_rcv.Sbspace())))
      ensures FinRight(old(tp.q), Accepted(s, syn, old(tp.n), old(Window(tp.so_rcv.Sbspace()))),
                       Now().out == stream, verdict)
      ensures Closes(s, syn, old(tp.n), old(Window(tp.so_rcv.Sbspace()))) ==>
        Now().out == stream ==> verdict == Taken(true)
    {
      hide Gains, Closes, Settled, Solid, FinRight, Judged;
      hide Good, Logged, Sent, Arrived, Accepted, After, Took, Run, Step;
      ghost var wnd := Window(tp.so_rcv.Sbspace());
      ghost var r, c, state := Now(), Accepted(s, syn, tp.n, wnd), tp.t_state;
      AfterGood(state, r, s, syn, wnd, stream);
      if state.Established? { LogMore(since, events, stream, r, s, syn, wnd); }
      AcceptedCovers(acc, s, syn, tp.n, wnd);
      ghost var st, out := tp.St(), tp.so_rcv.Contents();
      hide Tcpcb.Valid, SocketBuffer.SockBuf.Valid, SocketBuffer.SockBuf.Contents;
      verdict := tp.TcpInput(ti, syn, s);
      AfterIs(state, r, s, syn, wnd, taken, out, tp.St(), tp.so_rcv.Contents(), verdict, stream);
      FinIs(state, r, taken, out, s, syn, wnd, tp.St(), tp.so_rcv.Contents(), verdict, stream);
      if c.Keep? {
        acc := acc + [c.s];
        events := events + [Event(s, wnd)];
      }
    }

    /** The connection becomes established. */
    method Establish() returns (fin: bool)
      requires Valid()
      modifies this, tp, tp.so_rcv
      ensures Valid() && tp.t_state.Established? && taken == old(taken) && since == Now() && events == []
      ensures Now() == Handed(old(Now())) && (fin ==> Now().out == stream)
      ensures fin <==> Now().out == stream && old(tp.q) != [] && old(tp.q[|tp.q| - 1]).last
    {
      hide Good, Deliver, Delivered, Fin, Prompt, Logged;
      ghost var r := Now();
      HandedGood(r, taken, tp.so_rcv.Contents(), stream);
      hide Tcpcb.Valid, SocketBuffer.SockBuf.Valid, SocketBuffer.SockBuf.Contents;
      fin := tp.Establish();
      since, events := Now(), [];
    }

    /** The user reads `len` bytes. */
    method Read(len: nat) returns (ghost bytes: seq<Byte>)
      requires Valid() && len <= tp.so_rcv.sb_cc
      modifies this, tp.so_rcv
      ensures Valid() && Now() == old(Now()) && tp.t_state == old(tp.t_state)
      ensures |bytes| == len && bytes <= old(tp.so_rcv.Contents()) && taken == old(taken) + bytes
    {
      hide Ordered, AllPartOf, Settled, Solid;
      ghost var c := tp.so_rcv.Contents();
      hide Good, Logged;
      bytes := c[..len];
      Joined(taken, bytes, c[len..]);
      tp.so_rcv.Sbdrop(len);
      taken := taken + bytes;
    }

    /** At any time: what the user has read, and can read, is the beginning of the stream; and once the
        connection is established it is all that was accepted without a gap. */
    lemma Prefix()
      requires Valid()
      ensures taken + tp.so_rcv.Contents() == stream[..tp.n] && tp.n <= |stream|
      ensures tp.t_state.Established? ==>
        Now() == Run(since, events) && (forall x :: 0 <= x < tp.n ==> Covers(acc, x)) && !Covers(acc, tp.n)
    {
      if tp.t_state.Established? { RunCorrect(since, events, stream); }
    }
  }

  /** A run from `since` on, when the connection became established. */
  ghost predicate Logged(since: Result, events: seq<Event>, stream: seq<Byte>, now: Result) {
    Good(since, stream) && Prompt(since.st) && AllEventsSent(events, stream) && now == Run(since, events)
  }

  /** What the arrival of a segment makes of a receiver in a given state. */
  function After(state: State, r: Result, s: Seg, syn: bool, wnd: nat): Result {
    match Accepted(s, syn, r.st.n, wnd)
    case Nothing => r
    case Keep(b) =>
      var st := Rcv(r.st.n, Insert(0, r.st.q, b));
      if Known(r.st.q, b) || Held(state, st) then Result(st, r.out, r.acc + [b])
      else Result(Deliver(st), r.out + Delivered(st), r.acc + [b])
  }

  /** Data that waited are handed over. */
  function Handed(r: Result): Result {
    Result(Deliver(r.st), r.out + Delivered(r.st), r.acc)
  }

  lemma AcceptedClip(s: Seg, syn: bool, n: nat, wnd: nat)
    ensures Accepted(s, syn, n, wnd).Keep? ==> Accepted(s, syn, n, wnd) == Clip(s, n, wnd)
  {
  }

  lemma AfterGood(state: State, r: Result, s: Seg, syn: bool, wnd: nat, stream: seq<Byte>)
    requires Good(r, stream) && Sent(s, stream)
    ensures Good(After(state, r, s, syn, wnd), stream)
    ensures Accepted(s, syn, r.st.n, wnd).Keep? && Fin(Queued(r.st, s, wnd)) ==> Step(r, Event(s, wnd)).out == stream
  {
    hide Clip, Insert, Fin, Known, Held, Deliver, Delivered, Marked, Holding, Prompt, Covers, Accepted, Sent;
    var c := Accepted(s, syn, r.st.n, wnd);
    AcceptedClip(s, syn, r.st.n, wnd);
    var e := Event(s, wnd);
    if c.Keep? {
      QueuedCorrect(r.st, r.acc, s, wnd, stream);
      QueuedMarked(r.st, r.acc, e, stream);
      StepCorrect(r, e, stream);
      if Fin(Queued(r.st, s, wnd)) { FinAtEnd(r, e, stream); }
    }
  }

  /** While the connection is established, a segment that is taken is a step. */
  lemma LogMore(since: Result, events: seq<Event>, stream: seq<Byte>, r: Result, s: Seg, syn: bool, wnd: nat)
    requires Logged(since, events, stream, r) && Sent(s, stream)
    ensures Logged(since, if Accepted(s, syn, r.st.n, wnd).Keep? then events + [Event(s, wnd)] else events, stream,
                   After(Established, r, s, syn, wnd))
  {
    RunCorrect(since, events, stream);
    InputIsStep(r, s, syn, wnd);
    assert (events + [Event(s, wnd)])[..|events|] == events;
    hide Good, Step, Sent, Prompt, After, Accepted, Covers;
  }

  /** Once the connection is established, a segment that is taken does what a step of a run does. */
  lemma InputIsStep(r: Result, s: Seg, syn: bool, wnd: nat)
    requires Prompt(r.st)
    ensures After(Established, r, s, syn, wnd) ==
      if Accepted(s, syn, r.st.n, wnd).Keep? then Step(r, Event(s, wnd)) else r
  {
    AcceptedClip(s, syn, r.st.n, wnd);
    hide Insert, Known, Clip, Accepted;
    assert r.st.q[..0] == [] && Concat([]) == [];
    var c := Accepted(s, syn, r.st.n, wnd);
    if c.Keep? { InsertKnown(r.st.q, c.s); }
  }

  lemma Joined(u: seq<Byte>, v: seq<Byte>, w: seq<Byte>)
    ensures (u + v) + w == u + (v + w)
  {
  }

  /** What `TcpInput` does is that; and a FIN that it reports ends the stream. */
  lemma AfterIs(state: State, r: Result, s: Seg, syn: bool, wnd: nat, taken: seq<Byte>, out: seq<Byte>,
                st: Rcv, out': seq<Byte>, verdict: Verdict, stream: seq<Byte>)
    requires Good(r, stream) && Sent(s, stream) && r.out == taken + out
    requires Took(state, r.st, out, s, syn, wnd, st, out', verdict)
    ensures var c := Accepted(s, syn, r.st.n, wnd);
      After(state, r, s, syn, wnd) == Result(st, taken + out', if c.Keep? then r.acc + [c.s] else r.acc)
    ensures verdict.Taken? && verdict.fin ==> taken + out' == stream
  {
    AfterGood(state, r, s, syn, wnd, stream);
    AcceptedClip(s, syn, r.st.n, wnd);
    hide Insert, Known, Held, Deliver, Delivered, Accepted, Clip, Good, Sent, Fin;
    var c := Accepted(s, syn, r.st.n, wnd);
    if c.Keep? { Joined(taken, out, Delivered(Rcv(r.st.n, Insert(0, r.st.q, c.s)))); }
  }

  /** And a FIN is reported when it should be. */
  lemma FinIs(state: State, r: Result, taken: seq<Byte>, out: seq<Byte>, s: Seg, syn: bool, wnd: nat, st: Rcv,
        out': seq<Byte>, verdict: Verdict, stream: seq<Byte>)
    requires Good(r, stream) && Sent(s, stream) && Took(state, r.st, out, s, syn, wnd, st, out', verdict)
    requires Settled(state, r.st) && Solid(r.st.q, r.st.n)
    requires var c := Accepted(s, syn, r.st.n, wnd);
      Good(Result(st, taken + out', if c.Keep? then r.acc + [c.s] else r.acc), stream)
    ensures Judged(verdict, s, syn, r.st.n, wnd)
    ensures FinRight(r.st.q, Accepted(s, syn, r.st.n, wnd), taken + out' == stream, verdict)
    ensures Closes(s, syn, r.st.n, wnd) && taken + out' == stream ==> verdict == Taken(true)
    ensures Settled(state, st) && Solid(st.q, st.n)
  {
    AcceptedExact(s, syn, r.st.n, wnd);
    TookFin(state, r, out, s, syn, wnd, st, out', verdict, stream);
    hide Insert, Known, Held, Deliver, Accepted, Clip, Fin, Covers, LastBeyond, Solid, Prompt;
  }

  lemma HandedGood(r: Result, taken: seq<Byte>, contents: seq<Byte>, stream: seq<Byte>)
    requires Good(r, stream) && r.out == taken + contents
    ensures Good(Handed(r), stream) && Prompt(Handed(r).st) && Logged(Handed(r), [], stream, Handed(r))
    ensures Handed(r) == Result(Deliver(r.st), taken + (contents + Delivered(r.st)), r.acc)
    ensures Fin(r.st) ==> Handed(r).out == stream
    ensures Fin(r.st) <==> Handed(r).out == stream && r.st.q != [] && r.st.q[|r.st.q| - 1].last
    ensures Solid(r.st.q, r.st.n) ==> Solid(Deliver(r.st).q, Deliver(r.st).n)
  {
    hide Ordered, AllPartOf, AllAbove, Covers, Marked;
    assert Deliver(r.st).n >= r.st.n;
    DeliverCorrect(r.st, r.acc, stream);
    DeliverMarked(r.st, stream);
    if Fin(r.st) { EndReached(r.st, r.acc, stream); }
    HandedFin(r.st, r.acc, stream);
    if Solid(r.st.q, r.st.n) { DeliverSolid(r.st, r.acc, stream); }
    hide Solid;
    hide Deliver, Delivered, Fin, Prompt;
    Slices(stream, 0, r.st.n, Deliver(r.st).n);
    Joined(taken, contents, Delivered(r.st));
  }
}
