/** The receiving side of a connection, by positions in the sender's stream. */
module TcpStream {
  import opened Segments

  /** `n` bytes of the stream have been delivered; `q` waits. */
  datatype Rcv = Rcv(n: nat, q: seq<Seg>)

  datatype Clipped = Nothing | Keep(s: Seg)

  /** What of a segment goes on to reassembly with `n` bytes delivered and a window of `wnd` more:
      data delivered before and data beyond the window are cut off, the latter with a FIN. */
  function Clip(s: Seg, n: nat, wnd: nat): Clipped {
    if wnd == 0 then
      if s.start != n || !s.last then Nothing else Keep(Seg(n, [], |s.data| == 0))
    else
      var drop := n - s.start;
      if drop > 0 && (drop > |s.data| || (drop == |s.data| && !s.last)) then Nothing
      else
        var a := if drop > 0 then Drop(0, s, drop) else s;
        var over := End(a) - (n + wnd);
        if over > 0 && over >= |a.data| then Nothing
        else
          var b := if over > 0 then Seg(a.start, a.data[..|a.data| - over], false) else a;
          if |b.data| > 0 || s.last then Keep(b) else Nothing
  }

  /** How many pieces at the front of the queue can be delivered from position `n` on. */
  function Ready(q: seq<Seg>, n: nat): (k: nat)
    ensures k <= |q|
  {
    if q == [] || q[0].start != n then 0 else 1 + Ready(q[1..], n + |q[0].data|)
  }

  /** Delivering what is ready. */
  function Deliver(st: Rcv): Rcv {
    var k := Ready(st.q, st.n);
    Rcv(st.n + |Concat(st.q[..k])|, st.q[k..])
  }

  function Delivered(st: Rcv): seq<Byte> {
    Concat(st.q[..Ready(st.q, st.n)])
  }

  /** A segment arrives. */
  function Queued(st: Rcv, s: Seg, wnd: nat): Rcv {
    match Clip(s, st.n, wnd)
    case Nothing => st
    case Keep(s') => Rcv(st.n, Insert(0, st.q, s'))
  }

  // ----- what holds at any time -----

  /** What has been accepted so far, `acc`, is what was delivered and what waits behind it. */
  ghost predicate Holding(st: Rcv, acc: seq<Seg>, stream: seq<Byte>) {
    && st.n <= |stream| && Ordered(st.q) && AllPartOf(st.q, stream) && AllAbove(st.q, st.n)
    && forall x :: 0 <= x < st.n || Covers(st.q, x) <==> Covers(acc, x)
  }

  /** Nothing that could be delivered waits. */
  predicate Prompt(st: Rcv) {
    st.q != [] ==> st.n < st.q[0].start
  }

  /** A FIN comes only with the end of the stream. */
  predicate Sent(s: Seg, stream: seq<Byte>) {
    PartOf(s, stream) && (s.last ==> End(s) == |stream|)
  }

  predicate AllSent(q: seq<Seg>, stream: seq<Byte>) {
    forall i :: 0 <= i < |q| ==> Sent(q[i], stream)
  }

  lemma ClipCorrect(s: Seg, n: nat, wnd: nat, stream: seq<Byte>)
    requires Sent(s, stream) && n <= |stream|
    ensures match Clip(s, n, wnd)
      case Nothing => true
      case Keep(s') => Sent(s', stream) && n <= s'.start && End(s') <= n + wnd
    ensures forall x :: n <= x < n + wnd && Has(s, x) ==> Clip(s, n, wnd).Keep? && Has(Clip(s, n, wnd).s, x)
    ensures forall x :: Clip(s, n, wnd).Keep? && Has(Clip(s, n, wnd).s, x) ==> n <= x < n + wnd && Has(s, x)
  {
    if Clip(s, n, wnd).Keep? && wnd > 0 {
      var drop := n - s.start;
      if drop > 0 { DropSent(s, drop, stream); }
      var a := if drop > 0 then Drop(0, s, drop) else s;
      TakeSent(a, Clip(s, n, wnd).s, stream);
    }
  }

  lemma DropSent(s: Seg, i: nat, stream: seq<Byte>)
    requires Sent(s, stream) && i <= |s.data|
    ensures Sent(Drop(0, s, i), stream)
  {
  }

  lemma TakeSent(s: Seg, b: Seg, stream: seq<Byte>)
    requires Sent(s, stream) && (b == s || (|b.data| <= |s.data| && b == Seg(s.start, s.data[..|b.data|], false)))
    ensures Sent(b, stream)
  {
  }

  /** Delivered pieces are the stream from position `n` on, and then no piece waits for that. */
  lemma {:induction false} ReadyCorrect(q: seq<Seg>, n: nat, stream: seq<Byte>)
    requires Ordered(q) && AllPartOf(q, stream) && AllAbove(q, n) && n <= |stream|
    ensures var k := Ready(q, n); var n' := n + |Concat(q[..k])|;
      && Gapless(q[..k], n) && Ordered(q[k..]) && AllPartOf(q[k..], stream) && AllAbove(q[k..], n')
      && Prompt(Rcv(n', q[k..]))
    decreases |q|
  {
    hide Ordered, AllPartOf, PartOf, Gapless, Concat;
    var k := Ready(q, n);
    if k == 0 {
      assert q[..0] == [] && q[0..] == q;
      FirstReady([], n);
    } else {
      var first, rest := q[0], q[1..];
      PartIs(q, stream);
      Cut(q, 1, stream);
      assert AllAbove(rest, End(first));
      ReadyCorrect(rest, End(first), stream);
      var k' := Ready(rest, End(first));
      assert q[..k] == [first] + rest[..k'] && q[k..] == rest[k'..];
      hide AllAbove, Prompt;
      FirstReady([first] + rest[..k'], n);
      assert ([first] + rest[..k'])[1..] == rest[..k'];
    }
  }

  lemma FirstReady(q: seq<Seg>, n: nat)
    ensures q == [] ==> Gapless(q, n) && Concat(q) == []
    ensures q != [] && q[0].start == n && Gapless(q[1..], n + |q[0].data|) ==>
      Gapless(q, n) && |Concat(q)| == |q[0].data| + |Concat(q[1..])|
  {
  }

  lemma ReadyBytes(q: seq<Seg>, n: nat, stream: seq<Byte>)
    requires Ordered(q) && AllPartOf(q, stream) && AllAbove(q, n) && n <= |stream|
    ensures var k := Ready(q, n); var c := Concat(q[..k]); var n' := n + |c|;
      && n' <= |stream| && c == stream[n..n'] && (k > 0 ==> End(q[k - 1]) == n')
      && forall x :: Covers(q, x) <==> n <= x < n' || Covers(q[k..], x)
  {
    hide Ordered, AllPartOf, AllAbove, AllBelow, Covers, Concat, Ready, Gapless, Prompt, End;
    var k := Ready(q, n);
    ReadyCorrect(q, n, stream);
    Cut(q, k, stream);
    FrontBytes(q[..k], q[k..], n, stream);
    if k > 0 { LastOf(q, k); }
  }

  lemma LastOf(q: seq<Seg>, k: nat)
    requires 0 < k <= |q|
    ensures q[..k] != [] && |q[..k]| == k && q[..k][|q[..k]| - 1] == q[k - 1]
  {
  }

  /** A gapless front of a queue is a piece of the stream, and covers just that. */
  lemma FrontBytes(u: seq<Seg>, v: seq<Seg>, n: nat, stream: seq<Byte>)
    requires AllPartOf(u, stream) && Gapless(u, n) && n <= |stream|
    ensures var c := Concat(u); var n' := n + |c|;
      && n' <= |stream| && c == stream[n..n'] && (u != [] ==> End(u[|u| - 1]) == n')
      && forall x :: Covers(u + v, x) <==> n <= x < n' || Covers(v, x)
  {
    hide AllPartOf, Gapless, Concat, Covers, End;
    GaplessIs(u, n, stream);
    forall x ensures Covers(u + v, x) <==> Covers(u, x) || Covers(v, x) { CoversConcat(u, v, x); }
  }

  lemma PartIs(q: seq<Seg>, stream: seq<Byte>)
    requires q != [] && AllPartOf(q, stream)
    ensures 0 <= q[0].start && End(q[0]) <= |stream| && q[0].data == stream[q[0].start..End(q[0])]
  {
    assert PartOf(q[0], stream);
  }

  /** Delivering keeps what holds, and makes the receiver prompt. */
  lemma DeliverCorrect(st: Rcv, acc: seq<Seg>, stream: seq<Byte>)
    requires Holding(st, acc, stream)
    ensures var st' := Deliver(st);
      Holding(st', acc, stream) && Prompt(st') && Delivered(st) == stream[st.n..st'.n]
  {
    hide Ordered, AllPartOf, Covers, AllAbove;
    ReadyCorrect(st.q, st.n, stream);
    ReadyBytes(st.q, st.n, stream);
  }

  lemma InsertAbove(q: seq<Seg>, s: Seg, n: int, stream: seq<Byte>)
    requires Ordered(q) && AllPartOf(q, stream) && AllAbove(q, n) && PartOf(s, stream) && n <= s.start
    ensures AllAbove(Insert(0, q, s), n)
  {
    hide Trim, PartOf, Ordered, AllPartOf;
    var k := Place(q, s.start);
    Cut(q, k, stream);
    forall p ensures AllAbove(Trim(0, q[k..], p), p) {
      TrimCorrect(q[k..], p, stream);
    }
  }

  /** A segment that arrives adds what of it is in the window to what has been accepted. */
  lemma QueuedCorrect(st: Rcv, acc: seq<Seg>, s: Seg, wnd: nat, stream: seq<Byte>)
    requires Holding(st, acc, stream) && Sent(s, stream)
    ensures var c := Clip(s, st.n, wnd); var acc' := if c.Keep? then acc + [c.s] else acc;
      Holding(Queued(st, s, wnd), acc', stream)
  {
    hide Ordered, AllPartOf, Covers, AllAbove, Insert, Clip, PartOf;
    ClipCorrect(s, st.n, wnd, stream);
    var c := Clip(s, st.n, wnd);
    if c.Keep? {
      InsertCorrect(st.q, c.s, stream);
      InsertAbove(st.q, c.s, st.n, stream);
      forall x ensures Covers(acc + [c.s], x) <==> Covers(acc, x) || Has(c.s, x) {
        CoversConcat(acc, [c.s], x);
        CoversOne(c.s, x);
      }
    }
  }

  // ----- whole runs -----

  datatype Event = Event(s: Seg, wnd: nat)

  /** After a run of segments, each with the window of its time: what is left, what was delivered,
      and what of the segments was accepted. */
  datatype Result = Result(st: Rcv, out: seq<Byte>, acc: seq<Seg>)

  function Step(r: Result, e: Event): Result {
    var c := Clip(e.s, r.st.n, e.wnd);
    var st := Queued(r.st, e.s, e.wnd);
    Result(Deliver(st), r.out + Delivered(st), if c.Keep? then r.acc + [c.s] else r.acc)
  }

  function Run(r0: Result, events: seq<Event>): Result {
    if events == [] then r0
    else Step(Run(r0, events[..|events| - 1]), events[|events| - 1])
  }

  /** Nothing has come yet. */
  function Start(): Result {
    Result(Rcv(0, []), [], [])
  }

  /** What has been delivered is the beginning of the stream, and what waits are later pieces of it. */
  ghost predicate Good(r: Result, stream: seq<Byte>) {
    Holding(r.st, r.acc, stream) && r.out == stream[..r.st.n] && Marked(r.st.q, stream)
  }

  ghost predicate AllEventsSent(events: seq<Event>, stream: seq<Byte>) {
    forall i :: 0 <= i < |events| ==> Sent(events[i].s, stream)
  }

  lemma StartGood(stream: seq<Byte>)
    ensures Good(Start(), stream) && Prompt(Start().st)
  {
  }

  /** Whatever the order, repetitions and overlaps of the segments, and whatever the windows: what
      has been delivered is the beginning of the stream, each byte once and in order, and it is all
      that was accepted without a gap. */
  lemma {:induction false} RunCorrect(r0: Result, events: seq<Event>, stream: seq<Byte>)
    requires Good(r0, stream) && Prompt(r0.st) && AllEventsSent(events, stream)
    ensures var r := Run(r0, events);
      && Good(r, stream) && Prompt(r.st)
      && (forall x :: 0 <= x < r.st.n ==> Covers(r.acc, x)) && !Covers(r.acc, r.st.n)
    decreases |events|
  {
    hide Good, Step, Sent, Prompt, Covers;
    if events != [] {
      var front, e := events[..|events| - 1], events[|events| - 1];
      RunCorrect(r0, front, stream);
      StepCorrect(Run(r0, front), e, stream);
    } else {
      GoodCovers(r0, stream);
    }
  }

  lemma GoodCovers(r: Result, stream: seq<Byte>)
    requires Good(r, stream) && Prompt(r.st)
    ensures (forall x :: 0 <= x < r.st.n ==> Covers(r.acc, x)) && !Covers(r.acc, r.st.n)
  {
    hide Covers, Ordered, AllPartOf;
    Missing(r.st, stream);
  }

  lemma StepCorrect(r: Result, e: Event, stream: seq<Byte>)
    requires Good(r, stream) && Sent(e.s, stream)
    ensures var r' := Step(r, e);
      && Good(r', stream) && Prompt(r'.st)
      && (forall x :: 0 <= x < r'.st.n ==> Covers(r'.acc, x)) && !Covers(r'.acc, r'.st.n)
  {
    assert Queued(r.st, e.s, e.wnd).n == r.st.n;
    assert Deliver(Queued(r.st, e.s, e.wnd)).n >= r.st.n;
    hide Covers, Ordered, AllPartOf, AllAbove, Clip, Sent, Deliver, Delivered, Queued, Marked;
    QueuedCorrect(r.st, r.acc, e.s, e.wnd, stream);
    QueuedMarked(r.st, r.acc, e, stream);
    var st, r' := Queued(r.st, e.s, e.wnd), Step(r, e);
    DeliverCorrect(st, r'.acc, stream);
    DeliverMarked(st, stream);
    Slices(stream, 0, st.n, r'.st.n);
    GoodCovers(r', stream);
  }

  lemma DeliverMarked(st: Rcv, stream: seq<Byte>)
    requires Marked(st.q, stream)
    ensures Marked(Deliver(st).q, stream)
  {
  }

  /** A prompt receiver does not have the next byte. */
  lemma Missing(st: Rcv, stream: seq<Byte>)
    requires Ordered(st.q) && AllPartOf(st.q, stream) && Prompt(st)
    ensures !Covers(st.q, st.n)
  {
    if st.q != [] { AllLater(st.q, st.n + 1); }
  }

  /** Once everything has been accepted, everything has been delivered. */
  lemma AllDelivered(r0: Result, events: seq<Event>, stream: seq<Byte>)
    requires Good(r0, stream) && Prompt(r0.st) && AllEventsSent(events, stream)
    requires CoversAll(Run(r0, events).acc, stream)
    ensures Run(r0, events).out == stream
  {
    hide Covers, Run;
    RunCorrect(r0, events, stream);
  }

  /** The FIN flag of the last piece delivered. */
  predicate Fin(st: Rcv) {
    var k := Ready(st.q, st.n);
    k > 0 && st.q[k - 1].last
  }

  predicate Marked(q: seq<Seg>, stream: seq<Byte>) {
    forall i :: 0 <= i < |q| && q[i].last ==> End(q[i]) == |stream|
  }

  lemma MarksKept(q: seq<Seg>, s: Seg, stream: seq<Byte>)
    requires Ordered(q) && AllPartOf(q, stream) && Marked(q, stream) && Sent(s, stream)
    ensures Marked(Insert(0, q, s), stream)
  {
    hide Insert, Ordered, AllPartOf, PartOf;
    InsertCorrect(q, s, stream);
    var q' := Insert(0, q, s);
    forall i | 0 <= i < |q'| && q'[i].last ensures End(q'[i]) == |stream| {
      assert EndsLike(q'[i], q + [s]);
    }
  }

  lemma QueuedMarked(st: Rcv, acc: seq<Seg>, e: Event, stream: seq<Byte>)
    requires Holding(st, acc, stream) && Marked(st.q, stream) && Sent(e.s, stream)
    ensures Marked(Queued(st, e.s, e.wnd).q, stream)
  {
    hide Ordered, AllPartOf, Insert, Clip, Covers, AllAbove, Marked, Sent;
    ClipCorrect(e.s, st.n, e.wnd, stream);
    var c := Clip(e.s, st.n, e.wnd);
    if c.Keep? { MarksKept(st.q, c.s, stream); }
  }

  /** A FIN is reported only when the whole stream has been delivered. */
  lemma FinAtEnd(r: Result, e: Event, stream: seq<Byte>)
    requires Good(r, stream) && Sent(e.s, stream) && Fin(Queued(r.st, e.s, e.wnd))
    ensures Step(r, e).out == stream
  {
    hide Ordered, AllPartOf, Clip, Covers, AllAbove, Sent, Holding, Insert, Queued, Concat;
    QueuedCorrect(r.st, r.acc, e.s, e.wnd, stream);
    QueuedMarked(r.st, r.acc, e, stream);
    StepCorrect(r, e, stream);
    EndReached(Queued(r.st, e.s, e.wnd), Step(r, e).acc, stream);
  }

  lemma EndReached(st: Rcv, acc: seq<Seg>, stream: seq<Byte>)
    requires Holding(st, acc, stream) && Marked(st.q, stream) && Fin(st)
    ensures Deliver(st).n == |stream|
  {
    ReadyBytes(st.q, st.n, stream);
  }
}
