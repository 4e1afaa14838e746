/** Input of data segments: trimming to the receive window, and reassembly, with 32-bit sequence
    numbers that wrap around. */
module TcpReassembly {
  import opened Segments
  import opened TcpStream
  import Mbufs
  import opened SocketBuffer

  const TWO32 := 0x1_0000_0000
  const TWO31 := 0x8000_0000

  /** The largest window: the field is a short. */
  const MAXWND := 32767

  // ----- sequence numbers -----

  /** The sequence number of position `p` of a stream that begins at `base`. */
  function SeqOf(base: int, p: int): int {
    (base + p) % TWO32
  }

  /** Unsigned 32-bit arithmetic, and its conversion to int. */
  function U32(x: int): int {
    x % TWO32
  }

  function Signed(x: int): int {
    Wrap(TWO31, x)
  }

  predicate SeqGt(a: int, b: int) {
    Signed(U32(a - b)) > 0
  }

  lemma WrapModulo(x: int, k: int)
    requires -TWO31 <= x < TWO31
    ensures Signed(x + k * TWO32) == x
  {
  }

  /** Differences of sequence numbers are right within half the sequence space. */
  lemma Difference(base: int, p: int, q: int, d: int)
    requires -TWO31 <= p + d - q < TWO31
    ensures Signed(U32(SeqOf(base, p) + d - SeqOf(base, q))) == p + d - q
  {
    var a, b := (base + p) / TWO32, (base + q) / TWO32;
    var x := SeqOf(base, p) + d - SeqOf(base, q);
    assert x == p + d - q + (b - a) * TWO32;
    var c := x / TWO32;
    assert U32(x) == p + d - q + (b - a - c) * TWO32;
    WrapModulo(p + d - q, b - a - c);
  }

  /** The test for data beyond the window, for a segment whose `len` bytes begin `d` behind the next
      one expected: it is right exactly when the excess is less than half the sequence space. */
  lemma WindowTest(d: int, len: int, wnd: int)
    requires 0 <= d < TWO31 && 0 <= len <= MAXWND && 0 < wnd <= MAXWND
    ensures (Signed(U32(d + len - wnd)) > 0 <==> d + len > wnd) <==> d + len - wnd < TWO31
  {
    var x := d + len - wnd;
    if x < TWO31 {
      var c := x / TWO32;
      WrapModulo(x, -c);
    } else {
      WrapModulo(x - TWO32, 1);
    }
  }

  /** A segment at the far end of the sequence space: the test takes it for one inside the window. */
  lemma WindowTestFails()
    ensures var d, len, wnd := TWO31 - 1, 2, 1; d + len > wnd && !(Signed(U32(d + len - wnd)) > 0)
  {
    WindowTest(TWO31 - 1, 2, 1);
  }

  lemma Advance(base: int, p: int, d: int)
    ensures U32(SeqOf(base, p) + d) == SeqOf(base, p + d)
  {
  }

  // ----- segments -----

  datatype Tseg = Tseg(num: int, len: int, fin: bool, m: seq<Mbufs.Mbuf>)

  /** Segment `t` is the piece `s` of the stream. */
  predicate Is(t: Tseg, s: Seg, base: int) {
    && t.num == SeqOf(base, s.start) && t.len == |s.data| && t.fin == s.last
    && Mbufs.AllValid(t.m) && t.m != [] && Mbufs.Bytes(t.m) == s.data
  }

  predicate AllAre(q: seq<Tseg>, pieces: seq<Seg>, base: int) {
    |q| == |pieces| && forall i :: 0 <= i < |q| ==> Is(q[i], pieces[i], base)
  }

  /** The pieces lie between positions `lo` and `hi`. */
  predicate Between(pieces: seq<Seg>, lo: int, hi: int) {
    forall i :: 0 <= i < |pieces| ==> lo <= pieces[i].start && End(pieces[i]) <= hi
  }

  /** Drops the first `i` bytes. */
  method TrimFront(t: Tseg, i: nat, ghost s: Seg, ghost base: int) returns (t': Tseg)
    requires Is(t, s, base) && i <= |s.data|
    ensures Is(t', Drop(0, s, i), base)
  {
    hide Mbufs.Bytes;
    Advance(base, s.start, i);
    var m := Mbufs.MAdj(t.m, i);
    t' := Tseg(U32(t.num + i), t.len - i, t.fin, m);
  }

  lemma Compare(base: int, p: int, q: int)
    requires -TWO31 <= p - q < TWO31
    ensures SeqGt(SeqOf(base, p), SeqOf(base, q)) <==> p > q
  {
    Difference(base, p, q, 0);
  }

  /** How many segments begin no later than sequence number `num`, up to the first that does. */
  method FindAfter(q: seq<Tseg>, num: int, ghost pieces: seq<Seg>, ghost p: int, ghost base: int, ghost lo: int)
    returns (k: nat)
    requires AllAre(q, pieces, base) && num == SeqOf(base, p)
    requires Between(pieces, lo, lo + MAXWND) && lo <= p <= lo + MAXWND
    ensures k <= |q| && k == Place(pieces, p)
  {
    hide SeqOf, SeqGt;
    k := 0;
    while k < |q|
      invariant k <= |q| && Place(pieces, p) == k + Place(pieces[k..], p)
    {
      assert Is(q[k], pieces[k], base) && lo <= pieces[k].start <= lo + MAXWND;
      Compare(base, pieces[k].start, p);
      if SeqGt(q[k].num, num) {
        break;
      }
      k := k + 1;
    }
  }

  /** Trims the segments from the k-th on that begin before the end of segment `ti`, or takes them
      out when they are covered. */
  method TrimLater(q0: seq<Tseg>, k: nat, ti: Tseg, ghost pieces0: seq<Seg>, ghost s: Seg, ghost base: int,
        ghost lo: int)
    returns (q: seq<Tseg>, ghost pieces: seq<Seg>)
    requires AllAre(q0, pieces0, base) && Is(ti, s, base) && k <= |q0|
    requires Between(pieces0, lo, lo + MAXWND) && Between([s], lo, lo + MAXWND)
    ensures AllAre(q, pieces, base) && pieces == pieces0[..k] + Trim(0, pieces0[k..], End(s))
  {
    hide Is, SeqOf, U32, Signed, Drop;
    q, pieces := q0, pieces0;
    assert Between([s], lo, lo + MAXWND) && [s][0] == s;
    while k < |q|
      invariant AllAre(q, pieces, base) && k <= |q| && pieces[..k] == pieces0[..k] && Between(pieces, lo, lo + MAXWND)
      invariant Trim(0, pieces[k..], End(s)) == Trim(0, pieces0[k..], End(s))
      decreases |q|
    {
      Overlap(ti, s, q[k], pieces[k], base);
      var i := Signed(U32(ti.num + ti.len - q[k].num));
      if i <= 0 {
        break;
      }
      if i < q[k].len {
        var t := TrimFront(q[k], i, pieces[k], base);
        q := q[k := t];
        pieces := pieces[k := Drop(0, pieces[k], i)];
        assert pieces == pieces0[..k] + Trim(0, pieces0[k..], End(s));
        return;
      }
      q := q[..k] + q[k + 1..];
      pieces := pieces[..k] + pieces[k + 1..];
    }
    assert pieces == pieces[..k] + pieces[k..];
  }

  lemma Around(v: seq<Seg>, k: nat, s: Seg, q: seq<Seg>, w: seq<Seg>)
    requires k <= |q| && v == q[..k] + w
    ensures v[..k] + [s] + v[k..] == q[..k] + [s] + w
  {
  }

  /** What a preceding segment has of segment `ti0` is dropped from it. */
  method TrimKnown(segs: seq<Tseg>, ti0: Tseg, ghost q: seq<Seg>, ghost s: Seg, ghost base: int, ghost lo: int)
    returns (kept: bool, k: nat, ti: Tseg, ghost s': Seg)
    requires AllAre(segs, q, base) && Is(ti0, s, base) && Between(q, lo, lo + MAXWND) && lo <= s.start
    requires End(s) <= lo + MAXWND
    ensures k == Place(q, s.start) && kept == !Known(q, s)
    ensures var i := if k > 0 then End(q[k - 1]) - s.start else 0; kept ==> s' == if i > 0 then Drop(0, s, i) else s
    ensures kept ==> Is(ti, s', base) && lo <= s'.start && End(s') <= lo + MAXWND
  {
    hide SeqOf, U32, Signed, Mbufs.Bytes;
    ti, s' := ti0, s;
    k := FindAfter(segs, ti.num, q, s.start, base, lo);
    kept := true;
    if k > 0 {
      assert Is(segs[k - 1], q[k - 1], base);
      Overlap(segs[k - 1], q[k - 1], ti, s, base);
      var i := Signed(U32(segs[k - 1].num + segs[k - 1].len - ti.num));
      if i > 0 {
        if i >= ti.len {
          kept := false;
          return;
        }
        ti := TrimFront(ti, i, s, base);
        s' := Drop(0, s, i);
      }
    }
  }

  /** How far segment `t` reaches into segment `u`. */
  lemma Overlap(t: Tseg, s: Seg, u: Tseg, r: Seg, base: int)
    requires Is(t, s, base) && Is(u, r, base) && -TWO31 <= End(s) - r.start < TWO31
    ensures Signed(U32(t.num + t.len - u.num)) == End(s) - r.start && u.len == |r.data|
  {
    Difference(base, s.start, r.start, t.len);
  }

  lemma SameNumber(base: int, p: int, q: int)
    requires -TWO31 <= p - q < TWO31
    ensures SeqOf(base, p) == SeqOf(base, q) <==> p == q
  {
    Difference(base, p, q, 0);
    WrapModulo(0, 0);
  }

  lemma {:induction false} TrimOrdered(q: seq<Seg>, p: int)
    requires Ordered(q)
    ensures Ordered(Trim(0, q, p)) && AllAbove(Trim(0, q, p), p)
  {
    if q != [] && q[0].start < p {
      if p - q[0].start >= |q[0].data| { TrimOrdered(q[1..], p); }
    }
  }

  lemma InsertOrdered(q: seq<Seg>, s: Seg)
    requires Ordered(q)
    ensures Ordered(Insert(0, q, s))
  {
    hide Trim;
    var k := Place(q, s.start);
    forall p ensures Ordered(Trim(0, q[k..], p)) && AllAbove(Trim(0, q[k..], p), p) { TrimOrdered(q[k..], p); }
  }

  lemma {:induction false} TrimBetween(q: seq<Seg>, p: int, lo: int, hi: int)
    requires Between(q, lo, hi)
    ensures Between(Trim(0, q, p), lo, hi)
  {
    if q != [] && q[0].start < p {
      if p - q[0].start >= |q[0].data| { TrimBetween(q[1..], p, lo, hi); }
    }
  }

  lemma InsertBetween(q: seq<Seg>, s: Seg, lo: int, hi: int)
    requires Between(q, lo, hi) && lo <= s.start && End(s) <= hi
    ensures Between(Insert(0, q, s), lo, hi)
  {
    hide Trim;
    var k := Place(q, s.start);
    forall p ensures Between(Trim(0, q[k..], p), lo, hi) { TrimBetween(q[k..], p, lo, hi); }
  }

  /** The queue has the whole of piece `s` already. */
  predicate Known(q: seq<Seg>, s: Seg) {
    var k := Place(q, s.start);
    var i := if k > 0 then End(q[k - 1]) - s.start else 0;
    i > 0 && i >= |s.data|
  }

  lemma InsertKnown(q: seq<Seg>, s: Seg)
    ensures Known(q, s) ==> Insert(0, q, s) == q
  {
    hide Trim;
  }

  datatype State = SynReceived | Established

  datatype Verdict = DropAfterAck | Reset | Taken(fin: bool)

  /** Before the connection is established, data wait. */
  predicate Held(state: State, st: Rcv) {
    state.SynReceived? && st.q != [] && st.q[0].start == st.n && |st.q[0].data| > 0
  }

  /** The queue `segs` behind sequence number `rcv_nxt` stands for `q` behind position `n`. */
  ghost predicate Stands(rcv_nxt: int, segs: seq<Tseg>, n: nat, q: seq<Seg>, base: int) {
    rcv_nxt == SeqOf(base, n) && AllAre(segs, q, base) && Ordered(q) && Between(q, n, n + MAXWND)
  }

  lemma StandsParts(rcv_nxt: int, segs: seq<Tseg>, n: nat, q: seq<Seg>, base: int)
    ensures Stands(rcv_nxt, segs, n, q, base) <==>
              rcv_nxt == SeqOf(base, n) && AllAre(segs, q, base) && Ordered(q) && Between(q, n, n + MAXWND)
  {
  }

  /** The first piece's turn has come exactly when its sequence number is the next. */
  lemma TurnIs(rcv_nxt: int, segs: seq<Tseg>, n: nat, q: seq<Seg>, base: int)
    requires Stands(rcv_nxt, segs, n, q, base)
    ensures |segs| == |q|
    ensures segs != [] ==> (segs[0].num == rcv_nxt <==> q[0].start == n) && Is(segs[0], q[0], base)
  {
    hide SeqOf;
    if segs != [] {
      assert Is(segs[0], q[0], base);
      SameNumber(base, q[0].start, n);
    }
  }

  lemma TurnTaken(rcv_nxt: int, segs: seq<Tseg>, n: nat, q: seq<Seg>, base: int)
    requires Stands(rcv_nxt, segs, n, q, base) && q != [] && q[0].start == n && segs != []
    ensures Is(segs[0], q[0], base)
    ensures Stands(U32(rcv_nxt + segs[0].len), segs[1..], n + |q[0].data|, q[1..], base)
  {
    hide SeqOf, U32;
    assert Is(segs[0], q[0], base);
    Advance(base, n, |q[0].data|);
    forall i | 0 <= i < |q| - 1 ensures n + |q[0].data| <= q[1..][i].start && End(q[1..][i]) <= n + MAXWND {
      assert End(q[0]) <= q[i + 1].start;
    }
  }

  class Tcpcb {
    ghost const base: int               // the sequence number of the stream's beginning
    const so_rcv: SockBuf
    var rcv_nxt: int
    var segs: seq<Tseg>                 // the reassembly queue
    var t_state: State
    ghost var n: nat                    // how much of the stream has been delivered
    ghost var q: seq<Seg>               // what the queue stands for

    ghost predicate Valid()
      reads this, so_rcv
    {
      && Stands(rcv_nxt, segs, n, q, base)
      && so_rcv.Valid() && so_rcv.sb_hiwat <= MAXWND
    }

    ghost function St(): Rcv
      reads this
    {
      Rcv(n, q)
    }

    constructor (irs: int, so_rcv: SockBuf)
      requires so_rcv.Valid() && so_rcv.sb_hiwat <= MAXWND
      ensures Valid() && base == irs + 1 && this.so_rcv == so_rcv && St() == Rcv(0, []) && t_state == SynReceived
    {
      base, this.so_rcv, rcv_nxt, segs, t_state, n, q := irs + 1, so_rcv, U32(irs + 1), [], SynReceived, 0, [];
    }

    /** Hands the first segment's data over. */
    method PresentOne() returns (fin: bool)
      requires Valid() && q != [] && q[0].start == n
      modifies this, so_rcv
      ensures Valid() && t_state == old(t_state) && fin == old(q)[0].last
      ensures n == old(n) + |old(q)[0].data| && q == old(q)[1..]
      ensures so_rcv.Contents() == old(so_rcv.Contents()) + old(q)[0].data
    {
      hide Stands, Mbufs.Bytes;
      TurnIs(rcv_nxt, segs, n, q, base);
      TurnTaken(rcv_nxt, segs, n, q, base);
      rcv_nxt := U32(rcv_nxt + segs[0].len);
      fin := segs[0].fin;
      so_rcv.Sbappend(segs[0].m);
      n := n + segs[0].len;
      segs := segs[1..];
      q := q[1..];
    }

    /** Hands the data that are ready over to the user. */
    method PresentAll() returns (fin: bool, ghost k: nat)
      requires Valid()
      modifies this, so_rcv
      ensures Valid() && t_state == old(t_state)
      ensures k == Ready(old(q), old(n)) && q == old(q)[k..] && n == old(n) + |Concat(old(q)[..k])|
      ensures so_rcv.Contents() == old(so_rcv.Contents()) + Concat(old(q)[..k]) && fin == (k > 0 && old(q)[k - 1].last)
    {
      hide Stands, Concat, Mbufs.Bytes, Mbufs.AllValid, Is;
      fin := false;
      k := 0;
      ghost var q0, n0 := q, n;
      assert q0[..0] == [];
      ConcatNone();
      assert q0[0..] == q0;
      while segs != [] && segs[0].num == rcv_nxt
        invariant Valid() && t_state == old(t_state) && k <= |q0| && q == q0[k..] && n == n0 + |Concat(q0[..k])|
        invariant Ready(q0, n0) == k + Ready(q, n)
        invariant so_rcv.Contents() == old(so_rcv.Contents()) + Concat(q0[..k])
        invariant fin == (k > 0 && q0[k - 1].last)
        decreases |q|
      {
        TurnIs(rcv_nxt, segs, n, q, base);
        ConcatPush(q0, k);
        fin := PresentOne();
        k := k + 1;
      }
      TurnIs(rcv_nxt, segs, n, q, base);
    }

    /** Hands the data that are ready over, unless they have to wait; tells whether the last had a
        FIN. */
    method Present() returns (fin: bool)
      requires Valid()
      modifies this, so_rcv
      ensures Valid() && t_state == old(t_state)
      ensures if Held(t_state, old(St())) then St() == old(St()) && so_rcv.Contents() == old(so_rcv.Contents()) && !fin
        else
          && St() == Deliver(old(St())) && so_rcv.Contents() == old(so_rcv.Contents()) + Delivered(old(St()))
          && fin == Fin(old(St()))
    {
      hide Stands, Concat, Mbufs.Bytes, Ready;
      TurnIs(rcv_nxt, segs, n, q, base);
      if segs != [] && segs[0].num == rcv_nxt && t_state.SynReceived? && segs[0].len > 0 {
        return false;
      }
      ghost var k;
      fin, k := PresentAll();
    }

    /** Puts segment `ti` in its place in the queue, trimming what is there already; tells whether
        it is kept. */
    method Enqueue(ti0: Tseg, ghost s: Seg) returns (kept: bool)
      requires Valid() && Is(ti0, s, base) && n <= s.start && End(s) <= n + MAXWND
      modifies this
      ensures Valid() && t_state == old(t_state) && n == old(n) && q == Insert(0, old(q), s)
      ensures kept == !Known(old(q), s)
    {
      hide Stands, Mbufs.Bytes, Drop, Trim, Is;
      var k, ti;
      ghost var s';
      InsertKnown(q, s);
      StandsParts(rcv_nxt, segs, n, q, base);
      kept, k, ti, s' := TrimKnown(segs, ti0, q, s, base, n);
      if !kept {
        return;
      }
      InsertOrdered(q, s);
      InsertBetween(q, s, n, n + MAXWND);
      ghost var v;
      segs, v := TrimLater(segs, k, ti, q, s', base, n);
      AllAreInsert(segs, v, k, ti, s', base);
      Around(v, k, s', q, Trim(0, q[k..], End(s')));
      segs := segs[..k] + [ti] + segs[k..];
      q := v[..k] + [s'] + v[k..];
      StandsParts(rcv_nxt, segs, n, q, base);
    }

    /** A segment that was trimmed to the window arrives. */
    method TcpReass(ti: Tseg, ghost s: Seg) returns (fin: bool)
      requires Valid() && Is(ti, s, base) && n <= s.start && End(s) <= n + MAXWND
      modifies this, so_rcv
      ensures Valid() && t_state == old(t_state)
      ensures var st := Rcv(old(n), Insert(0, old(q), s));
        if Known(old(q), s) || Held(t_state, st) then St() == st && so_rcv.Contents() == old(so_rcv.Contents()) && !fin
        else St() == Deliver(st) && so_rcv.Contents() == old(so_rcv.Contents()) + Delivered(st) && fin == Fin(st)
    {
      hide Stands, Mbufs.Bytes, Insert, Known;
      var kept := Enqueue(ti, s);
      if !kept {
        return false;
      }
      fin := Present();
    }

    /** Trims segment `ti0` to a closed window. */
    method TrimToNothing(ti0: Tseg, syn: bool, ghost s: Seg) returns (verdict: Verdict, more: bool, ti: Tseg)
      requires Valid() && Arrived(ti0, syn, s, base, n)
      ensures Judged(verdict, s, syn, n, 0)
      ensures var c := Accepted(s, syn, n, 0);
        if verdict.Taken? then more == c.Keep? && (more ==> Is(ti, c.s, base)) else c.Nothing?
    {
      hide SeqOf, U32, Signed, Mbufs.Bytes;
      verdict, more, ti := DropAfterAck, false, ti0;
      var edge;
      edge, ti := AtEdge(rcv_nxt, ti0, Segment(s, syn), base, n);
      hide Is, Stands;
      if edge {
        verdict := if syn then Reset else Taken(ti0.fin);
        more := !syn && ti0.fin;
      }
    }

    /** Trims segment `ti0` to an open window. */
    method TrimToOpen(ti0: Tseg, syn: bool, wnd: nat, ghost s: Seg) returns (verdict: Verdict, more: bool, ti: Tseg)
      requires Valid() && 0 < wnd <= MAXWND && Arrived(ti0, syn, s, base, n)
      ensures Judged(verdict, s, syn, n, wnd)
      ensures var c := Accepted(s, syn, n, wnd);
        if verdict.Taken? then more == c.Keep? && (more ==> Is(ti, c.s, base)) else c.Nothing?
    {
      verdict, more := DropAfterAck, false;
      assert rcv_nxt == SeqOf(base, n);
      hide Is, Stands, Accepted, SeqOf, Arrived, OldDropped, BeyondDropped;
      var out, syn';
      ghost var a, b := s, s;
      out, syn', ti, a := DropOld(rcv_nxt, ti0, syn, s, base, n);
      var out' := false;
      if !out {
        out', ti, b := DropBeyond(rcv_nxt, wnd, ti, a, base, n);
      }
      BothDropped(s, syn, n, wnd, out, syn', a, out', b);
      if !out && !out' {
        LengthIs(ti, b, base);
        verdict := if syn' then Reset else Taken(ti0.fin);
        more := !syn' && (ti.len > 0 || ti0.fin);
      }
    }

    /** Trims segment `ti0` to the receive window; `syn` tells whether it has a SYN, which comes
        before its data `s` in sequence. What is left goes on if `more`. */
    method TrimToWindow(ti0: Tseg, syn: bool, wnd: nat, ghost s: Seg) returns (verdict: Verdict, more: bool, ti: Tseg)
      requires Valid() && wnd <= MAXWND && Arrived(ti0, syn, s, base, n)
      ensures Judged(verdict, s, syn, n, wnd)
      ensures var c := Accepted(s, syn, n, wnd);
        if verdict.Taken? then more == c.Keep? && (more ==> Is(ti, c.s, base)) else c.Nothing?
    {
      hide Accepted, Is, Stands;
      if wnd == 0 {
        verdict, more, ti := TrimToNothing(ti0, syn, s);
      } else {
        verdict, more, ti := TrimToOpen(ti0, syn, wnd, s);
      }
    }

    /** The connection becomes established: data that waited are handed over. */
    method Establish() returns (fin: bool)
      requires Valid()
      modifies this, so_rcv
      ensures Valid() && t_state == Established
      ensures St() == Deliver(old(St())) && so_rcv.Contents() == old(so_rcv.Contents()) + Delivered(old(St()))
      ensures fin == Fin(old(St()))
    {
      t_state := Established;
      fin := Present();
    }

    /** A segment arrives: it is trimmed to the window that the receive buffer leaves, and what is
        left is put in its place. */
    method TcpInput(ti0: Tseg, syn: bool, ghost s: Seg) returns (verdict: Verdict)
      requires Valid() && Arrived(ti0, syn, s, base, n)
      modifies this, so_rcv
      ensures Valid() && t_state == old(t_state)
      ensures Took(t_state, old(St()), old(so_rcv.Contents()), s, syn, Window(old(so_rcv.Sbspace())),
                   St(), so_rcv.Contents(), verdict)
    {
      hide Stands, Mbufs.Bytes, Insert, Known, Held, Deliver, Delivered, Fin, Clip, Is;
      var wnd := so_rcv.Sbspace();
      if wnd < 0 {
        wnd := 0;
      }
      assert wnd <= MAXWND;
      var more, ti;
      verdict, more, ti := TrimToWindow(ti0, syn, wnd, s);
      if verdict.Taken? {
        ghost var c := Accepted(s, syn, n, wnd);
        var fin := false;
        if more {
          AcceptedBounds(s, syn, n, wnd);
          fin := TcpReass(ti, c.s);
        }
        verdict := Taken(fin);
      }
    }
  }

  /** What the arrival of a segment comes to: nothing; or its piece `b` is put in its place and, unless
      all of it was known or data wait for the connection, what is ready is handed over. */
  ghost predicate Took(state: State, st: Rcv, out: seq<Byte>, s: Seg, syn: bool, wnd: nat,
                       st': Rcv, out': seq<Byte>, verdict: Verdict)
  {
    Judged(verdict, s, syn, st.n, wnd) &&
    match Accepted(s, syn, st.n, wnd)
    case Nothing => st' == st && out' == out && !(verdict.Taken? && verdict.fin)
    case Keep(b) =>
      var queued := Rcv(st.n, Insert(0, st.q, b));
      && verdict.Taken?
      && if Known(st.q, b) || Held(state, queued) then st' == queued && out' == out && !verdict.fin
         else st' == Deliver(queued) && out' == out + Delivered(queued) && verdict.fin == Fin(queued)
  }

  function Window(space: int): nat {
    if space < 0 then 0 else space
  }

  /** The window is the number of bytes that may still come before either count of the buffer is at its limit. */
  lemma WindowExact(b: SockBuf, k: nat)
    ensures k <= Window(b.Sbspace()) <==> k == 0 || (b.sb_cc + k <= b.sb_hiwat && b.sb_mbcnt + k <= b.sb_mbmax)
  {
  }

  lemma AcceptedBounds(s: Seg, syn: bool, n: nat, wnd: nat)
    requires Accepted(s, syn, n, wnd).Keep?
    ensures var b := Accepted(s, syn, n, wnd).s; n <= b.start && End(b) <= n + wnd
  {
  }

  /** The segment as far as its sequence number tells: a SYN counts as one position. */
  function Segment(s: Seg, syn: bool): Seg {
    if syn then s.(start := s.start - 1) else s
  }

  lemma LengthIs(ti: Tseg, s: Seg, base: int)
    requires Is(ti, s, base)
    ensures ti.len == |s.data|
  {
  }

  /** Segment `ti` with data `s` arrives, within half the sequence space from position `n`. */
  ghost predicate Arrived(ti: Tseg, syn: bool, s: Seg, base: int, n: nat) {
    Is(ti, Segment(s, syn), base) && n - TWO31 < s.start - 1 && End(s) - n < TWO31
  }

  datatype Standing = Outside | SynInside | Inside

  /** Where a segment stands to the window: one with nothing new for it, or that begins behind it, is
      outside, and into a closed window only what begins at its edge goes. A SYN there is an error. */
  function StandingOf(s: Seg, syn: bool, n: nat, wnd: nat): Standing {
    var first := if syn then s.start - 1 else s.start;
    if wnd == 0 && first != n then Outside
    else if wnd > 0 && first < n && (End(s) < n || (End(s) == n && !s.last)) then Outside
    else if wnd > 0 && n + wnd <= first && n + wnd < first + |s.data| then Outside
    else if syn && n <= first then SynInside
    else Inside
  }

  /** The verdict for that. */
  predicate Judged(verdict: Verdict, s: Seg, syn: bool, n: nat, wnd: nat) {
    match StandingOf(s, syn, n, wnd)
    case Outside => verdict.DropAfterAck?
    case SynInside => verdict.Reset?
    case Inside => verdict.Taken?
  }

  /** What of a segment goes on; one with a SYN in the window does not, nor into a closed window. */
  function Accepted(s: Seg, syn: bool, n: nat, wnd: nat): Clipped {
    if syn && (n < s.start || wnd == 0) then Nothing else Clip(s, n, wnd)
  }

  /** What `DropOld` leaves of `s`; `syn'` tells whether its SYN is left. */
  ghost predicate OldDropped(s: Seg, syn: bool, n: nat, out: bool, syn': bool, a: Seg) {
    var drop := n - s.start;
    && syn' == (syn && n < s.start)
    && out == (|| (drop > 0 && (drop > |s.data| || (drop == |s.data| && !s.last)))
               || (syn && drop == 0 && |s.data| == 0 && !s.last))
    && (!out ==> a == if drop > 0 then Drop(0, s, drop) else if syn' then Segment(s, syn) else s)
  }

  /** What `DropBeyond` leaves of `a`. */
  ghost predicate BeyondDropped(a: Seg, n: nat, wnd: nat, out: bool, b: Seg) {
    var over := End(a) - (n + wnd);
    if out then over > 0 && over >= |a.data|
    else !(over > 0 && over >= |a.data|) && b == if over > 0 then Seg(a.start, a.data[..|a.data| - over], false) else a
  }

  /** The two together. */
  lemma BothDropped(s: Seg, syn: bool, n: nat, wnd: nat, out: bool, syn': bool, a: Seg, out': bool, b: Seg)
    requires 0 < wnd && OldDropped(s, syn, n, out, syn', a) && (!out ==> BeyondDropped(a, n, wnd, out', b))
    ensures StandingOf(s, syn, n, wnd) == if out || out' then Outside else if syn' then SynInside else Inside
    ensures out || out' || syn' ==> Accepted(s, syn, n, wnd).Nothing?
    ensures !out && !out' && !syn' ==>
      Accepted(s, syn, n, wnd) == if |b.data| > 0 || s.last then Keep(b) else Nothing
  {
  }

  /** With the window closed only a segment at its edge goes on, without its data. */
  method AtEdge(rcv_nxt: int, ti0: Tseg, ghost a: Seg, ghost base: int, ghost n: nat) returns (edge: bool, ti: Tseg)
    requires rcv_nxt == SeqOf(base, n) && Is(ti0, a, base) && -TWO31 <= n - a.start < TWO31
    ensures edge == (a.start == n) && ti0.fin == a.last && (edge ==> Is(ti, Seg(n, [], a.last && |a.data| == 0), base))
  {
    hide SeqOf, Mbufs.Bytes;
    ti := ti0;
    SameNumber(base, n, a.start);
    edge := rcv_nxt == ti.num;
    if edge && ti.len > 0 {
      var m := Mbufs.MAdj(ti.m, ti.len);
      ti := ti.(len := 0, fin := false, m := m);
    }
  }

  /** Drops the SYN and the data before `rcv_nxt`; `a` is what is left. */
  method DropOld(rcv_nxt: int, ti0: Tseg, syn: bool, ghost s: Seg, ghost base: int, ghost n: nat)
    returns (out: bool, syn': bool, ti: Tseg, ghost a: Seg)
    requires rcv_nxt == SeqOf(base, n) && Arrived(ti0, syn, s, base, n)
    ensures ti0.fin == s.last && OldDropped(s, syn, n, out, syn', a)
    ensures !out ==> Is(ti, a, base) && -TWO31 <= End(a) - n < TWO31
  {
    hide SeqOf, U32, Signed, Mbufs.Bytes;
    ti, syn', out, a := ti0, syn, false, Segment(s, syn);
    Difference(base, n, a.start, 0);
    var todrop := Signed(U32(rcv_nxt - ti.num));
    if todrop > 0 {
      if syn {
        syn' := false;
        Advance(base, a.start, 1);
        ti := ti.(num := U32(ti.num + 1));
        a := s;
        todrop := todrop - 1;
      }
      if todrop > ti.len || (todrop == ti.len && !ti.fin) {
        out := true;
        return;
      }
      ti := TrimFront(ti, todrop, a, base);
      a := Drop(0, a, todrop);
      assert s.data[0..] == s.data;
    }
  }

  /** Drops the data beyond the window, and with them a FIN. */
  method DropBeyond(rcv_nxt: int, wnd: nat, ti0: Tseg, ghost a: Seg, ghost base: int, ghost n: nat)
    returns (out: bool, ti: Tseg, ghost b: Seg)
    requires rcv_nxt == SeqOf(base, n) && Is(ti0, a, base) && -TWO31 + MAXWND <= End(a) - n < TWO31 && wnd <= MAXWND
    ensures BeyondDropped(a, n, wnd, out, b) && (!out ==> Is(ti, b, base))
  {
    hide SeqOf, U32, Signed, Mbufs.Bytes;
    ti, b, out := ti0, a, false;
    Difference(base, a.start, n, ti.len - wnd);
    var todrop := Signed(U32(ti.num + ti.len - (rcv_nxt + wnd)));
    assert ti.num + ti.len - (rcv_nxt + wnd) == ti.num + (ti.len - wnd) - rcv_nxt;
    if todrop > 0 {
      if todrop >= ti.len {
        out := true;
        return;
      }
      var m;
      if ti.m[0].len > 0 {
        m := Mbufs.MAdj(ti.m, -todrop);
      } else {
        // the first mbuf had only the headers
        assert ti.m == [ti.m[0]] + ti.m[1..];
        FirstEmpty(ti.m);
        Mbufs.BytesNone();
        m := Mbufs.MAdj(ti.m[1..], -todrop);
        assert ([ti.m[0]] + m)[1..] == m;
        FirstEmpty([ti.m[0]] + m);
        m := [ti.m[0]] + m;
      }
      b := Seg(a.start, a.data[..|a.data| - todrop], false);
      ti := ti.(len := ti.len - todrop, fin := false, m := m);
    }
  }

  lemma FirstEmpty(m: seq<Mbufs.Mbuf>)
    requires m != [] && Mbufs.Valid(m[0]) && Mbufs.AllValid(m[1..]) && m[0].len == 0
    ensures Mbufs.AllValid(m) && Mbufs.Bytes(m) == Mbufs.Bytes(m[1..])
  {
  }

  lemma AllAreInsert(segs: seq<Tseg>, v: seq<Seg>, k: nat, ti: Tseg, s: Seg, base: int)
    requires AllAre(segs, v, base) && k <= |segs| && Is(ti, s, base)
    ensures AllAre(segs[..k] + [ti] + segs[k..], v[..k] + [s] + v[k..], base)
  {
    hide Is;
  }

  lemma ConcatPush(q: seq<Seg>, k: nat)
    requires k < |q|
    ensures Concat(q[..k + 1]) == Concat(q[..k]) + q[k].data
  {
    if k > 0 {
      ConcatPush(q[1..], k - 1);
      assert q[1..][..k] == q[..k + 1][1..] && q[1..][..k - 1] == q[..k][1..];
    } else {
      assert q[..1][1..] == [];
    }
  }
}
