/** Datagrams from one host to another: every packet is sent with `IpOutput`, at the source and at the
    routers, and taken with `Ipintr` at the destination, where packets of other datagrams arrive too. */
module IpTransit {
  import opened Segments
  import opened IpReassembly
  import opened IpFragments
  import opened IpRun
  import Mbufs

  predicate NoneDont(ps: seq<Packet>) {
    forall p :: p in ps ==> !DontFragment(p.off)
  }

  lemma BringParts(ps: seq<Packet>, i: nat, qs: seq<Packet>)
    requires ValidPackets(ps) && ValidPackets(qs) && i < |ps|
    ensures ValidPackets(ps[..i] + qs + ps[i + 1..])
    ensures Bring(ps[..i] + qs + ps[i + 1..]) == Bring(ps)[..i] + Bring(qs) + Bring(ps)[i + 1..]
  {
    hide Brings, ValidPacket;
  }

  /** The i-th packet under way comes to a link of `mtu` bytes. */
  method Forward(ps: seq<Packet>, h: Hop) returns (ok: bool, r: seq<Packet>)
    requires ValidPackets(ps) && NoneDont(ps)
    ensures ok <==> CanHop(Bring(ps), h)
    ensures ok ==> ValidPackets(r) && NoneDont(r) && Bring(r) == OneHop(Bring(ps), h)
  {
    hide Cross, Brings, DontFragment, Mbufs.Bytes, ValidPacket;
    ok, r := false, ps;
    if h.i < |ps| {
      PacketData(ps[h.i]);
      var o := IpOutput(ps[h.i], h.mtu);
      if o.Sent? {
        BringParts(ps, h.i, o.packets);
        ok, r := true, ps[..h.i] + o.packets + ps[h.i + 1..];
      }
    }
  }

  /** A packet and what becomes of it cross one link after the other, as far as they can. */
  method Transmit(ip: Packet, hops: seq<Hop>) returns (ok: bool, ps: seq<Packet>)
    requires ValidPacket(ip) && !DontFragment(ip.off)
    ensures ValidPackets(ps) && (ok <==> CanTravel([Brings(ip)], hops))
    ensures ok ==> Bring(ps) == Travel([Brings(ip)], hops)
  {
    hide OneHop, CanHop, Brings, DontFragment, ValidPacket;
    ps := [ip];
    assert Bring(ps) == [Brings(ip)];
    var k := 0;
    assert hops[0..] == hops;
    while k < |hops|
      invariant 0 <= k <= |hops| && ValidPackets(ps) && NoneDont(ps)
      invariant CanTravel([Brings(ip)], hops) <==> CanTravel(Bring(ps), hops[k..])
      invariant CanTravel(Bring(ps), hops[k..]) ==> Travel([Brings(ip)], hops) == Travel(Bring(ps), hops[k..])
    {
      assert hops[k..][1..] == hops[k + 1..];
      var r;
      ok, r := Forward(ps, hops[k]);
      if !ok {
        return;
      }
      ps := r;
      k := k + 1;
    }
    ok := true;
  }

  /** A packet as the destination sees it: whose it is, and what it brings. */
  function Seen(key: Key, p: Packet): Arrival
    requires ValidPacket(p)
  {
    Arrival(key, Arriving(Brings(p)))
  }

  lemma SeenField(p: Packet)
    requires ValidPacket(p)
    ensures Short(8 * p.off) == Short(8 * Units(p.off)) && 0 <= p.off < 0x10000 && (Fragmented(p.off) <==> More(p.off))
  {
    var k := p.off / 0x2000;
    assert 8 * p.off == 8 * Units(p.off) + k * 0x10000;
    Around(8 * Units(p.off) + HALF, k);
  }

  lemma Around(x: int, k: int)
    ensures (x + k * 0x10000) % 0x10000 == x % 0x10000
  {
  }

  /** The input routine takes a packet, with its header in an mbuf of its own. */
  method Arrive(input: IpInput, key: Key, p: Packet) returns (ds: seq<Delivery>)
    requires ValidQueues(input.ipq) && ValidPacket(p)
    modifies input
    ensures ValidQueues(input.ipq) && (ds, Abstract(input.ipq)) == Turn(Abstract(old(input.ipq)), Seen(key, p))
  {
    var header := seq(HLEN, _ => 0);
    Mbufs.FreshData(header);
    var first := Mbufs.Fresh(header);
    PacketData(p);
    SeenField(p);
    Behind(first, p.m, header);
    ghost var was := input.ipq;
    hide Took, Mbufs.Bytes, Mbufs.AllValid, ValidQueues, Abstract, Turn, Units, More, Fragmented, Short, Mbufs.Fresh;
    var r := input.Ipintr(key, HLEN, p.len, p.off, [first] + p.m);
    TookRuns(was, key, Arriving(Brings(p)), input.ipq, r);
    ds := if r.Datagram? then [Delivery(key, Mbufs.Bytes(r.m))] else [];
  }

  lemma Behind(first: Mbufs.Mbuf, m: seq<Mbufs.Mbuf>, header: seq<Byte>)
    requires Mbufs.Valid(first) && Mbufs.Data(first) == header && Mbufs.AllValid(m)
    ensures Mbufs.AllValid([first] + m) && Mbufs.Bytes([first] + m) == header + Mbufs.Bytes(m)
    ensures Mbufs.Bytes([first] + m)[|header|..|header| + |Mbufs.Bytes(m)|] == Mbufs.Bytes(m)
  {
    assert ([first] + m)[1..] == m;
  }

  /** A packet that comes to the destination. */
  datatype Incoming = Incoming(key: Key, p: Packet)

  predicate AllIncoming(incoming: seq<Incoming>) {
    forall i :: 0 <= i < |incoming| ==> ValidPacket(incoming[i].p)
  }

  function AllSeen(incoming: seq<Incoming>): seq<Arrival>
    requires AllIncoming(incoming)
  {
    seq(|incoming|, i requires 0 <= i < |incoming| => Seen(incoming[i].key, incoming[i].p))
  }

  lemma SeenFrom(incoming: seq<Incoming>, k: nat)
    requires AllIncoming(incoming) && k < |incoming|
    ensures AllSeen(incoming[k..]) == [Seen(incoming[k].key, incoming[k].p)] + AllSeen(incoming[k + 1..])
  {
    hide Seen, ValidPacket;
  }

  /** The input routine takes one packet after the other. */
  method Receive(input: IpInput, incoming: seq<Incoming>) returns (ds: seq<Delivery>)
    requires ValidQueues(input.ipq) && AllIncoming(incoming)
    modifies input
    ensures ValidQueues(input.ipq) && ds == Run(Abstract(old(input.ipq)), AllSeen(incoming))
  {
    hide Run, Turn, Abstract, ValidQueues, AllSeen, Seen, ValidPacket;
    ds := [];
    ghost var all := Run(Abstract(input.ipq), AllSeen(incoming));
    assert incoming[0..] == incoming && [] + all == all;
    var k := 0;
    while k < |incoming|
      invariant 0 <= k <= |incoming| && ValidQueues(input.ipq)
      invariant all == ds + Run(Abstract(input.ipq), AllSeen(incoming[k..]))
    {
      SeenFrom(incoming, k);
      RunOne(Abstract(input.ipq), Seen(incoming[k].key, incoming[k].p), AllSeen(incoming[k + 1..]));
      var more := Arrive(input, incoming[k].key, incoming[k].p);
      Regroup(ds, more, Run(Abstract(input.ipq), AllSeen(incoming[k + 1..])));
      ds := ds + more;
      k := k + 1;
    }
    NoneSeen(Abstract(input.ipq), incoming[k..]);
  }

  lemma Regroup(u: seq<Delivery>, v: seq<Delivery>, w: seq<Delivery>)
    ensures u + (v + w) == (u + v) + w
  {
  }

  lemma NoneSeen(qs: Queues, incoming: seq<Incoming>)
    requires incoming == []
    ensures Run(qs, AllSeen(incoming)) == []
  {
    assert AllSeen(incoming) == [];
  }

  // ----- from end to end -----

  lemma {:induction false} OnlyMembers(key: Key, arrivals: seq<Arrival>)
    ensures forall a :: a in Only(key, arrivals) <==> a in arrivals && a.key == key
  {
    if arrivals != [] {
      OnlyMembers(key, arrivals[1..]);
      assert arrivals == [arrivals[0]] + arrivals[1..];
    }
  }

  /** Once every packet that a datagram has become on its way has arrived, in any order, some of them
      again, and with packets of any other datagrams in between, the first datagram that is delivered
      under its key is that datagram. */
  lemma TransitDelivers(payload: seq<Byte>, hops: seq<Hop>, qs: Queues, key: Key, arrivals: seq<Arrival>)
    requires 0 < |payload| && HLEN + |payload| < HALF && At(qs, key) == []
    requires CanTravel([Seg(0, payload, true)], hops)
    requires var sent := Travel([Seg(0, payload, true)], hops);
      && (forall a :: a in arrivals && a.key == key ==> a.piece in sent)
      && (forall s :: s in sent ==> Arrival(key, s) in arrivals)
    ensures var ds := DeliveredTo(key, Run(qs, arrivals)); ds != [] && ds[0] == Delivery(key, payload)
  {
    var whole := Seg(0, payload, true);
    assert Honest(whole, payload) && Aligned(whole);
    hide Covers, Honest, Run, Travel, Only, Aligned;
    TravelCorrect([whole], hops, payload);
    var sent, ours := Travel([whole], hops), Only(key, arrivals);
    OnlyMembers(key, arrivals);
    forall i | 0 <= i < |ours| ensures ours[i].key == key && Honest(ours[i].piece, payload) {
      assert ours[i] in ours;
      var j :| 0 <= j < |sent| && sent[j] == ours[i].piece;
      assert Honest(sent[j], payload);
    }
    forall s | s in sent ensures s in PiecesOf(ours) { InPieces(ours, Arrival(key, s)); }
    forall x | 0 <= x < |payload| ensures Covers(PiecesOf(ours), x) {
      CoversOne(whole, x);
      SameMembers(sent, PiecesOf(ours), x);
    }
    NothingCollected(payload);
    assert [] + PiecesOf(ours) == PiecesOf(ours);
    Separate(key, qs, map[], arrivals);
    RunDelivers(key, map[], [], ours, payload);
  }

  lemma InPieces(arrivals: seq<Arrival>, a: Arrival)
    requires a in arrivals
    ensures a.piece in PiecesOf(arrivals)
  {
    var i :| 0 <= i < |arrivals| && arrivals[i] == a;
    assert PiecesOf(arrivals)[i] == a.piece;
  }

  /** What arrives next: one of the packets that were sent, or another one. */
  datatype Choice = Ours(i: nat) | Other(key: Key, p: Packet)

  predicate Others(order: seq<Choice>, key: Key) {
    forall c :: c in order && c.Other? ==> ValidPacket(c.p) && c.key != key
  }

  /** The packets that arrive. */
  function Chosen(order: seq<Choice>, key: Key, ps: seq<Packet>): (incoming: seq<Incoming>)
    requires Others(order, key) && ValidPackets(ps)
    ensures AllIncoming(incoming)
    ensures forall i :: 0 <= i < |incoming| && incoming[i].key == key ==> incoming[i].p in ps
    ensures forall i :: 0 <= i < |ps| && Ours(i) in order ==> Incoming(key, ps[i]) in incoming
    decreases |order|
  {
    if order == [] then []
    else
      var rest := order[1..];
      assert forall c :: c in rest ==> c in order;
      assert order == [order[0]] + rest;
      (match order[0]
       case Ours(i) => if i < |ps| then [Incoming(key, ps[i])] else []
       case Other(k, p) => [Incoming(k, p)]) + Chosen(rest, key, ps)
  }

  /** The source sends a datagram of `payload`, routers pass it on, and packets arrive at the
      destination in any order: if all `n` that it has become are among them, it is delivered. */
  method Exchange(input: IpInput, ip: Packet, hops: seq<Hop>, key: Key, order: seq<Choice>)
    returns (ok: bool, n: nat, ds: seq<Delivery>)
    requires ValidQueues(input.ipq) && key !in input.ipq && Others(order, key)
    requires ValidPacket(ip) && ip.off == 0 && HLEN < ip.len
    modifies input
    ensures ValidQueues(input.ipq) && (ok <==> CanTravel([Seg(0, Mbufs.Bytes(ip.m), true)], hops))
    ensures ok && (forall i :: 0 <= i < n ==> Ours(i) in order) ==>
      DeliveredTo(key, ds) != [] && DeliveredTo(key, ds)[0] == Delivery(key, Mbufs.Bytes(ip.m))
  {
    ghost var payload := Mbufs.Bytes(ip.m);
    assert Brings(ip) == Seg(0, payload, true) && !DontFragment(ip.off) && |payload| == ip.len - HLEN;
    hide Brings, Run, Travel, ValidPacket, Mbufs.Bytes, Chosen, AllSeen, CanTravel, DeliveredTo, Seen;
    ghost var qs := Abstract(input.ipq);
    var ps;
    ok, ps := Transmit(ip, hops);
    n, ds := |ps|, [];
    if ok {
      var incoming := Chosen(order, key, ps);
      ds := Receive(input, incoming);
      if forall i :: 0 <= i < n ==> Ours(i) in order {
        AllArrive(payload, hops, key, ps, incoming);
        TransitDelivers(payload, hops, qs, key, AllSeen(incoming));
      }
    }
  }

  /** What the destination sees of the packets `ps` is what was sent. */
  lemma AllArrive(payload: seq<Byte>, hops: seq<Hop>, key: Key, ps: seq<Packet>, incoming: seq<Incoming>)
    requires |payload| < HALF && ValidPackets(ps) && AllIncoming(incoming)
    requires CanTravel([Seg(0, payload, true)], hops) && Bring(ps) == Travel([Seg(0, payload, true)], hops)
    requires 0 < |payload|
    requires forall i :: 0 <= i < |incoming| && incoming[i].key == key ==> incoming[i].p in ps
    requires forall i :: 0 <= i < |ps| ==> Incoming(key, ps[i]) in incoming
    ensures var sent := Travel([Seg(0, payload, true)], hops); var arrivals := AllSeen(incoming);
      && (forall a :: a in arrivals && a.key == key ==> a.piece in sent)
      && (forall s :: s in sent ==> Arrival(key, s) in arrivals)
  {
    var whole := Seg(0, payload, true);
    assert Honest(whole, payload) && Aligned(whole);
    hide Brings, ValidPacket, Travel, Honest, Aligned;
    TravelCorrect([whole], hops, payload);
    var sent, arrivals := Travel([whole], hops), AllSeen(incoming);
    forall i | 0 <= i < |ps| ensures Arriving(sent[i]) == sent[i] == Brings(ps[i]) {
      assert Honest(sent[i], payload);
      StartFits(sent[i], payload);
    }
    forall a | a in arrivals && a.key == key ensures a.piece in sent {
      var j :| 0 <= j < |incoming| && arrivals[j] == a;
      assert a == Seen(incoming[j].key, incoming[j].p);
      var i :| 0 <= i < |ps| && ps[i] == incoming[j].p;
      assert a.piece == sent[i];
    }
    forall s | s in sent ensures Arrival(key, s) in arrivals {
      var i :| 0 <= i < |sent| && sent[i] == s;
      var j :| 0 <= j < |incoming| && incoming[j] == Incoming(key, ps[i]);
      assert arrivals[j] == Arrival(key, s);
    }
  }
}
