/** Fragmentation of datagrams on output, along any path, back to reassembly. Headers are without
    options. */
module IpFragments {
  import opened Segments
  import opened IpReassembly
  import Mbufs

  const HLEN := 20
  const IP_DF := 0x4000

  /** A packet without its header: total length and fragment field as in the header. */
  datatype Packet = Packet(len: int, off: int, m: seq<Mbufs.Mbuf>)

  datatype Output = Sent(packets: seq<Packet>) | TooBig

  // ----- the fragment field -----

  function Units(off: int): int {
    off % 0x2000
  }

  predicate More(off: int) {
    off / IP_MF % 2 == 1
  }

  predicate DontFragment(off: int) {
    off / IP_DF % 2 == 1
  }

  /** A field of 16 bits without the reserved bit. */
  predicate Field(off: int) {
    0 <= off < 0x8000
  }

  predicate ValidPacket(p: Packet) {
    && Field(p.off) && Mbufs.AllValid(p.m) && p.len == HLEN + |Mbufs.Bytes(p.m)| < HALF
    && 8 * Units(p.off) + |Mbufs.Bytes(p.m)| < 0x10000
  }

  predicate ValidPackets(ps: seq<Packet>) {
    forall i :: 0 <= i < |ps| ==> ValidPacket(ps[i])
  }

  /** What part of the datagram a packet brings. */
  function Brings(p: Packet): Seg
    requires ValidPacket(p)
  {
    Seg(8 * Units(p.off), Mbufs.Bytes(p.m), !More(p.off))
  }

  lemma PacketData(p: Packet)
    requires ValidPacket(p)
    ensures p.len == HLEN + |Mbufs.Bytes(p.m)| && Brings(p).data == Mbufs.Bytes(p.m) && Mbufs.AllValid(p.m)
  {
  }

  function Bring(ps: seq<Packet>): (s: seq<Seg>)
    requires ValidPackets(ps)
    ensures |s| == |ps| && forall i :: 0 <= i < |ps| ==> s[i] == Brings(ps[i])
  {
    seq(|ps|, i requires 0 <= i < |ps| => Brings(ps[i]))
  }

  // ----- cutting a piece up -----

  /** The piece cut into pieces of `n` bytes, and what is left. */
  function Fragment(s: seq<Byte>, start: int, last: bool, n: nat): seq<Seg>
    requires n > 0
    decreases |s|
  {
    if |s| <= n then [Seg(start, s, last)] else [Seg(start, s[..n], false)] + Fragment(s[n..], start + n, last, n)
  }

  /** Fits a link of `mtu` bytes, carries something, and unless it is the end of the datagram
      something that the next fragment's offset can count. */
  predicate Sendable(s: Seg, mtu: int) {
    0 < |s.data| && HLEN + |s.data| <= mtu && Aligned(s)
  }

  /** Starts, and unless it is the end of the datagram ends, at a multiple of 8. */
  predicate Aligned(s: Seg) {
    s.start % 8 == 0 && (s.last || End(s) % 8 == 0)
  }

  predicate AllAligned(q: seq<Seg>) {
    forall i :: 0 <= i < |q| ==> Aligned(q[i])
  }

  predicate AllSendable(q: seq<Seg>, mtu: int) {
    forall i :: 0 <= i < |q| ==> Sendable(q[i], mtu)
  }

  /** The pieces of a piece follow one another and are it, put together; each can be sent over a
      link that takes `n` bytes of data; and they are what the datagram has there. */
  lemma {:induction false} FragmentCorrect(s: Seg, n: nat, stream: seq<Byte>)
    requires n > 0 && n % 8 == 0 && Honest(s, stream) && Aligned(s)
    ensures var q := Fragment(s.data, s.start, s.last, n);
      && Gapless(q, s.start) && Concat(q) == s.data && AllSendable(q, HLEN + n) && AllHonest(q, stream)
    decreases |s.data|
  {
    hide PartOf;
    if |s.data| > n {
      var head, tail := Seg(s.start, s.data[..n], false), Seg(s.start + n, s.data[n..], s.last);
      Halves(s, n, stream);
      FragmentCorrect(tail, n, stream);
      var q := Fragment(tail.data, tail.start, tail.last, n);
      assert ([head] + q)[1..] == q;
      assert s.data == s.data[..n] + s.data[n..];
      forall i | 0 <= i < |q| + 1 ensures Sendable(([head] + q)[i], HLEN + n) && Honest(([head] + q)[i], stream) {
        assert i > 0 ==> ([head] + q)[i] == q[i - 1];
      }
    } else {
      assert [s][1..] == [];
    }
  }

  lemma Halves(s: Seg, n: nat, stream: seq<Byte>)
    requires Honest(s, stream) && 0 < n < |s.data|
    ensures Honest(Seg(s.start, s.data[..n], false), stream) && Honest(Seg(s.start + n, s.data[n..], s.last), stream)
  {
    var d := s.data;
    assert d == stream[s.start..End(s)];
    assert d[..n] == stream[s.start..s.start + n];
    assert d[n..] == stream[s.start + n..End(s)];
  }

  // ----- output -----

  /** Bytes of data that fit a link, in the units of fragments: `(mtu - hlen) &~ 7`. */
  function Room(mtu: int): int {
    (mtu - HLEN) / 8 * 8
  }

  /** What of a piece goes over a link of `mtu` bytes. */
  function Cross(s: Seg, mtu: int): seq<Seg>
    requires HLEN + |s.data| > mtu ==> Room(mtu) >= 8
  {
    if HLEN + |s.data| <= mtu then [s] else Fragment(s.data, s.start, s.last, Room(mtu))
  }

  /** All fragments but the last are as long as the link and the units of eight bytes allow. */
  predicate Fullest(q: seq<Seg>, mtu: int) {
    forall i :: 0 <= i < |q| - 1 ==> mtu - 8 < HLEN + |q[i].data| <= mtu
  }

  lemma {:induction false} FragmentFull(s: seq<Byte>, start: int, last: bool, n: nat)
    requires n > 0
    ensures Fragment(s, start, last, n) != []
    ensures forall i :: 0 <= i < |Fragment(s, start, last, n)| - 1 ==> |Fragment(s, start, last, n)[i].data| == n
    decreases |s|
  {
    if |s| > n {
      FragmentFull(s[n..], start + n, last, n);
      var q := Fragment(s[n..], start + n, last, n);
      assert Fragment(s, start, last, n) == [Seg(start, s[..n], false)] + q;
    }
  }

  /** A piece is cut up into no more fragments than it must be; and it can be, exactly if a fragment can carry
      eight bytes. */
  lemma CrossFull(s: Seg, mtu: int)
    ensures Room(mtu) >= 8 <==> HLEN + 8 <= mtu
    ensures (HLEN + |s.data| > mtu ==> Room(mtu) >= 8) ==> Fullest(Cross(s, mtu), mtu)
  {
    if HLEN + |s.data| > mtu && Room(mtu) >= 8 { FragmentFull(s.data, s.start, s.last, Room(mtu)); }
  }

  /** The field of the fragment `off` bytes into a packet: `more` if it is not that packet's last. */
  function FieldAt(field: int, off: nat, more: bool): int {
    var base := if More(field) then field - IP_MF else field;
    var sum := off / 8 + base;
    if (More(field) || more) && !More(sum) then sum + IP_MF else sum
  }

  lemma FieldAtCorrect(field: int, off: nat, more: bool)
    requires Field(field) && !DontFragment(field) && off % 8 == 0 && 8 * Units(field) + off < 0x10000
    ensures var f := FieldAt(field, off, more);
      && Field(f) && !DontFragment(f) && 8 * Units(f) == 8 * Units(field) + off && (More(f) <==> More(field) || more)
  {
    var u := Units(field);
    assert field == u + if More(field) then IP_MF else 0;
    assert off == 8 * (off / 8);
  }

  lemma FragmentStep(s: seq<Byte>, start: int, last: bool, n: nat, off: nat)
    requires n > 0 && off < |s|
    ensures Fragment(s[off..], start + off, last, n) ==
            if off + n >= |s| then [Seg(start + off, s[off..], last)]
            else [Seg(start + off, s[off..off + n], false)] + Fragment(s[off + n..], start + (off + n), last, n)
  {
    if off + n < |s| {
      assert s[off..][..n] == s[off..off + n] && s[off..][n..] == s[off + n..];
    }
  }

  /** One fragment. */
  method MakeFragment(ip: Packet, off: nat, len: nat, more: bool) returns (mhip: Packet)
    requires ValidPacket(ip) && !DontFragment(ip.off) && off % 8 == 0 && 0 < len && off + len <= |Mbufs.Bytes(ip.m)|
    ensures ValidPacket(mhip) && !DontFragment(mhip.off)
    ensures Brings(mhip) == var s := Brings(ip); Seg(s.start + off, s.data[off..off + len], s.last && !more)
  {
    hide Mbufs.Bytes, Field, Units, More, DontFragment;
    FieldAtCorrect(ip.off, off, more);
    var m := Mbufs.MCopy(ip.m, off, len);
    mhip := Packet(len + HLEN, FieldAt(ip.off, off, more), m);
  }

  /** Sends a packet over a link of `mtu` bytes, in fragments if it is too large. */
  method IpOutput(ip: Packet, mtu: int) returns (r: Output)
    requires ValidPacket(ip)
    ensures r.TooBig? <==> ip.len > mtu && (DontFragment(ip.off) || mtu < HLEN + 8)
    ensures r.TooBig? <==> ip.len > mtu && (DontFragment(ip.off) || Room(mtu) < 8)
    ensures ip.len <= mtu ==> r == Sent([ip])
    ensures r.Sent? ==> forall i :: 0 <= i < |r.packets| - 1 ==> mtu - 8 < r.packets[i].len <= mtu
    ensures r.Sent? ==> ValidPackets(r.packets) && Bring(r.packets) == Cross(Brings(ip), mtu)
    ensures r.Sent? && !DontFragment(ip.off) ==> forall p :: p in r.packets ==> !DontFragment(p.off)
  {
    hide Mbufs.Bytes, DontFragment, Fragment, Brings, ValidPacket, Units, More;
    PacketData(ip);
    CrossFull(Brings(ip), mtu);
    if ip.len <= mtu {
      return Sent([ip]);
    }
    if DontFragment(ip.off) {
      return TooBig;
    }
    var len := Room(mtu);
    if len < 8 {
      return TooBig;
    }
    ghost var s := Brings(ip);
    ghost var n := len;
    var packets: seq<Packet> := [];
    var off := 0;
    assert s.data[0..] == s.data;
    while off < ip.len - HLEN
      invariant 0 <= off <= |s.data| && ValidPackets(packets) && (forall p :: p in packets ==> !DontFragment(p.off))
      invariant off < |s.data| ==> off % 8 == 0 && len == n
      invariant if off < |s.data|
        then Bring(packets) + Fragment(s.data[off..], s.start + off, s.last, n) == Cross(s, mtu)
                else Bring(packets) == Cross(s, mtu)
    {
      FragmentStep(s.data, s.start, s.last, n, off);
      var more := off + len < ip.len - HLEN;
      if !more {
        len := ip.len - HLEN - off;
        assert s.data[off..off + len] == s.data[off..];
      }
      var mhip := MakeFragment(ip, off, len, more);
      assert Bring(packets + [mhip]) == Bring(packets) + [Brings(mhip)];
      packets := packets + [mhip];
      off := off + len;
    }
    FullLengths(packets, mtu);
    r := Sent(packets);
  }

  lemma FullLengths(ps: seq<Packet>, mtu: int)
    requires ValidPackets(ps) && Fullest(Bring(ps), mtu)
    ensures forall i :: 0 <= i < |ps| - 1 ==> mtu - 8 < ps[i].len <= mtu
  {
    hide Mbufs.Bytes, Field, Units, More;
    forall i | 0 <= i < |ps| - 1 ensures mtu - 8 < ps[i].len <= mtu {
      assert ValidPacket(ps[i]) && Bring(ps)[i] == Brings(ps[i]);
    }
  }

  // ----- along a path -----

  /** Crossing a link of `mtu` bytes, the i-th packet under way is cut up where needed. */
  datatype Hop = Hop(i: nat, mtu: int)

  predicate CanHop(q: seq<Seg>, h: Hop) {
    h.i < |q| && (HLEN + |q[h.i].data| > h.mtu ==> Room(h.mtu) >= 8)
  }

  function OneHop(q: seq<Seg>, h: Hop): seq<Seg>
    requires CanHop(q, h)
  {
    q[..h.i] + Cross(q[h.i], h.mtu) + q[h.i + 1..]
  }

  predicate CanTravel(q: seq<Seg>, hops: seq<Hop>)
    decreases |hops|
  {
    hops == [] || (CanHop(q, hops[0]) && CanTravel(OneHop(q, hops[0]), hops[1..]))
  }

  function Travel(q: seq<Seg>, hops: seq<Hop>): seq<Seg>
    requires CanTravel(q, hops)
    decreases |hops|
  {
    if hops == [] then q else Travel(OneHop(q, hops[0]), hops[1..])
  }

  lemma CrossCorrect(s: Seg, mtu: int, stream: seq<Byte>)
    requires Honest(s, stream) && Aligned(s) && (HLEN + |s.data| > mtu ==> Room(mtu) >= 8)
    ensures var q := Cross(s, mtu);
      AllSendable(q, mtu) && AllHonest(q, stream) && AllAligned(q) && forall x :: Covers(q, x) <==> Has(s, x)
  {
    hide PartOf, Covers;
    var q := Cross(s, mtu);
    if HLEN + |s.data| <= mtu {
      forall x ensures Covers([s], x) <==> Has(s, x) { CoversOne(s, x); }
    } else {
      FragmentCorrect(s, Room(mtu), stream);
      HonestParts(q, stream);
      assert PartOf(s, stream);
      PartBounds(s, stream);
      GaplessIs(q, s.start, stream);
    }
    forall i | 0 <= i < |q| ensures Aligned(q[i]) && Sendable(q[i], mtu) {
      assert HLEN + |s.data| > mtu ==> Sendable(q[i], HLEN + Room(mtu));
    }
  }

  lemma PartBounds(s: Seg, stream: seq<Byte>)
    requires PartOf(s, stream)
    ensures 0 <= s.start <= |stream|
  {
  }

  /** Wherever packets of a datagram are cut up on their way, they stay parts of it that cover
      what they covered. */
  lemma {:induction false} TravelCorrect(q: seq<Seg>, hops: seq<Hop>, stream: seq<Byte>)
    requires AllHonest(q, stream) && AllAligned(q) && CanTravel(q, hops)
    ensures var t := Travel(q, hops);
      AllHonest(t, stream) && AllAligned(t) && forall x :: Covers(t, x) <==> Covers(q, x)
    decreases |hops|
  {
    hide Cross, Honest, Aligned, Covers;
    if hops != [] {
      var i, mtu := hops[0].i, hops[0].mtu;
      var c := Cross(q[i], mtu);
      CrossCorrect(q[i], mtu, stream);
      var next := q[..i] + c + q[i + 1..];
      assert q == q[..i] + [q[i]] + q[i + 1..];
      forall x ensures Covers(next, x) <==> Covers(q, x) {
        CoversConcat(q[..i] + c, q[i + 1..], x);
        CoversConcat(q[..i], c, x);
        CoversConcat(q[..i] + [q[i]], q[i + 1..], x);
        CoversConcat(q[..i], [q[i]], x);
        CoversOne(q[i], x);
      }
      TravelCorrect(next, hops[1..], stream);
    }
  }

  /** A datagram is sent, its packets are fragmented anywhere along their paths, and its fragments
      arrive in any order, some of them again: as soon as all have arrived the receiver has the
      datagram's data, and then its length is right too. */
  lemma Delivered(payload: seq<Byte>, hops: seq<Hop>, arrivals: seq<Seg>)
    requires 0 < |payload| && HLEN + |payload| < HALF
    requires CanTravel([Seg(0, payload, true)], hops)
    requires var sent := Travel([Seg(0, payload, true)], hops);
      (forall s :: s in arrivals ==> s in sent) && (forall s :: s in sent ==> s in arrivals)
    ensures var r := Feed(HALF, [], arrivals); r.Done? && r.data == payload && Short(|r.data|) == |payload|
  {
    var whole := Seg(0, payload, true);
    assert Honest(whole, payload) && Aligned(whole);
    hide Covers, Honest, Collected, Insert, Complete, Travel;
    TravelCorrect([whole], hops, payload);
    var sent := Travel([whole], hops);
    forall i | 0 <= i < |arrivals| ensures Honest(arrivals[i], payload) {
      assert arrivals[i] in sent;
      var j :| 0 <= j < |sent| && sent[j] == arrivals[i];
      assert Honest(sent[j], payload);
    }
    forall x | 0 <= x < |payload| ensures Covers(arrivals, x) {
      CoversOne(whole, x);
      SameMembers(sent, arrivals, x);
    }
    NothingCollected(payload);
    FeedFits(HALF, [], [], arrivals, payload);
    FeedCorrect([], [], arrivals, payload);
    assert [] + arrivals == arrivals;
    WrapFits(HALF, |payload|);
  }

  lemma SameMembers(q: seq<Seg>, q': seq<Seg>, x: int)
    requires Covers(q, x) && forall s :: s in q ==> s in q'
    ensures Covers(q', x)
  {
    var i :| 0 <= i < |q| && Has(q[i], x);
    assert q[i] in q';
    var j :| 0 <= j < |q'| && q'[j] == q[i];
    assert Has(q'[j], x);
  }
}
