/** Reassembly of datagrams from their fragments. Offsets and lengths are kept in signed 16-bit
    fields. */
module IpReassembly {
  import opened Segments
  import Mbufs

  const HALF := 0x8000

  const IP_MF := 0x2000

  /** What a field of type short keeps of a number. */
  function Short(x: int): int {
    Wrap(HALF, x)
  }

  /** A fragment without its header; `off` and `len` count bytes. */
  datatype Frag = Frag(off: int, len: int, mff: bool, m: seq<Mbufs.Mbuf>)

  /** What tells the fragments of one datagram from those of another. */
  datatype Key = Key(id: int, src: int, dst: int, p: int)

  datatype Result = Nothing | Datagram(len: int, m: seq<Mbufs.Mbuf>)

  predicate ValidFrag(f: Frag) {
    f.m != [] && Mbufs.AllValid(f.m) && f.len == |Mbufs.Bytes(f.m)|
  }

  predicate ValidFrags(q: seq<Frag>) {
    forall i :: 0 <= i < |q| ==> ValidFrag(q[i])
  }

  function Piece(f: Frag): (s: Seg)
    requires ValidFrag(f)
    ensures s.start == f.off && |s.data| == f.len && End(s) == f.off + f.len && s.last == !f.mff
  {
    Seg(f.off, Mbufs.Bytes(f.m), !f.mff)
  }

  function Pieces(q: seq<Frag>): (s: seq<Seg>)
    requires ValidFrags(q)
    ensures |s| == |q| && forall i :: 0 <= i < |q| ==> ValidFrag(q[i]) && s[i] == Piece(q[i])
  {
    seq(|q|, i requires 0 <= i < |q| => Piece(q[i]))
  }

  lemma PiecesConcat(u: seq<Frag>, v: seq<Frag>)
    requires ValidFrags(u) && ValidFrags(v)
    ensures ValidFrags(u + v) && Pieces(u + v) == Pieces(u) + Pieces(v)
  {
  }

  lemma PiecesCut(q: seq<Frag>, k: nat)
    requires ValidFrags(q) && k <= |q|
    ensures ValidFrags(q[..k]) && ValidFrags(q[k..]) && Pieces(q[..k]) == Pieces(q)[..k]
    ensures Pieces(q[k..]) == Pieces(q)[k..]
  {
  }

  lemma PiecesOne(f: Frag)
    requires ValidFrag(f)
    ensures ValidFrags([f]) && Pieces([f]) == [Piece(f)]
  {
  }

  /** The queue for `key`; there is none for a datagram of which nothing has arrived. */
  function QueueOf(ipq: map<Key, seq<Frag>>, key: Key): seq<Frag> {
    if key in ipq then ipq[key] else []
  }

  predicate ValidQueues(ipq: map<Key, seq<Frag>>) {
    forall k :: k in ipq ==> ipq[k] != [] && ValidFrags(ipq[k]) && !Complete(Pieces(ipq[k]))
  }

  /** How many fragments begin no later than `off`, up to the first that begins after it. */
  method FindAfter(q: seq<Frag>, off: int) returns (k: nat)
    requires ValidFrags(q)
    ensures k <= |q| && k == Place(Pieces(q), off)
  {
    k := 0;
    while k < |q| && q[k].off <= off
      invariant k <= |q| && Place(Pieces(q), off) == k + Place(Pieces(q)[k..], off)
    {
      k := k + 1;
    }
  }

  /** Drops the first `i` bytes of a fragment. */
  method TrimFront(f: Frag, i: nat) returns (f': Frag)
    requires ValidFrag(f) && i <= f.len
    ensures ValidFrag(f') && Piece(f') == Drop(HALF, Piece(f), i)
  {
    var m := Mbufs.MAdj(f.m, i);
    f' := f.(m := m, off := Short(f.off + i), len := f.len - i);
  }

  /** Trims the fragments from the k-th on that begin before `end`, or takes them out when they are
      covered. */
  method TrimLater(q0: seq<Frag>, k: nat, end: int) returns (q: seq<Frag>)
    requires ValidFrags(q0) && k <= |q0|
    ensures ValidFrags(q) && Pieces(q) == Pieces(q0)[..k] + Trim(HALF, Pieces(q0)[k..], end)
  {
    hide ValidFrags, Drop, Pieces;
    q := q0;
    PiecesCut(q, k);
    while k < |q| && end > q[k].off
      invariant ValidFrags(q) && k <= |q| && Pieces(q)[..k] == Pieces(q0)[..k]
      invariant Trim(HALF, Pieces(q)[k..], end) == Trim(HALF, Pieces(q0)[k..], end)
      decreases |q|
    {
      var i := end - q[k].off;
      if i < q[k].len {
        var f := TrimFront(q[k], i);
        Replaced(q, k, f);
        q := q[k := f];
        return;
      }
      Removed(q, k);
      q := q[..k] + q[k + 1..];
    }
    assert Pieces(q) == Pieces(q)[..k] + Pieces(q)[k..];
  }

  lemma Replaced(q: seq<Frag>, k: nat, f: Frag)
    requires ValidFrags(q) && k < |q| && ValidFrag(f)
    ensures ValidFrags(q[k := f]) && Pieces(q[k := f]) == Pieces(q)[..k] + ([Piece(f)] + Pieces(q)[k..][1..])
  {
  }

  lemma Removed(q: seq<Frag>, k: nat)
    requires ValidFrags(q) && k < |q|
    ensures var q' := q[..k] + q[k + 1..];
      ValidFrags(q') && Pieces(q')[..k] == Pieces(q)[..k] && Pieces(q')[k..] == Pieces(q)[k..][1..]
  {
  }

  /** Puts a fragment in its place in the queue of its datagram, trimming what is there already;
      tells whether it is kept. */
  method Enqueue(q0: seq<Frag>, ip0: Frag) returns (kept: bool, q: seq<Frag>)
    requires ValidFrags(q0) && ValidFrag(ip0)
    ensures ValidFrags(q) && Pieces(q) == Insert(HALF, Pieces(q0), Piece(ip0))
    ensures !kept ==> q == q0
    ensures kept ==> q != []
  {
    hide ValidFrags, Drop, Trim;
    var ip := ip0;
    var k := FindAfter(q0, ip.off);
    if k > 0 {
      var i := q0[k - 1].off + q0[k - 1].len - ip.off;
      if i > 0 {
        if i >= ip.len {
          return false, q0;
        }
        ip := TrimFront(ip, i);
      }
    }
    q := TrimLater(q0, k, ip.off + ip.len);
    Placed(q0, k, ip, q);
    q := q[..k] + [ip] + q[k..];
    kept := true;
  }

  lemma Placed(q0: seq<Frag>, k: nat, ip: Frag, q: seq<Frag>)
    requires ValidFrags(q0) && k <= |q0| && ValidFrag(ip) && ValidFrags(q)
    requires Pieces(q) == Pieces(q0)[..k] + Trim(HALF, Pieces(q0)[k..], End(Piece(ip)))
    ensures k <= |q| && var q' := q[..k] + [ip] + q[k..];
      ValidFrags(q') && Pieces(q') == Pieces(q0)[..k] + [Piece(ip)] + Trim(HALF, Pieces(q0)[k..], End(Piece(ip)))
  {
    hide ValidFrags, Trim, Piece;
    assert |q| >= k;
    PiecesCut(q, k);
    PiecesOne(ip);
    PiecesConcat(q[..k], [ip]);
    PiecesConcat(q[..k] + [ip], q[k..]);
    var v := Trim(HALF, Pieces(q0)[k..], End(Piece(ip)));
    assert (Pieces(q0)[..k] + v)[..k] == Pieces(q0)[..k] && (Pieces(q0)[..k] + v)[k..] == v;
  }

  /** Looks for a gap; `next` is the length if there is none. */
  method CheckComplete(q: seq<Frag>) returns (complete: bool, next: int)
    requires ValidFrags(q) && q != []
    ensures complete <==> Complete(Pieces(q))
    ensures complete ==> next == |Concat(Pieces(q))|
  {
    hide ValidFrags;
    next := 0;
    var k := 0;
    ghost var s := Pieces(q);
    while k < |q|
      invariant 0 <= k <= |q| && s == Pieces(q)
      invariant Gapless(s, 0) <==> Gapless(s[k..], next)
      invariant |Concat(s)| == next + |Concat(s[k..])|
    {
      assert s[k..][0] == s[k] == Piece(q[k]) && s[k..][1..] == s[k + 1..];
      if q[k].off != next {
        return false, next;
      }
      next := next + q[k].len;
      k := k + 1;
    }
    complete := !q[|q| - 1].mff;
  }

  lemma ConcatFrom(q: seq<Frag>, k: nat)
    requires ValidFrags(q) && k < |q|
    ensures ValidFrag(q[k])
    ensures Concat(Pieces(q)[k..]) == Mbufs.Bytes(q[k].m) + Concat(Pieces(q)[k + 1..])
  {
    hide Mbufs.Bytes;
    var s := Pieces(q);
    assert s[k..][0] == s[k] && s[k..][1..] == s[k + 1..];
  }

  /** Joins the fragments' chains to that of the first; the first's own mbufs are compacted. */
  method Gather(q: seq<Frag>) returns (m: seq<Mbufs.Mbuf>)
    requires ValidFrags(q) && q != []
    ensures Mbufs.AllValid(m) && m != [] && Mbufs.Bytes(m) == Concat(Pieces(q))
  {
    hide Mbufs.Bytes, Mbufs.AllValid, Concat, Pieces, ValidFrags, Gapless;
    ghost var s := Pieces(q);
    ConcatFrom(q, 0);
    FirstMbuf(q[0].m);
    m := Mbufs.MCat(q[0].m[..1], q[0].m[1..]);
    var k := 1;
    assert s[0..] == s;
    while k < |q|
      invariant 1 <= k <= |q| == |s| && Mbufs.AllValid(m) && m != []
      invariant Mbufs.Bytes(m) + Concat(s[k..]) == Concat(s)
    {
      ConcatFrom(q, k);
      Mbufs.Assoc(Mbufs.Bytes(m), Mbufs.Bytes(q[k].m), Concat(s[k + 1..]));
      m := Mbufs.MCat(m, q[k].m);
      k := k + 1;
    }
    assert s[k..] == [];
    ConcatNone();
  }

  lemma FirstMbuf(m: seq<Mbufs.Mbuf>)
    requires Mbufs.AllValid(m) && m != []
    ensures Mbufs.AllValid(m[..1]) && Mbufs.AllValid(m[1..])
    ensures Mbufs.Bytes(m) == Mbufs.Bytes(m[..1]) + Mbufs.Bytes(m[1..])
  {
    assert m == m[..1] + m[1..];
    Mbufs.BytesConcat(m[..1], m[1..]);
  }

  lemma QueueValid(ipq: map<Key, seq<Frag>>, key: Key)
    requires ValidQueues(ipq)
    ensures ValidFrags(QueueOf(ipq, key)) && !Complete(Pieces(QueueOf(ipq, key)))
  {
  }

  /** What the arrival of piece `s` does: its queue takes it in, and if that completes the datagram
      it is handed over and the queue given up. Nothing else changes. */
  ghost predicate Received(ipq: map<Key, seq<Frag>>, key: Key, s: Seg, ipq': map<Key, seq<Frag>>, r: Result) {
    && ValidQueues(ipq) && ValidQueues(ipq')
    && var q := QueueOf(ipq, key);
      ValidFrags(q) &&
      var q' := Insert(HALF, Pieces(q), s);
      if Complete(q') then
        && ipq' == ipq - {key}
        && r.Datagram? && r.len == Short(|Concat(q')|) && Mbufs.AllValid(r.m) && Mbufs.Bytes(r.m) == Concat(q')
      else
        && ipq' - {key} == ipq - {key} && ValidFrags(QueueOf(ipq', key)) && Pieces(QueueOf(ipq', key)) == q'
        && r.Nothing?
  }

  /** What the arrival of a packet does: a whole datagram is handed over and ends the reassembly of one
      like it; a piece is received. */
  ghost predicate Took(ipq: map<Key, seq<Frag>>, key: Key, s: Seg, ipq': map<Key, seq<Frag>>, r: Result) {
    if s.start == 0 && s.last then
      ipq' == ipq - {key} && r.Datagram? && r.len == |s.data| && Mbufs.AllValid(r.m) && Mbufs.Bytes(r.m) == s.data
    else Received(ipq, key, s, ipq', r)
  }

  class IpInput {
    var ipq: map<Key, seq<Frag>>    // the datagrams being reassembled

    constructor ()
      ensures ipq == map[]
    {
      ipq := map[];
    }

    /** A fragment arrives. */
    method IpReass(key: Key, ip: Frag) returns (r: Result)
      requires ValidQueues(ipq) && ValidFrag(ip)
      modifies this
      ensures ValidQueues(ipq)
      ensures Received(old(ipq), key, Piece(ip), ipq, r)
    {
      hide Insert, Complete, ValidFrags;
      QueueValid(ipq, key);
      var q := QueueOf(ipq, key);
      var kept;
      kept, q := Enqueue(q, ip);
      if !kept {
        return Nothing;
      }
      var complete, next := CheckComplete(q);
      if !complete {
        ipq := ipq[key := q];
        return Nothing;
      }
      var m := Gather(q);
      ipq := ipq - {key};
      r := Datagram(Short(next), m);
    }

    /** The queue for a datagram is given up. */
    method IpFreef(key: Key)
      requires ValidQueues(ipq)
      modifies this
      ensures ValidQueues(ipq) && ipq == old(ipq) - {key}
    {
      ipq := ipq - {key};
    }

    /** Takes a packet for this host: `ipLen` and `ipOff` are the fields of its header, which is the
        first `hlen` bytes of the chain. Too short a packet is dropped, one that is too long cut; a
        fragment is kept for reassembly, and a whole datagram ends the reassembly of one like it. */
    method Ipintr(key: Key, hlen: nat, ipLen: int, ipOff: int, m0: seq<Mbufs.Mbuf>) returns (r: Result)
      requires ValidQueues(ipq) && Mbufs.AllValid(m0) && m0 != [] && hlen <= m0[0].len
      requires -HALF <= ipLen < HALF && 0 <= ipOff < 0x10000
      modifies this
      ensures ValidQueues(ipq)
      ensures var bytes := Mbufs.Bytes(m0);
        if ipLen < hlen || |bytes| < ipLen then r.Nothing? && ipq == old(ipq)
        else
          var s := Seg(Short(8 * ipOff), bytes[hlen..ipLen], !Fragmented(ipOff));
          Took(old(ipq), key, s, ipq, r)
    {
      hide Received, ValidQueues, Mbufs.Bytes, Short, Fragmented;
      if ipLen < hlen {
        return Nothing;
      }
      var ok, m := FitChain(m0, hlen, ipLen);
      if !ok {
        return Nothing;
      }
      var mff := Fragmented(ipOff);
      var off := Short(8 * ipOff);
      var ip := Frag(off, ipLen - hlen, mff, m);
      if mff || off != 0 {
        r := IpReass(key, ip);
      } else {
        if key in ipq {
          IpFreef(key);
        }
        r := Datagram(ipLen - hlen, m);
      }
    }
  }

  /** The bit for more fragments. */
  predicate Fragmented(ipOff: int) {
    ipOff / IP_MF % 2 == 1
  }

  /** The data of a packet whose header says `ipLen`: the chain is cut to that length, and the header
      skipped. */
  method FitChain(m0: seq<Mbufs.Mbuf>, hlen: nat, ipLen: nat) returns (ok: bool, m: seq<Mbufs.Mbuf>)
    requires Mbufs.AllValid(m0) && m0 != [] && hlen <= m0[0].len && hlen <= ipLen
    ensures ok <==> ipLen <= |Mbufs.Bytes(m0)|
    ensures ok ==> m != [] && Mbufs.AllValid(m) && Mbufs.Bytes(m) == Mbufs.Bytes(m0)[hlen..ipLen]
  {
    hide Mbufs.Bytes, Mbufs.Begin;
    var i: int := 0 - ipLen;
    var k := 0;
    Mbufs.BeginEnds(m0);
    while true
      invariant 0 <= k < |m0| && i == Mbufs.Begin(m0, k) - ipLen
      decreases |m0| - k
    {
      Mbufs.Within(m0, k);
      i := i + m0[k].len;
      if k + 1 == |m0| {
        break;
      }
      k := k + 1;
    }
    if i < 0 {
      return false, m0;
    }
    m := m0;
    if 0 < i <= m[k].len {
      m := m[k := m[k].(len := m[k].len - i)];
      Mbufs.CutAfter(m, m0, k, m0[k].len - i);
    } else if i > 0 {
      m := Mbufs.MAdj(m0, -i);
    }
    assert Mbufs.Bytes(m) == Mbufs.Bytes(m0)[..ipLen];
    // `m_off += hlen; m_len -= hlen` of the first mbuf, which holds the header
    m := Mbufs.MAdj(m, hlen);
    ok := true;
  }
}
