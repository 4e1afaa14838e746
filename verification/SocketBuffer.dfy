/** Socket buffers of stream sockets: a chain of mbufs with counts of its bytes and its storage. */
module SocketBuffer {
  import opened Mbufs

  /** Storage that a chain takes. */
  function Storage(ms: seq<Mbuf>): nat {
    if ms == [] then 0 else StorageOf(ms[0]) + Storage(ms[1..])
  }

  lemma StorageOne(m: Mbuf)
    ensures Storage([m]) == StorageOf(m)
  {
  }

  function StorageOf(m: Mbuf): nat {
    if m.Cluster? then MSIZE + MCLBYTES else MSIZE
  }

  lemma {:induction false} StorageConcat(u: seq<Mbuf>, v: seq<Mbuf>)
    ensures Storage(u + v) == Storage(u) + Storage(v)
  {
    if u == [] {
      assert u + v == v;
    } else {
      StorageConcat(u[1..], v);
      assert (u + v)[1..] == u[1..] + v;
    }
  }

  /** Moving bytes into the last mbuf takes no more storage. */
  lemma StorageLast(ms: seq<Mbuf>, m: Mbuf)
    requires ms != [] && (m.Small? <==> ms[|ms| - 1].Small?)
    ensures Storage(ms[|ms| - 1 := m]) == Storage(ms)
  {
    var u := ms[..|ms| - 1];
    StorageConcat(u, [m]);
    StorageConcat(u, [ms[|ms| - 1]]);
    assert ms[|ms| - 1 := m] == u + [m] && ms == u + [ms[|ms| - 1]];
  }

  class SockBuf {
    var sb_mb: seq<Mbuf>
    var sb_cc: int
    var sb_mbcnt: int
    const sb_hiwat: int
    const sb_mbmax: int

    ghost predicate Valid()
      reads this
    {
      AllValid(sb_mb) && sb_cc == |Bytes(sb_mb)| && sb_mbcnt == Storage(sb_mb)
    }

    ghost function Contents(): seq<Byte>
      requires Valid()
      reads this
    {
      Bytes(sb_mb)
    }

    constructor (hiwat: int, mbmax: int)
      ensures Valid() && Contents() == [] && sb_hiwat == hiwat && sb_mbmax == mbmax
    {
      sb_mb, sb_cc, sb_mbcnt, sb_hiwat, sb_mbmax := [], 0, 0, hiwat, mbmax;
    }

    /** How much may still be put in. */
    function Sbspace(): int
      reads this
    {
      Min(sb_hiwat - sb_cc, sb_mbmax - sb_mbcnt)
    }

    /** Appends a chain: empty mbufs are dropped, and bytes go into the last mbuf where they fit. */
    method Sbappend(m0: seq<Mbuf>)
      requires Valid() && AllValid(m0)
      modifies this
      ensures Valid() && Contents() == old(Contents()) + Bytes(m0)
    {
      hide Bytes, AllValid, Storage, Data, Splat;
      var m := m0;
      while m != []
        invariant AllValid(sb_mb) && AllValid(m) && sb_cc == |Bytes(sb_mb)| && sb_mbcnt == Storage(sb_mb)
        invariant Bytes(sb_mb) + Bytes(m) == old(Bytes(sb_mb)) + Bytes(m0)
        decreases |m|
      {
        Ahead(m);
        var k := |sb_mb| - 1;
        if m[0].len == 0 {
          EmptyAhead(m);
        } else if sb_mb != [] && sb_mb[k].Small? && m[0].Small? && sb_mb[k].off + sb_mb[k].len + m[0].len <= MMAXOFF {
          SplatFirst(sb_mb, m);
          SplatLength(sb_mb, m);
          StorageLast(sb_mb, Splat(sb_mb[k], Data(m[0])));
          sb_mb := sb_mb[k := Splat(sb_mb[k], Data(m[0]))];
          sb_cc := sb_cc + m[0].len;
        } else {
          Push(sb_mb, m[0]);
          StorageConcat(sb_mb, [m[0]]);
          Assoc(Bytes(sb_mb), Data(m[0]), Bytes(m[1..]));
          StorageOne(m[0]);
          sb_cc := sb_cc + m[0].len;
          sb_mbcnt := sb_mbcnt + MSIZE;
          if m[0].Cluster? {
            sb_mbcnt := sb_mbcnt + MCLBYTES;
          }
          sb_mb := sb_mb + [m[0]];
        }
        m := m[1..];
      }
      BytesNone();
    }

    /** Drops `len` bytes from the front. */
    method Sbdrop(len0: nat)
      requires Valid() && len0 <= sb_cc
      modifies this
      ensures Valid() && Contents() == old(Contents())[len0..]
    {
      hide Bytes, AllValid, Storage, Data;
      var m, len: nat := sb_mb, len0;
      while len > 0
        invariant AllValid(m) && sb_cc == |Bytes(m)| && sb_mbcnt == Storage(m) && len <= |Bytes(m)|
        invariant Bytes(m)[len..] == old(Bytes(sb_mb))[len0..]
        decreases |m|
      {
        Nonempty(m);
        Ahead(m);
        if m[0].len > len {
          TrimAhead(m, len);
          m := m[0 := m[0].(len := m[0].len - len, off := m[0].off + len)];
          sb_cc := sb_cc - len;
          break;
        }
        DropAhead(m, len);
        len := len - m[0].len;
        sb_cc := sb_cc - m[0].len;
        sb_mbcnt := sb_mbcnt - MSIZE;
        if m[0].Cluster? {
          sb_mbcnt := sb_mbcnt - MCLBYTES;
        }
        m := m[1..];
      }
      sb_mb := m;
    }
  }

  lemma Ahead(m: seq<Mbuf>)
    requires AllValid(m) && m != []
    ensures AllValid(m[1..]) && Valid(m[0]) && |Data(m[0])| == m[0].len && Bytes(m) == Data(m[0]) + Bytes(m[1..])
    ensures Storage(m) == StorageOf(m[0]) + Storage(m[1..])
  {
  }

  lemma EmptyAhead(m: seq<Mbuf>)
    requires AllValid(m) && m != [] && m[0].len == 0
    ensures AllValid(m[1..]) && Bytes(m) == Bytes(m[1..])
  {
  }

  lemma SplatLength(n: seq<Mbuf>, m: seq<Mbuf>)
    requires AllValid(n) && AllValid(m) && n != [] && m != [] && Valid(n[|n| - 1]) && Valid(m[0])
    requires n[|n| - 1].Small? && |Data(m[0])| == m[0].len && n[|n| - 1].off + n[|n| - 1].len + m[0].len <= MMAXOFF
    requires AllValid(n[|n| - 1 := Splat(n[|n| - 1], Data(m[0]))])
    ensures |Bytes(n[|n| - 1 := Splat(n[|n| - 1], Data(m[0]))])| == |Bytes(n)| + m[0].len
    ensures Splat(n[|n| - 1], Data(m[0])).Small?
  {
    hide Bytes, Data, AllValid;
    SplatFirst(n, m);
    Ahead(m);
    var n' := n[|n| - 1 := Splat(n[|n| - 1], Data(m[0]))];
    assert |Bytes(n') + Bytes(m[1..])| == |Bytes(n) + Bytes(m)|;
  }

  lemma Nonempty(m: seq<Mbuf>)
    requires AllValid(m) && |Bytes(m)| > 0
    ensures m != []
  {
  }

  lemma TrimAhead(m: seq<Mbuf>, len: nat)
    requires AllValid(m) && m != [] && len <= m[0].len
    ensures var m' := m[0 := m[0].(len := m[0].len - len, off := m[0].off + len)];
      AllValid(m') && |Bytes(m)| == len + |Bytes(m')| && Bytes(m') == Bytes(m)[len..] && Storage(m') == Storage(m)
  {
    hide Bytes, Data, Storage;
    var m' := m[0 := m[0].(len := m[0].len - len, off := m[0].off + len)];
    Ahead(m);
    assert m'[1..] == m[1..];
    SplitMbuf(m[0], len);
    assert AllValid(m');
    Ahead(m');
    DropPrefix(Data(m[0]), Bytes(m[1..]), len);
  }

  lemma DropPrefix(u: seq<Byte>, v: seq<Byte>, n: nat)
    requires n <= |u|
    ensures (u + v)[n..] == u[n..] + v
  {
  }

  lemma DropAhead(m: seq<Mbuf>, len: nat)
    requires AllValid(m) && m != [] && m[0].len <= len <= |Bytes(m)|
    ensures AllValid(m[1..]) && Valid(m[0]) && |Bytes(m)| == m[0].len + |Bytes(m[1..])|
    ensures Bytes(m)[len..] == Bytes(m[1..])[len - m[0].len..]
  {
    hide Bytes, Data;
    Ahead(m);
  }
}
