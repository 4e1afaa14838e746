/** Chains of network buffers. A chain is the sequence of its mbufs; an mbuf holds a run of bytes
    either inside itself or in a page cluster. */
module Mbufs {

  type Byte = bv8

  const MMINOFF := 12
  const MMAXOFF := 252
  const MLEN := 240
  const MSIZE := 256
  const MCLBYTES := 1024
  const M_COPYALL := 1000000000

  /** `dat` is the whole mbuf, header and all, or the cluster; the data begin at `off`. */
  datatype Mbuf = Small(off: nat, len: nat, dat: seq<Byte>) | Cluster(off: nat, len: nat, dat: seq<Byte>)

  predicate Valid(m: Mbuf) {
    && m.off + m.len <= |m.dat|
    && (m.Small? ==> MMINOFF <= m.off && m.off + m.len <= MMAXOFF && |m.dat| == MSIZE)
    && (m.Cluster? ==> |m.dat| == MCLBYTES)
  }

  predicate AllValid(ms: seq<Mbuf>) {
    forall i :: 0 <= i < |ms| ==> Valid(ms[i])
  }

  function Data(m: Mbuf): seq<Byte>
    requires Valid(m)
  {
    m.dat[m.off..m.off + m.len]
  }

  /** The bytes that a chain holds. */
  function Bytes(ms: seq<Mbuf>): seq<Byte>
    requires AllValid(ms)
  {
    if ms == [] then [] else Data(ms[0]) + Bytes(ms[1..])
  }

  function Min(a: int, b: int): int {
    if a < b then a else b
  }

  // ----- bytes of chains put together -----

  lemma {:induction false} BytesConcat(u: seq<Mbuf>, v: seq<Mbuf>)
    requires AllValid(u) && AllValid(v)
    ensures AllValid(u + v) && Bytes(u + v) == Bytes(u) + Bytes(v)
  {
    if u == [] {
      assert u + v == v;
    } else {
      BytesConcat(u[1..], v);
      assert (u + v)[1..] == u[1..] + v;
    }
  }

  /** The mbufs before the i-th, the i-th, and those behind it. */
  lemma BytesAt(ms: seq<Mbuf>, i: nat)
    requires AllValid(ms) && i < |ms|
    ensures AllValid(ms[..i]) && AllValid(ms[i..]) && AllValid(ms[i + 1..]) && AllValid(ms[..i + 1])
    ensures Bytes(ms) == Bytes(ms[..i]) + Bytes(ms[i..]) && Bytes(ms[i..]) == Data(ms[i]) + Bytes(ms[i + 1..])
    ensures Bytes(ms[..i + 1]) == Bytes(ms[..i]) + Data(ms[i])
    ensures |Data(ms[i])| == ms[i].len
  {
    assert ms == ms[..i] + ms[i..];
    BytesConcat(ms[..i], ms[i..]);
    assert ms[i..][1..] == ms[i + 1..];
    assert ms[..i + 1] == ms[..i] + [ms[i]];
    BytesConcat(ms[..i], [ms[i]]);
    assert Bytes([ms[i]]) == Data(ms[i]) + Bytes([]);
  }

  lemma BytesAll(ms: seq<Mbuf>)
    requires AllValid(ms)
    ensures ms[..|ms|] == ms && ms[0..] == ms && ms[|ms|..] == []
  {
  }

  /** Replacing one mbuf of a chain. */
  lemma BytesUpdate(ms: seq<Mbuf>, i: nat, m: Mbuf)
    requires AllValid(ms) && i < |ms| && Valid(m)
    ensures AllValid(ms[i := m]) && AllValid(ms[..i]) && AllValid(ms[i + 1..])
    ensures Bytes(ms[i := m]) == Bytes(ms[..i]) + Data(m) + Bytes(ms[i + 1..])
  {
    var ms' := ms[i := m];
    BytesAt(ms', i);
    assert ms'[..i] == ms[..i] && ms'[i + 1..] == ms[i + 1..];
  }

  // ----- copying -----

  /** A fresh mbuf with `bs` in it. */
  function Fresh(bs: seq<Byte>): (m: Mbuf)
    requires |bs| <= MLEN
  {
    Small(MMINOFF, |bs|, Zeros(MMINOFF) + bs + Zeros(MSIZE - MMINOFF - |bs|))
  }

  function Zeros(n: nat): (s: seq<Byte>)
    ensures |s| == n
  {
    seq(n, _ => 0)
  }

  lemma FreshData(bs: seq<Byte>)
    requires |bs| <= MLEN
    ensures Valid(Fresh(bs)) && Data(Fresh(bs)) == bs
  {
  }

  /** Where the data of the i-th mbuf begin. */
  function Begin(ms: seq<Mbuf>, i: nat): nat
    requires AllValid(ms) && i <= |ms|
  {
    |Bytes(ms[..i])|
  }

  lemma BeginEnds(ms: seq<Mbuf>)
    requires AllValid(ms)
    ensures Begin(ms, 0) == 0 && Begin(ms, |ms|) == |Bytes(ms)|
  {
    BytesAll(ms);
  }

  /** The data of the i-th mbuf within those of the chain. */
  lemma Within(ms: seq<Mbuf>, i: nat)
    requires AllValid(ms) && i < |ms|
    ensures Valid(ms[i]) && |Data(ms[i])| == ms[i].len <= MCLBYTES && (ms[i].Small? ==> ms[i].len <= MLEN)
    ensures Begin(ms, i + 1) == Begin(ms, i) + ms[i].len <= |Bytes(ms)|
    ensures Bytes(ms)[Begin(ms, i)..Begin(ms, i + 1)] == Data(ms[i])
  {
    hide Bytes;
    BytesAt(ms, i);
  }

  /** A part of the i-th mbuf's data. */
  lemma PartWithin(ms: seq<Mbuf>, i: nat, a: nat, b: nat)
    requires AllValid(ms) && i < |ms| && a <= b <= ms[i].len
    ensures Valid(ms[i]) && Begin(ms, i) + b <= |Bytes(ms)|
    ensures Bytes(ms)[Begin(ms, i) + a..Begin(ms, i) + b] == Data(ms[i])[a..b]
  {
    hide Bytes, Data;
    Within(ms, i);
    SubSlice(Bytes(ms), Begin(ms, i), Begin(ms, i + 1), a, b);
  }

  lemma SubSlice(s: seq<Byte>, a: nat, b: nat, c: nat, d: nat)
    requires a <= b <= |s| && c <= d <= b - a
    ensures s[a..b][c..d] == s[a + c..a + d]
  {
    assert forall k :: 0 <= k < d - c ==> s[a..b][c..d][k] == s[a + c..a + d][k];
  }

  lemma JoinSlices(s: seq<Byte>, a: nat, b: nat, c: nat)
    requires a <= b <= c <= |s|
    ensures s[a..b] + s[b..c] == s[a..c]
  {
  }

  /** The mbuf in which byte `off` of the chain is found, and where in it; or the end. */
  method Seek(m: seq<Mbuf>, off0: nat) returns (i: nat, off: nat)
    requires AllValid(m) && off0 <= |Bytes(m)|
    ensures i <= |m| && Begin(m, i) + off == off0
    ensures off > 0 ==> i < |m| && off < m[i].len
  {
    hide Bytes;
    i, off := 0, off0;
    BeginEnds(m);
    while off > 0
      invariant i <= |m| && Begin(m, i) + off == off0
      decreases |m| - i
    {
      Within(m, i);
      if off < m[i].len {
        break;
      }
      off := off - m[i].len;
      i := i + 1;
    }
  }

  lemma Push(ms: seq<Mbuf>, m: Mbuf)
    requires AllValid(ms) && Valid(m)
    ensures AllValid(ms + [m]) && Bytes(ms + [m]) == Bytes(ms) + Data(m)
  {
    BytesConcat(ms, [m]);
    assert Bytes([m]) == Data(m) + Bytes([]);
  }

  /** A part of an mbuf: much of a cluster is not copied but shared. */
  method CopyPart(m: Mbuf, off: nat, n: nat) returns (copy: Mbuf)
    requires Valid(m) && off + n <= m.len
    ensures Valid(copy) && Data(copy) == Data(m)[off..off + n]
  {
    if m.Cluster? && n > MLEN {
      copy := m.(off := m.off + off, len := n);
    } else {
      copy := Fresh(Data(m)[off..off + n]);
      FreshData(Data(m)[off..off + n]);
    }
  }

  lemma Copied(m: seq<Mbuf>, off0: nat, i: nat, off: nat, n: nat, top: seq<Mbuf>, copy: Mbuf)
    requires AllValid(m) && i < |m| && AllValid(top) && off + n <= m[i].len && off0 <= Begin(m, i) + off <= |Bytes(m)|
    requires Bytes(top) == Bytes(m)[off0..Begin(m, i) + off] && Valid(copy) && Valid(m[i])
    requires |Data(m[i])| == m[i].len && Data(copy) == Data(m[i])[off..off + n]
    ensures Begin(m, i) + off + n <= |Bytes(m)|
    ensures AllValid(top + [copy]) && Bytes(top + [copy]) == Bytes(m)[off0..Begin(m, i) + off + n]
  {
    hide Bytes, AllValid, Data, Begin;
    PartWithin(m, i, off, off + n);
    Push(top, copy);
    JoinSlices(Bytes(m), off0, Begin(m, i) + off, Begin(m, i) + off + n);
  }

  /** A copy of `len` bytes from byte `off` on, or of everything from there on. */
  method MCopy(m: seq<Mbuf>, off0: nat, len0: nat) returns (top: seq<Mbuf>)
    requires AllValid(m) && off0 <= |Bytes(m)|
    requires len0 <= M_COPYALL && (len0 in {0, M_COPYALL} || off0 + len0 <= |Bytes(m)|)
    ensures AllValid(top)
    ensures Bytes(top) == Bytes(m)[off0..if len0 == M_COPYALL then |Bytes(m)| else off0 + len0]
  {
    hide Bytes, AllValid, Valid, Data, Begin;
    top := [];
    BytesNone();
    if len0 == 0 {
      return;
    }
    var i: nat, off: nat := Seek(m, off0);
    var len: nat := len0;
    ghost var pos := off0;
    BeginEnds(m);
    while len > 0
      invariant off0 <= pos <= |Bytes(m)| && (if len0 == M_COPYALL then len == len0 else pos + len == off0 + len0)
      invariant i <= |m| && (len > 0 ==> pos == Begin(m, i) + off && (off > 0 ==> i < |m| && off < m[i].len))
      invariant AllValid(top) && Bytes(top) == Bytes(m)[off0..pos]
      decreases |m| - i
    {
      if i == |m| {
        break;
      }
      Within(m, i);
      var n: nat := Min(len, m[i].len - off);
      var copy := CopyPart(m[i], off, n);
      Copied(m, off0, i, off, n, top, copy);
      top := top + [copy];
      pos := pos + n;
      if len != M_COPYALL {
        len := len - n;
      }
      off := 0;
      i := i + 1;
    }
    assert len0 == M_COPYALL ==> pos == |Bytes(m)|;
  }


  // ----- joining -----

  /** `m` with the bytes `d` stored behind its data. */
  function Splat(m: Mbuf, d: seq<Byte>): Mbuf
    requires Valid(m) && m.Small? && m.off + m.len + |d| <= MMAXOFF
  {
    var e := m.off + m.len;
    m.(dat := m.dat[..e] + d + m.dat[e + |d|..], len := m.len + |d|)
  }

  lemma SplatData(m: Mbuf, d: seq<Byte>)
    requires Valid(m) && m.Small? && m.off + m.len + |d| <= MMAXOFF
    ensures Valid(Splat(m, d)) && Data(Splat(m, d)) == Data(m) + d
  {
  }

  lemma BytesNone()
    ensures AllValid([]) && Bytes([]) == []
  {
  }

  lemma Assoc(u: seq<Byte>, v: seq<Byte>, w: seq<Byte>)
    ensures (u + v) + w == u + (v + w)
  {
  }

  /** The first mbuf of `n` goes into the last one of `m`. */
  lemma SplatFirst(m: seq<Mbuf>, n: seq<Mbuf>)
    requires AllValid(m) && AllValid(n) && m != [] && n != []
    ensures Valid(m[|m| - 1]) && Valid(n[0]) && AllValid(n[1..]) && |Data(n[0])| == n[0].len
    ensures m[|m| - 1].Small? && m[|m| - 1].off + m[|m| - 1].len + n[0].len <= MMAXOFF ==>
              var m' := m[|m| - 1 := Splat(m[|m| - 1], Data(n[0]))];
              AllValid(m') && Bytes(m') + Bytes(n[1..]) == Bytes(m) + Bytes(n)
  {
    hide Bytes, Data, Splat;
    var k := |m| - 1;
    BytesAt(n, 0);
    BytesAll(n);
    BytesAt(m, k);
    if m[k].Small? && m[k].off + m[k].len + n[0].len <= MMAXOFF {
      var d := Data(n[0]);
      SplatData(m[k], d);
      BytesUpdate(m, k, Splat(m[k], d));
      BytesNone();
      assert m[k + 1..] == [];
      Assoc(Bytes(m[..k]), Data(m[k]), d);
      Assoc(Bytes(m), d, Bytes(n[1..]));
    }
  }

  /** Appends chain `n` to chain `m`, moving bytes together where they fit. */
  method MCat(m0: seq<Mbuf>, n0: seq<Mbuf>) returns (m: seq<Mbuf>)
    requires AllValid(m0) && AllValid(n0) && m0 != []
    ensures AllValid(m) && m != [] && Bytes(m) == Bytes(m0) + Bytes(n0)
  {
    hide Bytes, AllValid, Data, Splat;
    m := m0;
    var n := n0;
    while n != []
      invariant AllValid(m) && AllValid(n) && m != [] && Bytes(m) + Bytes(n) == Bytes(m0) + Bytes(n0)
      decreases |n|
    {
      SplatFirst(m, n);
      var k := |m| - 1;
      if m[k].Cluster? || m[k].off >= MMAXOFF || m[k].off + m[k].len + n[0].len > MMAXOFF {
        BytesConcat(m, n);
        m := m + n;
        return;
      }
      m := m[k := Splat(m[k], Data(n[0]))];
      n := n[1..];
    }
    BytesNone();
  }

  // ----- trimming -----

  /** The first `i` mbufs of `r` are empty, and the rest is that of `ms`. */
  ghost predicate Emptied(r: seq<Mbuf>, ms: seq<Mbuf>, i: nat) {
    i <= |r| == |ms| && AllValid(r) && AllValid(ms) && r[i..] == ms[i..] && Bytes(r[..i]) == []
  }

  lemma EmptyOne(r: seq<Mbuf>, ms: seq<Mbuf>, i: nat)
    requires Emptied(r, ms, i) && i < |r|
    ensures r[i] == ms[i] && Valid(r[i]) && Emptied(r[i := r[i].(len := 0)], ms, i + 1)
  {
    assert r[i] == r[i..][0] && ms[i] == ms[i..][0];
    var m := r[i].(len := 0);
    var r' := r[i := m];
    BytesUpdate(r, i, m);
    BytesAt(r', i);
    assert r'[..i] == r[..i];
    forall j | i < j < |r| ensures r[j] == ms[j] { assert r[i..][j - i] == ms[i..][j - i]; }
  }

  lemma CutOne(r: seq<Mbuf>, ms: seq<Mbuf>, i: nat, n: nat)
    requires Emptied(r, ms, i) && i < |r| && n <= r[i].len
    ensures var r' := r[i := r[i].(len := r[i].len - n, off := r[i].off + n)];
      AllValid(r') && Begin(ms, i) + n <= |Bytes(ms)| && Bytes(r') == Bytes(ms)[Begin(ms, i) + n..]
  {
    hide Bytes;
    assert r[i] == r[i..][0] && ms[i] == ms[i..][0];
    var m := r[i].(len := r[i].len - n, off := r[i].off + n);
    BytesUpdate(r, i, m);
    BytesAt(ms, i);
    assert r[i + 1..] == r[i..][1..] == ms[i..][1..] == ms[i + 1..];
    var u, d, w := Bytes(ms[..i]), Data(ms[i]), Bytes(ms[i + 1..]);
    assert Data(m) == d[n..];
    DropWithin(u, d, w, n);
  }

  lemma DropWithin(u: seq<Byte>, d: seq<Byte>, w: seq<Byte>, n: nat)
    requires n <= |d|
    ensures (u + (d + w))[|u| + n..] == [] + d[n..] + w
  {
  }

  /** Drops `len` bytes from the front of a chain. */
  method AdjFront(ms: seq<Mbuf>, len0: nat) returns (r: seq<Mbuf>)
    requires AllValid(ms)
    ensures AllValid(r) && |r| == |ms| && Bytes(r) == Bytes(ms)[Min(len0, |Bytes(ms)|)..]
  {
    hide Bytes, AllValid, Begin, Emptied;
    r := ms;
    var i, len: nat := 0, len0;
    AdjStart(ms);
    while i < |r| && len > 0
      invariant i <= |r| && Emptied(r, ms, i) && |r| == |ms| && Begin(ms, i) + len == len0
      decreases |r| - i
    {
      EmptyOne(r, ms, i);
      Within(ms, i);
      if r[i].len <= len {
        len := len - r[i].len;
        r := r[i := r[i].(len := 0)];
        i := i + 1;
      } else {
        CutOne(r, ms, i, len);
        r := r[i := r[i].(len := r[i].len - len, off := r[i].off + len)];
        return;
      }
    }
    AdjEnd(r, ms, i);
    BeginEnds(ms);
  }

  lemma AdjStart(ms: seq<Mbuf>)
    requires AllValid(ms)
    ensures Emptied(ms, ms, 0) && Begin(ms, 0) == 0
  {
  }

  lemma AdjEnd(r: seq<Mbuf>, ms: seq<Mbuf>, i: nat)
    requires Emptied(r, ms, i)
    ensures AllValid(r) && Begin(ms, i) <= |Bytes(ms)| && Bytes(r) == Bytes(ms)[Begin(ms, i)..]
  {
    hide Bytes;
    assert r == r[..i] + r[i..] && ms == ms[..i] + ms[i..];
    BytesConcat(r[..i], r[i..]);
    BytesConcat(ms[..i], ms[i..]);
  }

  /** Every mbuf from the i-th on is empty. */
  predicate EmptyFrom(ms: seq<Mbuf>, i: nat) {
    forall j :: i <= j < |ms| ==> ms[j].len == 0
  }

  lemma {:induction false} NoBytes(ms: seq<Mbuf>)
    requires AllValid(ms) && EmptyFrom(ms, 0)
    ensures Bytes(ms) == []
  {
    if ms != [] {
      assert EmptyFrom(ms[1..], 0);
      NoBytes(ms[1..]);
    }
  }

  /** A chain cut to `n` bytes of its i-th mbuf and nothing behind. */
  lemma CutAfter(r: seq<Mbuf>, ms: seq<Mbuf>, i: nat, n: nat)
    requires AllValid(ms) && AllValid(r) && |r| == |ms| && i < |ms| && n <= ms[i].len
    requires r[..i] == ms[..i] && r[i] == ms[i].(len := n) && EmptyFrom(r, i + 1)
    ensures Begin(ms, i) + n <= |Bytes(ms)| && Bytes(r) == Bytes(ms)[..Begin(ms, i) + n]
  {
    hide Bytes;
    BytesAt(ms, i);
    BytesAt(r, i);
    NoBytes(r[i + 1..]);
    var u, d, w := Bytes(ms[..i]), Data(ms[i]), Bytes(ms[i + 1..]);
    assert Data(r[i]) == d[..n];
    TakeWithin(u, d, w, n);
  }

  lemma TakeWithin(u: seq<Byte>, d: seq<Byte>, w: seq<Byte>, n: nat)
    requires n <= |d|
    ensures (u + (d + w))[..|u| + n] == u + (d[..n] + [])
  {
  }

  /** Drops `len` bytes from the end of a chain: one pass finds the last mbuf and the length, and
      if that mbuf is too short, another one cuts the chain at the new length. */
  method AdjBack(ms: seq<Mbuf>, len: nat) returns (r: seq<Mbuf>)
    requires AllValid(ms) && ms != [] && len <= |Bytes(ms)|
    ensures AllValid(r) && |r| == |ms| && Bytes(r) == Bytes(ms)[..|Bytes(ms)| - len]
  {
    hide Bytes, Begin;
    r := ms;
    BeginEnds(ms);
    var k, count: int := 0, 0;
    while true
      invariant 0 <= k < |ms| && count == Begin(ms, k)
      decreases |ms| - k
    {
      Within(ms, k);
      count := count + ms[k].len;
      if k + 1 == |ms| {
        break;
      }
      k := k + 1;
    }
    if ms[k].len >= len {
      r := r[k := r[k].(len := r[k].len - len)];
      CutAfter(r, ms, k, ms[k].len - len);
      return;
    }
    count := count - len;
    var i := 0;
    while r[i].len < count
      invariant 0 <= i < |ms| && 0 <= count && Begin(ms, i) + count == |Bytes(ms)| - len
      decreases |ms| - i
    {
      Within(ms, i);
      count := count - r[i].len;
      i := i + 1;
    }
    Within(ms, i);
    r := r[i := r[i].(len := count)];
    var j := i + 1;
    while j < |r|
      invariant i < j <= |r| == |ms| && AllValid(r) && r[..i] == ms[..i] && r[i] == ms[i].(len := count)
      invariant forall n :: i < n < j ==> r[n].len == 0
    {
      r := r[j := r[j].(len := 0)];
      j := j + 1;
    }
    CutAfter(r, ms, i, count);
  }

  /** Adjusts a chain by `len` bytes: from the front, or from the end if that is negative. */
  method MAdj(ms: seq<Mbuf>, len: int) returns (r: seq<Mbuf>)
    requires AllValid(ms) && (ms == [] || -len <= |Bytes(ms)|)
    ensures AllValid(r) && |r| == |ms|
    ensures ms != [] ==>
      Bytes(r) == if len >= 0 then Bytes(ms)[Min(len, |Bytes(ms)|)..] else Bytes(ms)[..|Bytes(ms)| + len]
  {
    if ms == [] {
      return ms;
    }
    if len >= 0 {
      r := AdjFront(ms, len);
    } else {
      r := AdjBack(ms, -len);
    }
  }

  // ----- contiguous data -----

  datatype Pulled = Chain(ms: seq<Mbuf>) | Lost

  /** `n` without the first `c` bytes of its first mbuf. */
  function Advanced(n: seq<Mbuf>, c: nat): seq<Mbuf>
    requires n != [] && c <= n[0].len
  {
    n[0 := n[0].(off := n[0].off + c, len := n[0].len - c)]
  }

  lemma SplitMbuf(m: Mbuf, c: nat)
    requires Valid(m) && c <= m.len
    ensures var m' := m.(off := m.off + c, len := m.len - c);
      Valid(m') && Data(m') == Data(m)[c..] && |Data(m)| == m.len
  {
  }

  lemma FirstGone(n: seq<Mbuf>)
    requires AllValid(n) && n != [] && n[0].len == 0
    ensures AllValid(n[1..]) && Bytes(n) == Bytes(n[1..])
  {
  }

  lemma FirstValid(n: seq<Mbuf>)
    requires AllValid(n) && n != []
    ensures Valid(n[0])
  {
  }

  lemma PullStep(m: Mbuf, n: seq<Mbuf>, c: nat)
    requires Valid(m) && m.Small? && AllValid(n) && n != [] && c <= n[0].len && m.off + m.len + c <= MMAXOFF
    ensures Valid(n[0]) && |Data(n[0])| == n[0].len
    ensures var m', n' := Splat(m, Data(n[0])[..c]), Advanced(n, c);
      && Valid(m') && AllValid(n') && Data(m') + Bytes(n') == Data(m) + Bytes(n)
      && (c == 0 ==> Data(m') == Data(m))
  {
    hide Bytes, Data, Splat, Valid, AllValid;
    FirstValid(n);
    SplitMbuf(n[0], c);
    var n' := Advanced(n, c);
    var d := Data(n[0]);
    SplatData(m, d[..c]);
    BytesUpdate(n, 0, n'[0]);
    BytesAt(n, 0);
    BytesAll(n);
    BytesNone();
    Moved(Data(m), d, Bytes(n[1..]), c);
  }

  lemma Moved(u: seq<Byte>, d: seq<Byte>, w: seq<Byte>, c: nat)
    requires c <= |d|
    ensures (u + d[..c]) + ([] + d[c..] + w) == u + (d + w)
  {
    assert d == d[..c] + d[c..];
  }

  lemma Front(m: Mbuf, n: seq<Mbuf>)
    requires Valid(m) && AllValid(n)
    ensures AllValid([m] + n) && Bytes([m] + n) == Data(m) + Bytes(n) && |Data(m)| == m.len
  {
    assert ([m] + n)[1..] == n;
  }

  /** A chain of the same bytes whose first mbuf holds `len` of them, if that fits one mbuf and
      the chain is long enough; otherwise the chain is given up. */
  method MPullup(m0: seq<Mbuf>, len0: nat) returns (r: Pulled)
    requires AllValid(m0) && m0 != []
    ensures r.Lost? <==> len0 > MLEN || len0 > |Bytes(m0)|
    ensures r.Chain? ==>
      AllValid(r.ms) && r.ms != [] && Bytes(r.ms) == Bytes(m0) && r.ms[0].Small? && r.ms[0].len == len0
  {
    hide Bytes, Data, Valid, AllValid;
    if len0 > MLEN {
      return Lost;
    }
    var n, len: nat := m0, len0;
    FreshData([]);
    var m := Fresh([]);
    Assoc([], [], Bytes(m0));
    while true
      invariant AllValid(n) && n != [] && len <= len0 && Valid(m) && m.Small?
      invariant m.off == MMINOFF && m.len == len0 - len && Data(m) + Bytes(n) == Bytes(m0)
      decreases |n|
    {
      var count := Min(Min(MLEN - m.len, len), n[0].len);
      PullStep(m, n, count);
      if count > 0 {
        m := Splat(m, Data(n[0])[..count]);
        len := len - count;
        n := Advanced(n, count);
      }
      if n[0].len > 0 {
        break;
      }
      FirstGone(n);
      n := n[1..];
      if n == [] {
        break;
      }
    }
    Front(m, n);
    if len > 0 {
      BytesNone();
      return Lost;
    }
    r := Chain([m] + n);
  }

  lemma BeginMono(ms: seq<Mbuf>, i: nat, j: nat)
    requires AllValid(ms) && i <= j <= |ms|
    ensures Begin(ms, i) <= Begin(ms, j)
    decreases j - i
  {
    if i < j {
      Within(ms, i);
      BeginMono(ms, i + 1, j);
    }
  }

  /** Byte `off` is looked for in the i-th mbuf: it begins there, or lies in the midst. */
  ghost predicate FoundIn(m: seq<Mbuf>, off: nat, i: nat)
    requires AllValid(m) && i < |m|
  {
    Begin(m, i) <= off && (Begin(m, i) == off || off < Begin(m, i + 1)) && forall j :: 0 <= j < i ==> Begin(m, j) < off
  }

  /** Copying to a contiguous area stops where it should: at the end of the chain, within the
      mbuf where it starts, or at the end of a later one. */
  ghost predicate StopsRight(m: seq<Mbuf>, off: nat, len: nat)
    requires AllValid(m)
  {
    || |Bytes(m)| <= off + len
    || len == 0
    || (exists i: nat | i < |m| :: FoundIn(m, off, i) && off + len <= Begin(m, i + 1))
    || (exists i: nat | i <= |m| :: Begin(m, i) == off + len)
  }

  lemma FoundOnce(m: seq<Mbuf>, off: nat, i: nat, j: nat)
    requires AllValid(m) && i < |m| && j < |m| && FoundIn(m, off, i) && FoundIn(m, off, j)
    ensures i == j
  {
  }

  /** Copying from mbuf `first` did not stop at any mbuf behind it. */
  lemma Overrun(m: seq<Mbuf>, off: nat, len: nat, first: nat)
    requires AllValid(m) && first < |m| && FoundIn(m, off, first) && Begin(m, first + 1) < off + len
    requires forall j :: first < j <= |m| ==> Begin(m, j) != off + len
    ensures StopsRight(m, off, len) ==> |Bytes(m)| <= off + len
  {
    forall i: nat | i < |m| && FoundIn(m, off, i) ensures off + len > Begin(m, i + 1) { FoundOnce(m, off, i, first); }
    forall i: nat | i <= |m| ensures Begin(m, i) != off + len {
      if i <= first { BeginMono(m, i, first + 1); }
    }
  }

  /** Copies `len` bytes from byte `off` on to `cp`, and tells how many were missing: true where
      copying stops right, and otherwise everything up to the end of the chain is copied. */
  method MCpytoc(m: seq<Mbuf>, off0: nat, len0: nat) returns (len: int, cp: seq<Byte>)
    requires AllValid(m) && m != []
    ensures len == len0 - |cp|
    ensures var n := |Bytes(m)|; var o := Min(off0, n);
      cp == Bytes(m)[o..if StopsRight(m, off0, len0) then Min(o + len0, n) else n]
  {
    hide Bytes, AllValid, Valid, Data, Begin;
    var i, off: nat := 0, off0;
    len, cp := len0, [];
    BeginEnds(m);
    while off > 0 && i < |m|
      invariant i <= |m| && Begin(m, i) + off == off0 && forall j :: 0 <= j < i ==> Begin(m, j) < off0
      invariant off == 0 ==> i < |m| || Begin(m, |m|) == off0
      decreases |m| - i
    {
      Within(m, i);
      if m[i].len <= off {
        off := off - m[i].len;
        i := i + 1;
      } else {
        break;
      }
    }
    if i == |m| {
      return;
    }
    Within(m, i);
    ghost var first := i;
    assert FoundIn(m, off0, first);
    var ml: nat := Min(len0, m[i].len - off);
    PartWithin(m, i, off, off + ml);
    cp := Data(m[i])[off..off + ml];
    len := len - ml;
    i := i + 1;
    ghost var pos: nat := off0 + ml;
    while len != 0 && i < |m|
      invariant first < i <= |m| && off0 <= pos <= |Bytes(m)| && cp == Bytes(m)[off0..pos] && len == off0 + len0 - pos
      invariant len != 0 ==> pos == Begin(m, i) && Begin(m, first + 1) < off0 + len0
      invariant len == 0 ==> StopsRight(m, off0, len0)
      invariant forall j :: first < j < i ==> Begin(m, j) != off0 + len0
      decreases |m| - i
    {
      Within(m, i);
      JoinSlices(Bytes(m), off0, pos, pos + m[i].len);
      cp := cp + Data(m[i]);
      len := len - m[i].len;
      pos := pos + m[i].len;
      i := i + 1;
    }
    if len != 0 {
      Overrun(m, off0, len0, first);
    }
  }

  /** Two bytes in one mbuf and two in the next: three are asked for, and `MCpytoc` copies four. */
  lemma CopiesTooMuch()
    ensures var m := [Fresh([1, 2]), Fresh([3, 4])];
      AllValid(m) && |Bytes(m)| == 4 && !StopsRight(m, 0, 3)
  {
    var a, b := Fresh([1, 2]), Fresh([3, 4]);
    var m := [a, b];
    FreshData([1, 2]);
    FreshData([3, 4]);
    assert m[1..] == [b] && m[1..][1..] == [] && [b][1..] == [];
    assert Bytes([b]) == Data(b) + Bytes([b][1..]);
    assert m[..0] == [] && m[..1] == [a] && m[..2] == m && [a][1..] == [];
    hide Fresh, Data;
    assert Begin(m, 0) == 0 && Begin(m, 1) == 2 && Begin(m, 2) == 4;
    forall i: nat | i < 2 ensures !(FoundIn(m, 0, i) && 3 <= Begin(m, i + 1)) {}
  }
}
