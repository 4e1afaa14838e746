/** The Internet checksum over a chain of mbufs. */
module Checksum {
  import Octets
  import opened Mbufs

  function B(b: Byte): (n: nat)
    ensures n < 256
  {
    b as nat
  }

  /** One's complement addition of 16-bit words: the carry goes round to the low end. */
  function Plus(a: nat, b: nat): (c: nat)
    requires a < 0x10000 && b < 0x10000
    ensures c < 0x10000
  {
    if a + b < 0x10000 then a + b else a + b - 0xFFFF
  }

  /** The one's complement sum of the 16-bit words that bytes make up, high byte first; an odd byte
      at the end is taken with a zero. */
  function OnesSum(bs: seq<Byte>): (c: nat)
    ensures c < 0x10000
  {
    if bs == [] then 0
    else if |bs| == 1 then B(bs[0]) * 256
    else Plus(B(bs[0]) * 256 + B(bs[1]), OnesSum(bs[2..]))
  }

  /** The same sum without carrying round. */
  function WordSum(bs: seq<Byte>): nat {
    if bs == [] then 0
    else if |bs| == 1 then B(bs[0]) * 256
    else B(bs[0]) * 256 + B(bs[1]) + WordSum(bs[2..])
  }

  // ----- carrying round at the end -----

  /** All carries go round until none is left. */
  function Folded(n: nat): (c: nat)
    ensures c < 0x10000
  {
    if n < 0x10000 then n else Folded(n / 0x10000 + n % 0x10000)
  }

  /** A folded sum is the number's residue, with 0xFFFF instead of 0 for all but zero itself. */
  lemma {:induction false} FoldedIs(n: nat)
    ensures Folded(n) == if n == 0 then 0 else (n - 1) % 0xFFFF + 1
  {
    if n < 0x10000 {
      if n > 0 { Residue(n - 1, 0); }
    } else {
      var q, r := n / 0x10000, n % 0x10000;
      FoldedIs(q + r);
      Residue2(n, q, r);
    }
  }

  lemma Residue(a: nat, q: nat)
    requires a < 0xFFFF
    ensures (a + q * 0xFFFF) % 0xFFFF == a
  {
  }

  lemma Residue2(n: nat, q: nat, r: nat)
    requires n == q * 0x10000 + r && q > 0
    ensures (n - 1) % 0xFFFF == (q + r - 1) % 0xFFFF
  {
    assert n - 1 == q + r - 1 + q * 0xFFFF;
  }

  lemma PlusFolds(a: nat, n: nat)
    requires a < 0x10000
    ensures Plus(a, Folded(n)) == Folded(a + n)
  {
    hide Folded;
    FoldedIs(n);
    FoldedIs(a + n);
    if n > 0 {
      var f, k := (n - 1) % 0xFFFF, (n - 1) / 0xFFFF;
      assert a + n - 1 == a + f + k * 0xFFFF;
      if a + f < 0xFFFF { Residue(a + f, k); } else { Residue(a + f - 0xFFFF, k + 1); }
    } else if a > 0 {
      Residue(a - 1, 0);
    }
  }

  /** Carrying round at the end gives the one's complement sum. */
  lemma {:induction false} SumFolds(bs: seq<Byte>)
    ensures Folded(WordSum(bs)) == OnesSum(bs)
    decreases |bs|
  {
    hide B, Folded, Plus;
    if |bs| >= 2 {
      SumFolds(bs[2..]);
      PlusFolds(B(bs[0]) * 256 + B(bs[1]), WordSum(bs[2..]));
    } else {
      Small(WordSum(bs));
    }
  }

  lemma Small(n: nat)
    requires n < 0x10000
    ensures Folded(n) == n
  {
  }

  // ----- a byte more -----

  /** What the next byte counts for. */
  lemma {:induction false} SumByte(bs: seq<Byte>, b: Byte)
    ensures WordSum(bs + [b]) == WordSum(bs) + if |bs| % 2 == 0 then B(b) * 256 else B(b)
    decreases |bs|
  {
    hide B;
    if |bs| >= 2 {
      SumByte(bs[2..], b);
      assert (bs + [b])[2..] == bs[2..] + [b];
    } else if |bs| == 1 {
      assert (bs + [b])[2..] == [];
    }
  }

  lemma {:induction false} SumBound(bs: seq<Byte>)
    ensures WordSum(bs) <= (|bs| + 1) / 2 * 0xFFFF
    decreases |bs|
  {
    hide B;
    if |bs| >= 2 { SumBound(bs[2..]); }
  }

  /** The sum of as many bytes as a short can count fits a long. */
  lemma SumFits(bs: seq<Byte>)
    requires |bs| <= 32767
    ensures WordSum(bs) < 0x8000_0000
  {
    hide WordSum;
    SumBound(bs);
  }

  /** The state of the loop after the bytes `u`: a byte `w0` may be waiting for the low half of its
      word. */
  ghost predicate Sums(u: seq<Byte>, result: nat, wasodd: bool, w0: Byte) {
    && (wasodd <==> |u| % 2 == 1) && (wasodd ==> w0 == u[|u| - 1])
    && result + (if wasodd then B(w0) * 256 else 0) == WordSum(u)
  }

  lemma SumsNone(w: Byte)
    ensures Sums([], 0, false, w)
  {
  }

  lemma SumsTotal(u: seq<Byte>, result: nat, wasodd: bool, w: Byte)
    requires Sums(u, result, wasodd, w)
    ensures result + (if wasodd then B(w) * 256 else 0) == WordSum(u)
  {
  }

  lemma SumsByte(u: seq<Byte>, result: nat, wasodd: bool, w0: Byte, b: Byte)
    requires Sums(u, result, wasodd, w0)
    ensures if wasodd then Sums(u + [b], result + B(w0) * 256 + B(b), false, w0) else Sums(u + [b], result, true, b)
  {
    SumByte(u, b);
  }

  lemma SumsWord(u: seq<Byte>, result: nat, w0: Byte, b: Byte, c: Byte)
    requires Sums(u, result, false, w0)
    ensures Sums(u + [b, c], result + B(b) * 256 + B(c), false, w0)
  {
    SumsByte(u, result, false, w0, b);
    SumsByte(u + [b], result, true, b, c);
    assert u + [b] + [c] == u + [b, c];
  }

  lemma Extend(u: seq<Byte>, d: seq<Byte>, i: nat, j: nat)
    requires i <= j <= |d|
    ensures u + d[..i] + d[i..j] == u + d[..j]
  {
  }

  /** Adds the bytes of an mbuf when the one before it ended within a word. */
  method AddOdd(d: seq<Byte>, result0: nat, w0: Byte, ghost u: seq<Byte>) returns (result: nat, wasodd: bool, w: Byte)
    requires d != [] && Sums(u, result0, true, w0)
    ensures Sums(u + d, result, wasodd, w)
  {
    hide Sums, B;
    w := w0;
    SumsByte(u, result0, true, w, d[0]);
    result := result0 + B(w) * 256 + B(d[0]);
    var k, mlen := 1, |d| - 1;
    assert d[..1] == [d[0]];
    while mlen != 0
      invariant 1 <= k && k + mlen == |d| && 0 <= mlen && Sums(u + d[..k], result, false, w)
      decreases mlen
    {
      SumsByte(u + d[..k], result, false, w, d[k]);
      Extend(u, d, k, k + 1);
      assert d[k..k + 1] == [d[k]];
      w := d[k];
      mlen := mlen - 1;
      if mlen == 0 {
        // the byte waits for the next mbuf
        wasodd := true;
        assert d[..k + 1] == d;
        return;
      }
      SumsByte(u + d[..k + 1], result, true, w, d[k + 1]);
      Extend(u, d, k + 1, k + 2);
      assert d[k + 1..k + 2] == [d[k + 1]];
      result := result + B(w) * 256 + B(d[k + 1]);
      k := k + 2;
      mlen := mlen - 1;
    }
    assert d[..k] == d;
    wasodd := false;
  }

  /** Adds the bytes of an mbuf that begins with a word: whole words first, then an odd byte. */
  method AddEven(d: seq<Byte>, result0: nat, w0: Byte, ghost u: seq<Byte>) returns (result: nat, wasodd: bool, w: Byte)
    requires d != [] && Sums(u, result0, false, w0)
    ensures Sums(u + d, result, wasodd, w)
  {
    hide Sums, B;
    result, w := result0, w0;
    var thisodd := |d| % 2 == 1;
    var words := |d| / 2;
    var k := 0;
    assert u + d[..0] == u;
    while words != 0
      invariant 0 <= k && 0 <= words && k + 2 * words == |d| / 2 * 2 && Sums(u + d[..k], result, false, w)
      decreases words
    {
      SumsWord(u + d[..k], result, w, d[k], d[k + 1]);
      Extend(u, d, k, k + 2);
      assert d[k..k + 2] == [d[k], d[k + 1]];
      result := result + B(d[k]) * 256 + B(d[k + 1]);
      k := k + 2;
      words := words - 1;
    }
    if thisodd {
      SumsByte(u + d[..k], result, false, w, d[k]);
      Extend(u, d, k, k + 1);
      assert d[k..k + 1] == [d[k]];
      w := d[k];
      k := k + 1;
    }
    assert d[..k] == d;
    wasodd := thisodd;
  }

  /** `~result & 0xffff`. */
  function Complement(n: nat): nat
    requires n < 0x10000
  {
    0xFFFF - n
  }

  /** What is summed: the first `len` bytes; if the chain is shorter, all of it but not an odd byte
      at its end. */
  function Summed(bs: seq<Byte>, len: nat): seq<Byte> {
    if len <= |bs| then bs[..len] else bs[..|bs| / 2 * 2]
  }

  /** The checksum of the first `len` bytes of a chain. */
  method InCksum(m: seq<Mbuf>, len0: int, checking: bool) returns (r: nat)
    requires AllValid(m) && m != []
    ensures r == if !checking then 0 else Complement(OnesSum(Summed(Bytes(m), if len0 < 0 then 0 else len0)))
  {
    hide Sums, Bytes, Data, Folded, OnesSum;
    if !checking {
      return 0;
    }
    var len, i := len0, 0;
    var result: nat, wasodd, w: Byte := 0, false, 0;
    ghost var u: seq<Byte> := [];
    ghost var n := if len0 < 0 then 0 else len0;
    SumsNone(w);
    BeginEnds(m);
    while true
      invariant 0 <= i < |m| && Sums(u, result, wasodd, w) && |u| == Begin(m, i) <= |Bytes(m)| && u == Bytes(m)[..|u|]
      invariant len == len0 - |u| && (|u| > 0 ==> len > 0)
      decreases |m| - i
    {
      Within(m, i);
      var mlen := m[i].len;
      if len < mlen {
        mlen := len;
      }
      len := len - mlen;
      if mlen > 0 {
        PartWithin(m, i, 0, mlen);
        JoinSlices(Bytes(m), 0, |u|, |u| + mlen);
        var d := Data(m[i])[..mlen];
        if wasodd {
          result, wasodd, w := AddOdd(d, result, w, u);
        } else {
          result, wasodd, w := AddEven(d, result, w, u);
        }
        u := u + d;
      }
      if len <= 0 {
        break;
      }
      var j := NextData(m, i + 1);
      if j == |m| {
        // out of data
        r := Finish(result);
        assert u == Bytes(m);
        ShortSum(u, result, wasodd, w);
        SumFolds(Bytes(m)[..|Bytes(m)| / 2 * 2]);
        return;
      }
      i := j;
    }
    SumsTotal(u, result, wasodd, w);
    if wasodd {
      result := result + B(w) * 256;
    }
    SumFolds(u);
    r := Finish(result);
  }

  /** The next mbuf with data, from the i-th on. */
  method NextData(m: seq<Mbuf>, i0: nat) returns (i: nat)
    requires AllValid(m) && i0 <= |m|
    ensures i0 <= i <= |m| && Begin(m, i) == Begin(m, i0)
  {
    i := i0;
    while i < |m| && m[i].len == 0
      invariant i0 <= i <= |m| && Begin(m, i) == Begin(m, i0)
    {
      Within(m, i);
      i := i + 1;
    }
  }

  /** Carries go round, and the sum is complemented. */
  method Finish(result0: nat) returns (r: nat)
    ensures r == Complement(Folded(result0))
  {
    var result := result0;
    while result / 0x10000 != 0
      invariant Folded(result) == Folded(result0)
      decreases result
    {
      var carry := result / 0x10000;
      result := result % 0x10000;
      result := result + carry;
    }
    r := Complement(result);
  }

  lemma ShortSum(u: seq<Byte>, result: nat, wasodd: bool, w: Byte)
    requires Sums(u, result, wasodd, w)
    ensures result == WordSum(u[..|u| / 2 * 2])
  {
    if wasodd {
      var front, last := u[..|u| - 1], u[|u| - 1];
      assert u == front + [last] && |u| / 2 * 2 == |front|;
      SumByte(front, last);
    } else {
      assert u[..|u| / 2 * 2] == u;
    }
  }

  // ----- storing the checksum -----

  function ToByte(n: nat): Byte
    requires n < 256
  {
    n as Byte
  }

  lemma ByteBack(n: nat)
    requires n < 256
    ensures B(ToByte(n)) == n
  {
    Octets.ByteBack(n);
  }

  /** The bytes with the word at offset `k` replaced. */
  function Store(bs: seq<Byte>, k: nat, word: nat): (r: seq<Byte>)
    requires k + 1 < |bs| && word < 0x10000
    ensures |r| == |bs|
  {
    bs[k := ToByte(word / 256)][k + 1 := ToByte(word % 256)]
  }

  lemma StoredElsewhere(bs: seq<Byte>, k: nat, word: nat)
    requires k + 1 < |bs| && word < 0x10000
    ensures forall i :: 0 <= i < |bs| && i != k && i != k + 1 ==> bs[i] == Store(bs, k, word)[i]
  {
  }

  function WordAt(bs: seq<Byte>, k: nat): (w: nat)
    requires k + 1 < |bs|
    ensures w < 0x10000
  {
    B(bs[k]) * 256 + B(bs[k + 1])
  }

  lemma StoredWord(bs: seq<Byte>, k: nat, word: nat)
    requires k + 1 < |bs| && word < 0x10000
    ensures WordAt(Store(bs, k, word), k) == word
  {
    hide B, ToByte;
    ByteBack(word / 256);
    ByteBack(word % 256);
  }

  /** The word at an even offset counts for itself. */
  lemma {:induction false} SumReplaced(bs: seq<Byte>, cs: seq<Byte>, k: nat)
    requires k % 2 == 0 && k + 1 < |bs| == |cs| && forall i :: 0 <= i < |bs| && i != k && i != k + 1 ==> bs[i] == cs[i]
    ensures WordSum(bs) - WordAt(bs, k) == WordSum(cs) - WordAt(cs, k)
    decreases |bs|
  {
    hide B;
    if k == 0 {
      assert bs[2..] == cs[2..];
    } else {
      SumReplaced(bs[2..], cs[2..], k - 2);
    }
  }

  /** When the checksum of some bytes is stored into a zeroed field at an even offset among them,
      the checksum of the result is zero. */
  lemma StoredVerifies(bs: seq<Byte>, k: nat)
    requires k % 2 == 0 && k + 1 < |bs| && WordAt(bs, k) == 0
    ensures Complement(OnesSum(Store(bs, k, Complement(OnesSum(bs))))) == 0
  {
    hide B, WordSum, OnesSum, Folded, WordAt, Store;
    var n, c := WordSum(bs), Complement(OnesSum(bs));
    var cs := Store(bs, k, c);
    StoredWord(bs, k, c);
    StoredElsewhere(bs, k, c);
    SumReplaced(bs, cs, k);
    SumFolds(bs);
    SumFolds(cs);
    FoldedIs(n);
    FoldedIs(n + c);
    if n > 0 {
      var f, q := (n - 1) % 0xFFFF, (n - 1) / 0xFFFF;
      assert n + c - 1 == 0xFFFE + q * 0xFFFF;
      Residue(0xFFFE, q);
    } else {
      Residue(0xFFFE, 0);
    }
  }

  lemma NoneOver(n: nat)
    requires n > 0 && (n - 1) % 0xFFFF == 0xFFFE
    ensures n % 0xFFFF == 0
  {
    assert n == ((n - 1) / 0xFFFF + 1) * 0xFFFF;
  }

  /** Bytes that verify do not any more when one of their words is changed, unless between the two
      representations of zero. */
  lemma ChangeDetected(bs: seq<Byte>, k: nat, word: nat)
    requires k % 2 == 0 && k + 1 < |bs| && word < 0x10000 && Complement(OnesSum(bs)) == 0
    requires word != WordAt(bs, k) && !(word % 0xFFFF == 0 && WordAt(bs, k) % 0xFFFF == 0)
    ensures Complement(OnesSum(Store(bs, k, word))) != 0
  {
    hide B, WordSum, OnesSum, Folded, WordAt, Store;
    var was, cs := WordAt(bs, k), Store(bs, k, word);
    StoredWord(bs, k, word);
    StoredElsewhere(bs, k, word);
    SumReplaced(bs, cs, k);
    SumFolds(bs);
    SumFolds(cs);
    FoldedIs(WordSum(bs));
    FoldedIs(WordSum(cs));
    var n, n' := WordSum(bs), WordSum(cs);
    var q := (n - 1) / 0xFFFF;
    assert n == (q + 1) * 0xFFFF;
    if n' > 0 && (n' - 1) % 0xFFFF == 0xFFFE { NoneOver(n'); }
  }
}
