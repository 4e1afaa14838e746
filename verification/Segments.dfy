/** Pieces of a byte stream that arrive in any order, again, and overlapping: the queue that keeps
    them, and what it holds. Reassembly of datagrams and of connections both use it. */
module Segments {

  type Byte = bv8

  /** The bytes from position `start` on. `last` marks the piece that ends the stream. */
  datatype Seg = Seg(start: int, data: seq<Byte>, last: bool)

  function End(s: Seg): int {
    s.start + |s.data|
  }

  /** Two's complement of a field that holds -w..w-1; `w` = 0 stands for a field without bounds. */
  function Wrap(w: nat, x: int): int {
    if w == 0 then x else (x + w) % (2 * w) - w
  }

  /** Without its first `i` bytes. */
  function Drop(w: nat, s: Seg, i: nat): Seg
    requires i <= |s.data|
  {
    Seg(Wrap(w, s.start + i), s.data[i..], s.last)
  }

  // ----- the queue -----

  /** How many pieces begin no later than position `p`, up to the first that does. */
  function Place(q: seq<Seg>, p: int): (k: nat)
    ensures k <= |q| && (k < |q| ==> q[k].start > p) && forall i :: 0 <= i < k ==> q[i].start <= p
  {
    if q == [] || q[0].start > p then 0 else 1 + Place(q[1..], p)
  }

  /** The pieces `q` without what lies before `p`. */
  function Trim(w: nat, q: seq<Seg>, p: int): seq<Seg> {
    if q == [] || p <= q[0].start then q
    else if p - q[0].start < |q[0].data| then [Drop(w, q[0], p - q[0].start)] + q[1..]
    else Trim(w, q[1..], p)
  }

  /** The queue after piece `s` arrives: what an earlier piece has of it is dropped from it, then
      what it has of later pieces is dropped from them. */
  function Insert(w: nat, q: seq<Seg>, s: Seg): seq<Seg> {
    var k := Place(q, s.start);
    var i := if k > 0 then End(q[k - 1]) - s.start else 0;
    if i > 0 && i >= |s.data| then q
    else
      var s' := if i > 0 then Drop(w, s, i) else s;
      q[..k] + [s'] + Trim(w, q[k..], End(s'))
  }

  // ----- what a queue holds -----

  /** Sorted and disjoint. */
  predicate Ordered(q: seq<Seg>) {
    forall i, j :: 0 <= i < j < |q| ==> End(q[i]) <= q[j].start
  }

  /** No piece is empty. */
  predicate Filled(q: seq<Seg>) {
    forall i :: 0 <= i < |q| ==> |q[i].data| > 0
  }

  /** The piece is a part of `stream`. */
  predicate PartOf(s: Seg, stream: seq<Byte>) {
    0 <= s.start && End(s) <= |stream| && s.data == stream[s.start..End(s)]
  }

  predicate AllPartOf(q: seq<Seg>, stream: seq<Byte>) {
    forall i :: 0 <= i < |q| ==> PartOf(q[i], stream)
  }

  predicate Has(s: Seg, p: int) {
    s.start <= p < End(s)
  }

  predicate Covers(q: seq<Seg>, p: int) {
    exists i :: 0 <= i < |q| && Has(q[i], p)
  }

  /** `s` ends where one of the pieces `q` ends, and is marked like it. */
  predicate EndsLike(s: Seg, q: seq<Seg>) {
    exists j :: 0 <= j < |q| && End(s) == End(q[j]) && s.last == q[j].last
  }

  predicate AllEndLike(q': seq<Seg>, q: seq<Seg>) {
    forall i :: 0 <= i < |q'| ==> EndsLike(q'[i], q)
  }

  predicate AllBelow(q: seq<Seg>, p: int) {
    forall i :: 0 <= i < |q| ==> End(q[i]) <= p
  }

  predicate AllAbove(q: seq<Seg>, p: int) {
    forall i :: 0 <= i < |q| ==> p <= q[i].start
  }

  lemma CoversConcat(u: seq<Seg>, v: seq<Seg>, p: int)
    ensures Covers(u + v, p) <==> Covers(u, p) || Covers(v, p)
  {
    if Covers(u, p) {
      var i :| 0 <= i < |u| && Has(u[i], p);
      assert (u + v)[i] == u[i];
    }
    if Covers(v, p) {
      var i :| 0 <= i < |v| && Has(v[i], p);
      assert (u + v)[|u| + i] == v[i];
    }
    if Covers(u + v, p) {
      var i :| 0 <= i < |u + v| && Has((u + v)[i], p);
      if i >= |u| { assert (u + v)[i] == v[i - |u|]; }
    }
  }

  lemma CoversOne(s: Seg, p: int)
    ensures Covers([s], p) <==> Has(s, p)
  {
    if Has(s, p) { assert Has([s][0], p); }
  }

  /** Two queues, one before the other. */
  lemma Join(u: seq<Seg>, v: seq<Seg>, p: int, stream: seq<Byte>)
    requires Ordered(u) && Ordered(v) && AllBelow(u, p) && AllAbove(v, p) && AllPartOf(u, stream)
    requires AllPartOf(v, stream)
    ensures Ordered(u + v) && AllPartOf(u + v, stream)
  {
  }

  lemma Cut(q: seq<Seg>, k: nat, stream: seq<Byte>)
    requires Ordered(q) && AllPartOf(q, stream) && k <= |q|
    ensures Ordered(q[..k]) && Ordered(q[k..]) && AllPartOf(q[..k], stream) && AllPartOf(q[k..], stream)
    ensures 0 < k ==> AllBelow(q[..k], End(q[k - 1]))
    ensures 0 < k ==> AllAbove(q[k..], End(q[k - 1]))
    ensures k < |q| ==> AllAbove(q[k..], q[k].start) && AllBelow(q[..k], q[k].start)
    ensures q == q[..k] + q[k..]
  {
    if 0 < k { assert forall i :: 0 <= i < k ==> End(q[i]) <= End(q[k - 1]); }
  }

  lemma EndsJoin(u: seq<Seg>, v: seq<Seg>, q: seq<Seg>)
    requires AllEndLike(u, q) && AllEndLike(v, q)
    ensures AllEndLike(u + v, q)
  {
  }

  lemma EndsWiden(u: seq<Seg>, q: seq<Seg>, k: nat, q': seq<Seg>)
    requires k + |q| <= |q'| && q'[k..k + |q|] == q && AllEndLike(u, q)
    ensures AllEndLike(u, q')
  {
    forall i | 0 <= i < |u| ensures EndsLike(u[i], q') {
      assert EndsLike(u[i], q);
      var j :| 0 <= j < |q| && End(u[i]) == End(q[j]) && u[i].last == q[j].last;
      assert q'[k..k + |q|][j] == q'[k + j];
    }
  }

  lemma EndsSelf(q: seq<Seg>)
    ensures AllEndLike(q, q)
  {
    forall i | 0 <= i < |q| ensures EndsLike(q[i], q) {}
  }

  lemma DropPart(s: Seg, i: nat, stream: seq<Byte>)
    requires i < |s.data| && PartOf(s, stream)
    ensures var d := Drop(0, s, i);
      PartOf(d, stream) && End(d) == End(s) && d.start == s.start + i && |d.data| > 0 && EndsLike(d, [s])
  {
    assert End(Drop(0, s, i)) == End([s][0]);
  }

  /** What is left of the pieces `q` past position `p`. */
  ghost predicate Trimmed(t: seq<Seg>, q: seq<Seg>, p: int, stream: seq<Byte>) {
    && Ordered(t) && AllPartOf(t, stream) && AllEndLike(t, q) && AllAbove(t, p)
    && forall x :: Covers(t, x) <==> Covers(q, x) && p <= x
  }

  lemma {:induction false} TrimCorrect(q: seq<Seg>, p: int, stream: seq<Byte>)
    requires Ordered(q) && AllPartOf(q, stream)
    ensures Trimmed(Trim(0, q, p), q, p, stream)
  {
    hide Ordered, AllPartOf, Covers, EndsLike, AllEndLike, PartOf;
    if q == [] || p <= q[0].start {
      EndsSelf(q);
      AllLater(q, p);
    } else {
      var rest := q[1..];
      Cut(q, 1, stream);
      assert q[..1] == [q[0]];
      assert Ordered([q[0]]);
      if p - q[0].start < |q[0].data| {
        TrimFirst(q, p, stream);
      } else {
        TrimCorrect(rest, p, stream);
        EndsWiden(Trim(0, rest, p), rest, 1, q);
        forall x ensures Covers(q, x) && p <= x <==> Covers(rest, x) && p <= x {
          CoversConcat([q[0]], rest, x);
          CoversOne(q[0], x);
        }
      }
    }
  }

  lemma AllLater(q: seq<Seg>, p: int)
    requires Ordered(q) && (q != [] ==> p <= q[0].start)
    ensures AllAbove(q, p) && forall x :: Covers(q, x) ==> p <= x
  {
    forall i | 0 <= i < |q| ensures p <= q[i].start {
      if i > 0 { assert End(q[0]) <= q[i].start; }
    }
  }

  lemma EndsOne(s: Seg, t: Seg)
    requires End(s) == End(t) && s.last == t.last
    ensures AllEndLike([s], [t])
  {
    assert End(s) == End([t][0]) && s.last == [t][0].last;
  }

  lemma CoversAt(q: seq<Seg>, i: nat, x: int)
    requires i < |q| && Has(q[i], x)
    ensures Covers(q, x)
  {
  }

  /** The first piece reaches past `p`. */
  lemma TrimFirst(q: seq<Seg>, p: int, stream: seq<Byte>)
    requires Ordered(q) && AllPartOf(q, stream) && q != [] && q[0].start < p < End(q[0])
    ensures Trimmed([Drop(0, q[0], p - q[0].start)] + q[1..], q, p, stream)
  {
    hide Covers, EndsLike, AllEndLike, PartOf;
    var d, rest := Drop(0, q[0], p - q[0].start), q[1..];
    Cut(q, 1, stream);
    assert PartOf(q[0], stream);
    DropPart(q[0], p - q[0].start, stream);
    Join([d], rest, End(q[0]), stream);
    EndsSelf(rest);
    EndsWiden(rest, rest, 1, q);
    EndsOne(d, q[0]);
    EndsWiden([d], [q[0]], 0, q);
    EndsJoin([d], rest, q);
    assert q == [q[0]] + rest;
    forall x ensures Covers([d] + rest, x) <==> Covers(q, x) && p <= x {
      CoversConcat([d], rest, x);
      CoversConcat([q[0]], rest, x);
      CoversOne(d, x);
      CoversOne(q[0], x);
      AllLater(rest, p);
    }
  }

  /** Whatever arrives, the queue stays sorted and disjoint, holds only bytes of the stream, and
      covers exactly what it and the new piece covered. */
  lemma InsertCorrect(q: seq<Seg>, s: Seg, stream: seq<Byte>)
    requires Ordered(q) && AllPartOf(q, stream) && PartOf(s, stream)
    ensures var q' := Insert(0, q, s);
      && Ordered(q') && AllPartOf(q', stream) && AllEndLike(q', q + [s])
      && forall x :: Covers(q', x) <==> Covers(q, x) || Has(s, x)
  {
    hide Ordered, AllPartOf, Covers, EndsLike, AllEndLike, PartOf, Trim;
    var k := Place(q, s.start);
    var i := if k > 0 then End(q[k - 1]) - s.start else 0;
    var u, v := q[..k], q[k..];
    Cut(q, k, stream);
    EndsSelf(q);
    EndsWiden(q, q, 0, q + [s]);
    if i > 0 && i >= |s.data| {
      forall x ensures Has(s, x) ==> Covers(q, x) {
        if Has(s, x) { CoversAt(q, k - 1, x); }
      }
    } else {
      var s' := if i > 0 then Drop(0, s, i) else s;
      if i > 0 { DropPart(s, i, stream); } else { EndsSelf([s]); }
      InsertPiece(q, k, s, s', stream);
    }
  }

  /** `s'` is what the pieces before place `k` leave of `s`. */
  lemma InsertPiece(q: seq<Seg>, k: nat, s: Seg, s': Seg, stream: seq<Byte>)
    requires Ordered(q) && AllPartOf(q, stream) && k <= |q|
    requires PartOf(s', stream) && End(s') == End(s) && s'.last == s.last && s.start <= s'.start
    requires k < |q| ==> s.start < q[k].start
    requires k > 0 ==> End(q[k - 1]) <= s'.start
    requires s'.start != s.start ==> k > 0 && q[k - 1].start <= s.start && s'.start == End(q[k - 1])
    ensures var q' := q[..k] + [s'] + Trim(0, q[k..], End(s'));
      && Ordered(q') && AllPartOf(q', stream) && AllEndLike(q', q + [s])
      && forall x :: Covers(q', x) <==> Covers(q, x) || Has(s, x)
  {
    hide Ordered, AllPartOf, EndsLike, AllEndLike, PartOf, Trim, AllBelow, AllAbove, Covers;
    var u, v := q[..k], q[k..];
    Cut(q, k, stream);
    TrimCorrect(v, End(s'), stream);
    var v' := Trim(0, v, End(s'));
    JoinThree(q, k, s', v', stream);
    ThreeEnds(q, k, s, s', v');
    forall x ensures Covers(u + [s'] + v', x) <==> Covers(q, x) || Has(s, x) {
      CoversConcat(u + [s'], v', x);
      CoversConcat(u, [s'], x);
      CoversOne(s', x);
      CoversConcat(u, v, x);
      if s.start <= x < s'.start {
        CoversAt(u, k - 1, x);
      }
      if Covers(v, x) {
        AllLater(v, s.start + 1);
      }
    }
  }

  lemma BelowMore(u: seq<Seg>, p: int, p': int)
    requires u == [] || (AllBelow(u, p) && p <= p')
    ensures AllBelow(u, p')
  {
  }

  lemma BelowPush(u: seq<Seg>, s: Seg)
    requires AllBelow(u, s.start) && s.start <= End(s)
    ensures AllBelow(u + [s], End(s))
  {
  }

  lemma JoinThree(q: seq<Seg>, k: nat, s': Seg, v': seq<Seg>, stream: seq<Byte>)
    requires Ordered(q) && AllPartOf(q, stream) && k <= |q| && (k > 0 ==> End(q[k - 1]) <= s'.start)
    requires PartOf(s', stream) && Ordered(v') && AllPartOf(v', stream) && AllAbove(v', End(s'))
    ensures Ordered(q[..k] + [s'] + v') && AllPartOf(q[..k] + [s'] + v', stream)
  {
    hide Ordered, AllPartOf, PartOf, AllBelow, AllAbove;
    var u := q[..k];
    Cut(q, k, stream);
    Single(s', stream);
    BelowMore(u, if k > 0 then End(q[k - 1]) else 0, s'.start);
    Join(u, [s'], s'.start, stream);
    BelowPush(u, s');
    Join(u + [s'], v', End(s'), stream);
  }

  lemma Single(s: Seg, stream: seq<Byte>)
    requires PartOf(s, stream)
    ensures Ordered([s]) && AllPartOf([s], stream) && AllAbove([s], s.start) && AllBelow([s], End(s))
  {
  }

  lemma ThreeEnds(q: seq<Seg>, k: nat, s: Seg, s': Seg, v': seq<Seg>)
    requires k <= |q| && End(s') == End(s) && s'.last == s.last && AllEndLike(v', q[k..])
    ensures AllEndLike(q[..k] + [s'] + v', q + [s])
  {
    hide EndsLike, AllEndLike;
    var all := q + [s];
    EndsSelf(q[..k]);
    EndsWiden(q[..k], q[..k], 0, all);
    EndsWiden(v', q[k..], k, all);
    EndsOne(s', s);
    EndsWiden([s'], [s], |q|, all);
    EndsJoin(q[..k], [s'], all);
    EndsJoin(q[..k] + [s'], v', all);
  }

  lemma {:induction false} TrimFilled(q: seq<Seg>, p: int)
    requires Filled(q)
    ensures Filled(Trim(0, q, p))
  {
    if q != [] && q[0].start < p {
      if p - q[0].start >= |q[0].data| { TrimFilled(q[1..], p); }
    }
  }

  lemma InsertFilled(q: seq<Seg>, s: Seg)
    requires Filled(q) && |s.data| > 0
    ensures Filled(Insert(0, q, s))
  {
    hide Trim;
    var k := Place(q, s.start);
    forall p ensures Filled(Trim(0, q[k..], p)) { TrimFilled(q[k..], p); }
  }

  // ----- a queue without gaps -----

  /** The pieces follow one another from position `p` on. */
  predicate Gapless(q: seq<Seg>, p: int) {
    q == [] || (q[0].start == p && Gapless(q[1..], End(q[0])))
  }

  function Concat(q: seq<Seg>): seq<Byte> {
    if q == [] then [] else q[0].data + Concat(q[1..])
  }

  lemma ConcatNone()
    ensures Concat([]) == []
  {
  }

  /** The pieces are the whole stream, as far as can be told from them. */
  predicate Complete(q: seq<Seg>) {
    q != [] && Gapless(q, 0) && q[|q| - 1].last
  }

  /** Pieces of a stream without gaps are a stretch of it. */
  lemma {:induction false} GaplessIs(q: seq<Seg>, p: int, stream: seq<Byte>)
    requires AllPartOf(q, stream) && Gapless(q, p) && 0 <= p <= |stream|
    ensures p + |Concat(q)| <= |stream| && Concat(q) == stream[p..p + |Concat(q)|]
    ensures q != [] ==> End(q[|q| - 1]) == p + |Concat(q)|
    ensures forall x :: Covers(q, x) <==> p <= x < p + |Concat(q)|
    decreases |q|
  {
    if q != [] {
      var rest := q[1..];
      assert PartOf(q[0], stream);
      GaplessIs(rest, End(q[0]), stream);
      Slices(stream, p, End(q[0]), End(q[0]) + |Concat(rest)|);
      assert q == [q[0]] + rest;
      forall x ensures Covers(q, x) <==> p <= x < p + |Concat(q)| {
        CoversConcat([q[0]], rest, x);
        CoversOne(q[0], x);
      }
    }
  }

  lemma Slices(s: seq<Byte>, a: nat, b: nat, c: nat)
    requires a <= b <= c <= |s|
    ensures s[a..b] + s[b..c] == s[a..c]
  {
  }

  /** A sorted queue that covers everything from `p` on has no gaps. */
  lemma {:induction false} FullIsGapless(q: seq<Seg>, p: int, stream: seq<Byte>)
    requires Ordered(q) && Filled(q) && AllPartOf(q, stream) && AllAbove(q, p) && p <= |stream|
    requires forall x :: p <= x < |stream| ==> Covers(q, x)
    ensures Gapless(q, p) && (p < |stream| ==> q != []) && (q != [] ==> End(q[|q| - 1]) == |stream|)
    decreases |q|
  {
    hide Ordered, AllPartOf, PartOf;
    if p < |stream| {
      assert Covers(q, p);
      FirstAt(q, p, stream);
      var rest := q[1..];
      Cut(q, 1, stream);
      assert q[..1] == [q[0]] && q == [q[0]] + rest;
      forall x | End(q[0]) <= x < |stream| ensures Covers(rest, x) {
        CoversConcat([q[0]], rest, x);
        CoversOne(q[0], x);
      }
      FullIsGapless(rest, End(q[0]), stream);
    } else {
      NoneLeft(q, stream);
    }
  }

  lemma FirstHas(q: seq<Seg>, p: int, i: nat)
    requires Ordered(q) && Filled(q) && AllAbove(q, p) && i < |q| && Has(q[i], p)
    ensures i == 0
  {
    assert |q[0].data| > 0 && p <= q[0].start;
  }

  lemma FirstAt(q: seq<Seg>, p: int, stream: seq<Byte>)
    requires Ordered(q) && Filled(q) && AllPartOf(q, stream) && AllAbove(q, p) && Covers(q, p)
    ensures q != [] && q[0].start == p && p < End(q[0]) <= |stream|
  {
    var i :| 0 <= i < |q| && Has(q[i], p);
    assert PartOf(q[0], stream);
    FirstHas(q, p, i);
  }

  lemma NoneLeft(q: seq<Seg>, stream: seq<Byte>)
    requires Ordered(q) && Filled(q) && AllPartOf(q, stream) && AllAbove(q, |stream|)
    ensures q == []
  {
    assert q != [] ==> PartOf(q[0], stream);
  }

  // ----- any run of arrivals -----

  /** Only a piece that reaches the end of the stream is marked as the last. */
  predicate Honest(s: Seg, stream: seq<Byte>) {
    PartOf(s, stream) && |s.data| > 0 && (s.last <==> End(s) == |stream|)
  }

  predicate AllHonest(q: seq<Seg>, stream: seq<Byte>) {
    forall i :: 0 <= i < |q| ==> Honest(q[i], stream)
  }

  /** The queue after the pieces `fs` have arrived: sorted and disjoint pieces of the stream that
      cover what has arrived. */
  ghost predicate Collected(q: seq<Seg>, fs: seq<Seg>, stream: seq<Byte>) {
    && Ordered(q) && AllHonest(q, stream)
    && forall x :: Covers(q, x) <==> Covers(fs, x)
  }

  ghost predicate CoversAll(q: seq<Seg>, stream: seq<Byte>) {
    forall x :: 0 <= x < |stream| ==> Covers(q, x)
  }

  lemma NothingCollected(stream: seq<Byte>)
    ensures Collected([], [], stream) && (stream != [] ==> !CoversAll([], stream))
  {
    assert !Covers([], 0);
  }

  lemma Marks(q': seq<Seg>, q: seq<Seg>, stream: seq<Byte>)
    requires AllHonest(q, stream) && AllPartOf(q', stream) && Filled(q') && AllEndLike(q', q)
    ensures AllHonest(q', stream)
  {
    forall i | 0 <= i < |q'| ensures Honest(q'[i], stream) {
      assert EndsLike(q'[i], q) && PartOf(q'[i], stream);
      var j :| 0 <= j < |q| && End(q'[i]) == End(q[j]) && q'[i].last == q[j].last;
      assert Honest(q[j], stream);
    }
  }

  lemma HonestParts(q: seq<Seg>, stream: seq<Byte>)
    requires AllHonest(q, stream)
    ensures AllPartOf(q, stream) && Filled(q)
  {
    forall i | 0 <= i < |q| ensures PartOf(q[i], stream) && |q[i].data| > 0 { assert Honest(q[i], stream); }
  }

  lemma HonestPush(q: seq<Seg>, s: Seg, stream: seq<Byte>)
    requires AllHonest(q, stream) && Honest(s, stream)
    ensures AllHonest(q + [s], stream)
  {
  }

  lemma PartsAbove(q: seq<Seg>, stream: seq<Byte>)
    requires AllPartOf(q, stream)
    ensures AllAbove(q, 0)
  {
    forall i | 0 <= i < |q| ensures 0 <= q[i].start { assert PartOf(q[i], stream); }
  }

  /** One more arrival. */
  lemma Collect(q: seq<Seg>, fs: seq<Seg>, s: Seg, stream: seq<Byte>)
    requires Collected(q, fs, stream) && Honest(s, stream)
    ensures Collected(Insert(0, q, s), fs + [s], stream)
  {
    hide Ordered, AllHonest, AllPartOf, AllEndLike, Covers, Insert;
    HonestParts(q, stream);
    InsertCorrect(q, s, stream);
    InsertFilled(q, s);
    HonestPush(q, s, stream);
    Marks(Insert(0, q, s), q + [s], stream);
    forall x ensures Covers(fs + [s], x) <==> Covers(fs, x) || Has(s, x) {
      CoversConcat(fs, [s], x);
      CoversOne(s, x);
    }
  }

  /** A queue of a stream's pieces looks complete exactly when it covers the stream, and then its
      bytes are the stream. */
  lemma CompleteIff(q: seq<Seg>, stream: seq<Byte>)
    requires Ordered(q) && AllHonest(q, stream) && |stream| > 0
    ensures Complete(q) <==> CoversAll(q, stream)
    ensures Complete(q) ==> Concat(q) == stream && End(q[|q| - 1]) == |stream|
  {
    hide Ordered, AllPartOf, Covers;
    HonestParts(q, stream);
    if Complete(q) {
      GaplessIs(q, 0, stream);
      assert Honest(q[|q| - 1], stream);
    }
    if CoversAll(q, stream) {
      PartsAbove(q, stream);
      FullIsGapless(q, 0, stream);
      assert Honest(q[|q| - 1], stream);
    }
  }

  datatype Outcome = Waiting(q: seq<Seg>) | Done(count: nat, data: seq<Byte>)

  /** The pieces `fs` arrive, up to the one that completes the queue. */
  function Feed(w: nat, q: seq<Seg>, fs: seq<Seg>): Outcome
    decreases |fs|
  {
    if fs == [] then Waiting(q)
    else
      var q' := Insert(w, q, fs[0]);
      if Complete(q') then Done(1, Concat(q'))
      else match Feed(w, q', fs[1..])
        case Waiting(q'') => Waiting(q'')
        case Done(n, data) => Done(n + 1, data)
  }

  /** In any order, with any repetitions and overlaps: the queue completes with the arrival that
      finishes the coverage of the stream, no sooner and no later, and then it is the stream. */
  lemma {:induction false} FeedCorrect(before: seq<Seg>, q: seq<Seg>, fs: seq<Seg>, stream: seq<Byte>)
    requires Collected(q, before, stream) && AllHonest(fs, stream) && |stream| > 0 && !CoversAll(before, stream)
    ensures match Feed(0, q, fs)
      case Waiting(q') => Collected(q', before + fs, stream) && !CoversAll(before + fs, stream)
      case Done(n, data) =>
        && 0 < n <= |fs| && data == stream
        && CoversAll(before + fs[..n], stream) && !CoversAll(before + fs[..n - 1], stream)
    decreases |fs|
  {
    hide Collected, CoversAll, Complete, Insert, Honest, Concat;
    if fs == [] {
      assert before + fs == before;
    } else {
      assert Honest(fs[0], stream);
      Collect(q, before, fs[0], stream);
      var q' := Insert(0, q, fs[0]);
      var seen := before + [fs[0]];
      assert fs[..1] == [fs[0]] && fs[..0] == [] && before + [] == before;
      SameCoverage(q', seen, stream);
      if !Complete(q') {
        FeedCorrect(seen, q', fs[1..], stream);
        assert before + fs == seen + fs[1..];
        forall n: nat | 0 < n <= |fs| ensures before + fs[..n] == seen + fs[1..][..n - 1] {}
      }
    }
  }

  lemma SameCoverage(q: seq<Seg>, fs: seq<Seg>, stream: seq<Byte>)
    requires Collected(q, fs, stream) && |stream| > 0
    ensures Complete(q) <==> CoversAll(fs, stream)
    ensures Complete(q) ==> Concat(q) == stream
  {
    hide Complete, Ordered, AllHonest, Covers;
    CompleteIff(q, stream);
  }

  // ----- fields of bounded size -----

  lemma WrapFits(w: nat, x: int)
    requires 0 <= x < w
    ensures Wrap(w, x) == x == Wrap(0, x)
  {
    SmallMod(x + w, 2 * w);
  }

  lemma SmallMod(a: nat, b: nat)
    requires a < b
    ensures a % b == a
  {
  }

  /** Nothing wraps around as long as the stream fits. */
  lemma DropFits(w: nat, s: Seg, i: nat, stream: seq<Byte>)
    requires PartOf(s, stream) && |stream| <= w && i < |s.data|
    ensures Drop(w, s, i) == Drop(0, s, i)
  {
    hide Wrap;
    WrapFits(w, s.start + i);
  }

  lemma {:induction false} TrimFits(w: nat, q: seq<Seg>, p: int, stream: seq<Byte>)
    requires AllPartOf(q, stream) && |stream| <= w
    ensures Trim(w, q, p) == Trim(0, q, p)
    decreases |q|
  {
    hide Drop, PartOf;
    if q != [] {
      assert PartOf(q[0], stream);
      if q[0].start < p < End(q[0]) { DropFits(w, q[0], p - q[0].start, stream); }
      TrimFits(w, q[1..], p, stream);
    }
  }

  lemma InsertFits(w: nat, q: seq<Seg>, s: Seg, stream: seq<Byte>)
    requires AllPartOf(q, stream) && PartOf(s, stream) && |stream| <= w
    ensures Insert(w, q, s) == Insert(0, q, s)
  {
    hide Drop, PartOf;
    var k := Place(q, s.start);
    forall p ensures Trim(w, q[k..], p) == Trim(0, q[k..], p) { TrimFits(w, q[k..], p, stream); }
    var i := if k > 0 then End(q[k - 1]) - s.start else 0;
    if 0 < i < |s.data| { DropFits(w, s, i, stream); }
  }

  lemma {:induction false} FeedFits(w: nat, before: seq<Seg>, q: seq<Seg>, fs: seq<Seg>, stream: seq<Byte>)
    requires Collected(q, before, stream) && AllHonest(fs, stream) && |stream| <= w
    ensures Feed(w, q, fs) == Feed(0, q, fs)
    decreases |fs|
  {
    hide Complete, Insert, Covers, Concat, Ordered;
    if fs != [] {
      assert Honest(fs[0], stream);
      HonestParts(q, stream);
      InsertFits(w, q, fs[0], stream);
      Collect(q, before, fs[0], stream);
      FeedFits(w, before + [fs[0]], Insert(0, q, fs[0]), fs[1..], stream);
    }
  }
}
