/** Whole runs of the reassembly of datagrams. */
module IpRun {
  import opened Segments
  import opened IpReassembly
  import Mbufs

  /** A fragment of some datagram arrives; its offset is kept in a 16-bit field. */
  datatype Arrival = Arrival(key: Key, piece: Seg)

  type Queues = map<Key, seq<Seg>>

  function At(qs: Queues, key: Key): seq<Seg> {
    if key in qs then qs[key] else []
  }

  datatype Delivery = Delivery(key: Key, data: seq<Byte>)

  /** A datagram that was not fragmented. */
  predicate Whole(s: Seg) {
    s.start == 0 && s.last
  }

  /** The datagrams that a run of arrivals delivers. One that was not fragmented ends the reassembly of
      one like it. */
  function Run(qs: Queues, arrivals: seq<Arrival>): seq<Delivery>
    decreases |arrivals|
  {
    if arrivals == [] then []
    else
      var (key, s) := (arrivals[0].key, arrivals[0].piece);
      if Whole(s) then [Delivery(key, s.data)] + Run(qs - {key}, arrivals[1..])
      else
        var q := Insert(HALF, At(qs, key), s);
        if Complete(q) then [Delivery(key, Concat(q))] + Run(qs - {key}, arrivals[1..])
        else Run(qs[key := q], arrivals[1..])
  }

  /** The arrivals for one datagram only. */
  function Only(key: Key, arrivals: seq<Arrival>): seq<Arrival> {
    if arrivals == [] then []
    else (if arrivals[0].key == key then [arrivals[0]] else []) + Only(key, arrivals[1..])
  }

  function DeliveredTo(key: Key, ds: seq<Delivery>): seq<Delivery> {
    if ds == [] then [] else (if ds[0].key == key then [ds[0]] else []) + DeliveredTo(key, ds[1..])
  }

  /** What is delivered for one datagram does not depend on the fragments of any other that arrive
      in between. */
  lemma {:induction false} Separate(key: Key, qs: Queues, qs': Queues, arrivals: seq<Arrival>)
    requires At(qs, key) == At(qs', key)
    ensures DeliveredTo(key, Run(qs, arrivals)) == Run(qs', Only(key, arrivals))
    decreases |arrivals|
  {
    hide Insert, Complete, Concat, Run;
    if arrivals == [] {
      RunNone(qs);
      RunNone(qs');
    } else {
      var a, rest := arrivals[0], arrivals[1..];
      assert arrivals == [a] + rest;
      RunOne(qs, a, rest);
      var (ds, next) := Turn(qs, a);
      if a.key == key {
        RunOne(qs', a, Only(key, rest));
        var (ds', next') := Turn(qs', a);
        Separate(key, next, next', rest);
        Sorted(key, ds, Run(next, rest));
      } else {
        Separate(key, next, qs', rest);
        Sorted(key, ds, Run(next, rest));
        assert [] + Only(key, rest) == Only(key, rest);
      }
    }
  }

  /** One arrival: what it delivers, and the queues behind it. */
  function Turn(qs: Queues, a: Arrival): (seq<Delivery>, Queues) {
    var q := Insert(HALF, At(qs, a.key), a.piece);
    if Whole(a.piece) then ([Delivery(a.key, a.piece.data)], qs - {a.key})
    else if Complete(q) then ([Delivery(a.key, Concat(q))], qs - {a.key})
    else ([], qs[a.key := q])
  }

  lemma RunOne(qs: Queues, a: Arrival, rest: seq<Arrival>)
    ensures Run(qs, [a] + rest) == Turn(qs, a).0 + Run(Turn(qs, a).1, rest)
  {
    hide Insert, Complete, Concat, At;
    assert ([a] + rest)[1..] == rest;
    assert [] + Run(Turn(qs, a).1, rest) == Run(Turn(qs, a).1, rest);
  }

  lemma RunNone(qs: Queues)
    ensures Run(qs, []) == []
  {
  }

  lemma Sorted(key: Key, ds: seq<Delivery>, rest: seq<Delivery>)
    requires |ds| <= 1
    ensures DeliveredTo(key, ds + rest) == (if ds != [] && ds[0].key == key then ds else []) + DeliveredTo(key, rest)
  {
    if ds == [] { assert ds + rest == rest; } else { assert (ds + rest)[1..] == rest; }
  }

  function PiecesOf(arrivals: seq<Arrival>): seq<Seg> {
    seq(|arrivals|, i requires 0 <= i < |arrivals| => arrivals[i].piece)
  }

  /** In any order, with any repetitions and overlaps: once the pieces of a datagram cover it, the first
      that is delivered under its key is the datagram. */
  lemma {:induction false} RunDelivers(key: Key, qs: Queues, before: seq<Seg>, arrivals: seq<Arrival>,
        stream: seq<Byte>)
    requires Collected(At(qs, key), before, stream) && !CoversAll(before, stream) && 0 < |stream| < HALF
    requires forall i :: 0 <= i < |arrivals| ==> arrivals[i].key == key && Honest(arrivals[i].piece, stream)
    requires CoversAll(before + PiecesOf(arrivals), stream)
    ensures Run(qs, arrivals) != [] && Run(qs, arrivals)[0] == Delivery(key, stream)
    decreases |arrivals|
  {
    hide Insert, Complete, Concat, Run, CoversAll, Honest, Collected;
    NoneMore(before);
    if arrivals != [] {
      var a, rest := arrivals[0], arrivals[1..];
      assert arrivals == [a] + rest;
      RunOne(qs, a, rest);
      TurnDelivers(key, qs, before, a, stream);
      if Turn(qs, a).0 == [] {
        assert before + PiecesOf(arrivals) == (before + [a.piece]) + PiecesOf(rest);
        RunDelivers(key, Turn(qs, a).1, before + [a.piece], rest, stream);
        assert [] + Run(Turn(qs, a).1, rest) == Run(Turn(qs, a).1, rest);
      }
    }
  }

  lemma NoneMore(before: seq<Seg>)
    ensures before + PiecesOf([]) == before
  {
  }

  lemma TurnDelivers(key: Key, qs: Queues, before: seq<Seg>, a: Arrival, stream: seq<Byte>)
    requires Collected(At(qs, key), before, stream) && 0 < |stream| < HALF && a.key == key && Honest(a.piece, stream)
    ensures var (ds, next) := Turn(qs, a);
      if ds == [] then Collected(At(next, key), before + [a.piece], stream) && !CoversAll(before + [a.piece], stream)
      else ds == [Delivery(key, stream)]
  {
    var q, s := At(qs, key), a.piece;
    if Whole(s) {
      assert s.data == stream[0..|stream|] == stream;
    } else {
      HonestParts(q, stream);
      InsertFits(HALF, q, s, stream);
      Collect(q, before, s, stream);
      CompleteIff(Insert(0, q, s), stream);
      hide Insert, Complete, Concat, Honest, Ordered, AllHonest;
      assert CoversAll(Insert(0, q, s), stream) <==> CoversAll(before + [s], stream);
    }
  }

  /** A piece as it arrives: its offset goes through a 16-bit field. */
  function Arriving(s: Seg): Seg {
    s.(start := Short(s.start))
  }

  /** Pieces that cover a datagram bring it about, with its length, exactly when it is short enough
      for the length to fit its field. */
  lemma LengthFits(fs: seq<Seg>, stream: seq<Byte>)
    requires AllHonest(fs, stream) && CoversAll(fs, stream) && |stream| > 0
    ensures var r := Feed(HALF, [], seq(|fs|, i requires 0 <= i < |fs| => Arriving(fs[i])));
      (r.Done? && r.data == stream && Short(|r.data|) == |stream|) <==> |stream| < HALF
  {
    hide Covers, Honest, Insert, Complete, Feed, CoversAll, Collected;
    var gs := seq(|fs|, i requires 0 <= i < |fs| => Arriving(fs[i]));
    if |stream| < HALF {
      forall i | 0 <= i < |fs| ensures gs[i] == fs[i] {
        assert Honest(fs[i], stream);
        StartFits(fs[i], stream);
      }
      assert gs == fs;
      NothingCollected(stream);
      FeedFits(HALF, [], [], fs, stream);
      FeedCorrect([], [], fs, stream);
      assert [] + fs == fs;
      WrapFits(HALF, |stream|);
    }
  }

  lemma StartFits(s: Seg, stream: seq<Byte>)
    requires Honest(s, stream) && |stream| < HALF
    ensures Short(s.start) == s.start
  {
    WrapFits(HALF, s.start);
  }

  /** The queues of the input routine. */
  function Abstract(ipq: map<Key, seq<Frag>>): Queues
    requires ValidQueues(ipq)
  {
    map k | k in ipq :: Pieces(ipq[k])
  }

  lemma AbstractAt(ipq: map<Key, seq<Frag>>, key: Key)
    requires ValidQueues(ipq)
    ensures ValidFrags(QueueOf(ipq, key)) && At(Abstract(ipq), key) == Pieces(QueueOf(ipq, key))
    ensures QueueOf(ipq, key) == if key in ipq then ipq[key] else []
    ensures Pieces([]) == []
  {
  }

  lemma InsertSome(w: nat, q: seq<Seg>, s: Seg)
    ensures Insert(w, q, s) != []
  {
    hide Trim;
  }

  /** Each packet that the input routine takes is one step of a run. */
  lemma TookRuns(ipq: map<Key, seq<Frag>>, key: Key, s: Seg, ipq': map<Key, seq<Frag>>, r: Result)
    requires ValidQueues(ipq) && ValidQueues(ipq') && Took(ipq, key, s, ipq', r)
    ensures r.Datagram? ==> Mbufs.AllValid(r.m)
    ensures Turn(Abstract(ipq), Arrival(key, s)) ==
            (if r.Datagram? then [Delivery(key, Mbufs.Bytes(r.m))] else [], Abstract(ipq'))
  {
    hide Insert, Complete, Pieces, Mbufs.Bytes, Concat;
    var q := Insert(HALF, Pieces(QueueOf(ipq, key)), s);
    AbstractAt(ipq, key);
    hide QueueOf, At;
    if Whole(s) || Complete(q) {
      assert Abstract(ipq') == Abstract(ipq) - {key};
    } else {
      InsertSome(HALF, Pieces(QueueOf(ipq, key)), s);
      AbstractAt(ipq', key);
      assert key in ipq';
      forall k | k != key ensures (k in ipq <==> k in ipq') && (k in ipq ==> ipq'[k] == ipq[k]) {
        assert (k in ipq' - {key}) == (k in ipq - {key});
        assert k in ipq ==> (ipq' - {key})[k] == (ipq - {key})[k];
      }
      assert Abstract(ipq') == Abstract(ipq)[key := q];
    }
  }

  /** Two fragments of half of 32768 bytes each: the datagram does not come about as it was sent. */
  lemma LongDatagramFails()
    ensures var stream: seq<Byte> := seq(HALF, _ => 0); var h := HALF / 2;
      var fs := [Seg(0, stream[..h], false), Seg(h, stream[h..], true)];
      && AllHonest(fs, stream) && CoversAll(fs, stream)
      && var r := Feed(HALF, [], seq(|fs|, i requires 0 <= i < |fs| => Arriving(fs[i])));
        !(r.Done? && r.data == stream && Short(|r.data|) == |stream|)
  {
    var stream: seq<Byte> := seq(HALF, _ => 0);
    var h := HALF / 2;
    var fs := [Seg(0, stream[..h], false), Seg(h, stream[h..], true)];
    forall i | 0 <= i < 2 ensures Honest(fs[i], stream) {}
    forall x | 0 <= x < HALF ensures Covers(fs, x) {
      assert Has(fs[if x < h then 0 else 1], x);
    }
    hide Honest, Covers, Feed;
    LengthFits(fs, stream);
  }
}
