/** The turns that the channels of a multiplexed terminal line take at its output. */
module SxtTurns {
  /** As many buffers as a channel sends in a turn while another one has output. */
  const SXTHOG := 2

  /** A character block, or 0. */
  type Block = nat

  /** The channels' output queues, the channels with the bit for pending output, the channel that wrote
      last, or -1, and how many buffers it has written, the block that the line is sending, or 0, and
      the blocks given back. */
  datatype Mux = Mux(queues: seq<seq<Block>>, pending: set<nat>, last: int, count: nat, line: Block, freed: seq<Block>)

  ghost predicate Inv(s: Mux) {
    && 0 < |s.queues| && -1 <= s.last < |s.queues|
    && (forall k :: k in s.pending ==> k < |s.queues|)
    && (forall k :: 0 <= k < |s.queues| && s.queues[k] != [] ==> k in s.pending)
    && (s.last != -1 ==> 1 <= s.count <= SXTHOG)
    && (s.last == -1 ==> s.line == 0)
    && forall k, i :: 0 <= k < |s.queues| && 0 <= i < |s.queues[k]| ==> s.queues[k][i] != 0
  }

  datatype Result = Sent(chan: nat, block: Block) | Lied(chan: nat) | Idle

  datatype Event = Write(chan: nat, blocks: seq<Block>) | Output

  // ----- one step -----

  /** The channel after `at`. */
  function Step(n: nat, at: int): int {
    if at + 1 < n then at + 1 else 0
  }

  /** The first channel after `at` that is in `pending`, of `k` many, or -1. */
  function Find(pending: set<nat>, n: nat, at: int, k: nat): (d: int)
    requires 0 < n && -1 <= at < n
    ensures -1 <= d < n && (d != -1 ==> d in pending)
    decreases k
  {
    if k == 0 then -1
    else if Step(n, at) in pending then Step(n, at)
    else Find(pending, n, Step(n, at), k - 1)
  }

  /** The channels that come after `at` and before `c`. */
  function Ahead(n: nat, at: int, c: int): int {
    if at < c then c - at - 1 else c + n - at - 1
  }

  /** The next turn is that of the nearest channel with pending output. */
  lemma {:induction false} FindNearest(pending: set<nat>, n: nat, at: int, k: nat, c: nat)
    requires 0 < n && -1 <= at < n && c < n && c in pending && Ahead(n, at, c) < k
    ensures var d := Find(pending, n, at, k);
      && 0 <= d < n && d in pending && Ahead(n, at, d) <= Ahead(n, at, c)
      && (d != c && at != c ==> Ahead(n, d, c) < Ahead(n, at, c))
    decreases k
  {
    var a := Step(n, at);
    if a !in pending {
      FindNearest(pending, n, a, k - 1, c);
    }
  }

  /** The channel that wrote last goes on: it has not had its turn, or there is no other. */
  predicate GoesOn(s: Mux) {
    s.last != -1 && !(s.count >= SXTHOG && s.pending != {s.last})
  }

  function Freed(s: Mux): seq<Block> {
    if s.line == 0 then s.freed else s.freed + [s.line]
  }

  function Send(s: Mux, chan: nat, count: nat): (Mux, Result)
    requires chan < |s.queues| && s.queues[chan] != []
  {
    var block := s.queues[chan][0];
    (s.(queues := s.queues[chan := s.queues[chan][1..]], last := chan, count := count, line := block,
      freed := Freed(s)),
     Sent(chan, block))
  }

  /** Some other channel's turn. */
  function Others(s: Mux): (Mux, Result)
    requires 0 < |s.queues| && -1 <= s.last < |s.queues|
  {
    var at := Find(s.pending, |s.queues|, s.last, |s.queues|);
    if s.pending == {} || at == -1 then (s.(last := -1, line := 0, freed := Freed(s)), Idle)
    else if s.queues[at] != [] then Send(s, at, 1)
    else (s.(pending := s.pending - {at}, last := -1, line := 0, freed := Freed(s)), Lied(at))
  }

  /** `sxtout`: the next buffer for the line. */
  function Out(s: Mux): (Mux, Result)
    requires 0 < |s.queues| && -1 <= s.last < |s.queues|
  {
    if GoesOn(s) then
      if s.queues[s.last] != [] then Send(s, s.last, if s.count >= SXTHOG then 1 else s.count + 1)
      else Others(s.(pending := s.pending - {s.last}))
    else Others(s)
  }

  /** Output for a channel. */
  function Put(s: Mux, chan: nat, blocks: seq<Block>): Mux
    requires chan < |s.queues|
  {
    s.(queues := s.queues[chan := s.queues[chan] + blocks], pending := s.pending + {chan})
  }

  lemma PutInv(s: Mux, chan: nat, blocks: seq<Block>)
    requires Inv(s) && chan < |s.queues| && 0 !in blocks
    ensures Inv(Put(s, chan, blocks))
  {
    var t := Put(s, chan, blocks);
    forall i | 0 <= i < |t.queues[chan]| ensures t.queues[chan][i] != 0 {
      if i >= |s.queues[chan]| { assert t.queues[chan][i] in blocks; }
    }
  }

  lemma SendInv(s: Mux, chan: nat, count: nat)
    requires Inv(s) && chan < |s.queues| && s.queues[chan] != [] && 1 <= count <= SXTHOG
    ensures Inv(Send(s, chan, count).0) && Send(s, chan, count).0.line != 0
  {
  }

  /** What is in a queue has its bit, whatever the output does. */
  lemma OutInv(s: Mux)
    requires Inv(s)
    ensures Inv(Out(s).0)
  {
    if GoesOn(s) {
      if s.queues[s.last] != [] {
        SendInv(s, s.last, if s.count >= SXTHOG then 1 else s.count + 1);
      } else {
        OthersInv(s.(pending := s.pending - {s.last}));
      }
    } else {
      OthersInv(s);
    }
  }

  lemma OthersInv(s: Mux)
    requires Inv(s)
    ensures Inv(Others(s).0)
  {
    var at := Find(s.pending, |s.queues|, s.last, |s.queues|);
    if 0 <= at < |s.queues| && s.queues[at] != [] {
      SendInv(s, at, 1);
    }
  }

  // ----- fairness -----

  /** As many buffers of others as may still be sent before channel `c` has its turn. */
  function Wait(s: Mux, c: nat): int {
    var n := |s.queues|;
    if s.last == c then if s.count < SXTHOG then 0 else SXTHOG * (n - 1)
    else if s.last == -1 then SXTHOG * c
    else SXTHOG - s.count + SXTHOG * Ahead(n, s.last, c)
  }

  lemma WaitBound(s: Mux, c: nat)
    requires Inv(s) && c < |s.queues|
    ensures 0 <= Wait(s, c) <= SXTHOG * (|s.queues| - 1)
  {
  }

  /** Channel `c` has output. */
  predicate Ready(s: Mux, c: nat) {
    c < |s.queues| && s.queues[c] != []
  }

  /** While `c` has output, every call sends a buffer of `c`, or another's, and then the wait of `c` is
      shorter, or finds a channel with a bit and no output, and then all begins again at channel 0. */
  lemma OutWaits(s: Mux, c: nat)
    requires Inv(s) && Ready(s, c)
    ensures var (t, r) := Out(s);
      && r != Idle
      && (r.Sent? && r.chan != c ==> Wait(t, c) < Wait(s, c))
      && (r.Lied? ==> r.chan != c && Wait(t, c) == SXTHOG * c)
      && (!(r.Sent? && r.chan == c) ==> Ready(t, c))
  {
    if GoesOn(s) {
      if s.queues[s.last] == [] { OthersWait(s.(pending := s.pending - {s.last}), c); }
    } else {
      OthersWait(s, c);
    }
  }

  lemma OthersWait(s: Mux, c: nat)
    requires Inv(s) && Ready(s, c) && (s.last == c ==> s.count == SXTHOG && exists d :: d in s.pending && d != c)
    ensures var (t, r) := Others(s);
      && r != Idle
      && (r.Sent? && r.chan != c ==> Wait(t, c) < Wait(s, c))
      && (r.Lied? ==> r.chan != c && Wait(t, c) == SXTHOG * c)
      && (!(r.Sent? && r.chan == c) ==> Ready(t, c))
  {
    var n := |s.queues|;
    FindNearest(s.pending, n, s.last, n, c);
  }

  // ----- channels with a bit and no output -----

  function Pow(i: nat): (r: nat)
    ensures r >= 1
  {
    if i == 0 then 1 else 2 * Pow(i - 1)
  }

  predicate Stale(s: Mux, i: nat)
  {
    i < |s.queues| && i in s.pending && s.queues[i] == []
  }

  /** The stale channels from `lo` to `c`, each with twice the weight of the one before. */
  function Weight(s: Mux, lo: nat, c: nat): nat
    decreases c - lo
  {
    if lo >= c then 0 else (if Stale(s, lo) then Pow(lo) else 0) + Weight(s, lo + 1, c)
  }

  lemma {:induction false} WeightBound(s: Mux, lo: nat, c: nat)
    requires lo <= c
    ensures Weight(s, lo, c) <= Pow(c) - Pow(lo)
    decreases c - lo
  {
    if lo < c { WeightBound(s, lo + 1, c); }
  }

  lemma {:induction false} WeightLess(s: Mux, t: Mux, lo: nat, c: nat)
    requires forall i: nat :: lo <= i < c && Stale(t, i) ==> Stale(s, i)
    ensures Weight(t, lo, c) <= Weight(s, lo, c)
    decreases c - lo
  {
    if lo < c { WeightLess(s, t, lo + 1, c); }
  }

  lemma {:induction false} WeightSplit(s: Mux, lo: nat, mid: nat, c: nat)
    requires lo <= mid <= c
    ensures Weight(s, lo, c) == Weight(s, lo, mid) + Weight(s, mid, c)
    decreases mid - lo
  {
    if lo < mid { WeightSplit(s, lo + 1, mid, c); }
  }

  /** As many stale channels as may still be found before channel `c` has its turn. */
  function Lies(s: Mux, c: nat): nat
    requires -1 <= s.last
  {
    if s.last < c then Weight(s, s.last + 1, c) else Pow(c)
  }

  lemma LiesBound(s: Mux, c: nat)
    requires -1 <= s.last
    ensures Lies(s, c) <= Pow(c)
  {
    if s.last < c { WeightBound(s, s.last + 1, c); }
  }

  /** A stale channel is found: fewer of them are left. */
  lemma OutLies(s: Mux, c: nat)
    requires Inv(s) && Ready(s, c)
    ensures var (t, r) := Out(s);
      && (r.Sent? && r.chan != c ==> Lies(t, c) <= Lies(s, c))
      && (r.Lied? ==> Lies(t, c) < Lies(s, c))
  {
    if GoesOn(s) {
      if s.queues[s.last] == [] {
        var s' := s.(pending := s.pending - {s.last});
        OthersLie(s', c);
        if s.last < c { WeightLess(s, s', s.last + 1, c); }
      } else if s.last < c {
        WeightLess(s, Out(s).0, s.last + 1, c);
      }
    } else {
      OthersLie(s, c);
    }
  }

  lemma OthersLie(s: Mux, c: nat)
    requires Inv(s) && Ready(s, c) && (s.last == c ==> exists d :: d in s.pending && d != c)
    ensures var (t, r) := Others(s);
      && (r.Sent? && r.chan != c ==> Lies(t, c) <= Lies(s, c))
      && (r.Lied? ==> Lies(t, c) < Lies(s, c))
  {
    var n := |s.queues|;
    var d, t := Find(s.pending, n, s.last, n), Others(s).0;
    FindNearest(s.pending, n, s.last, n, c);
    if s.queues[d] == [] {
      WeightBound(t, 0, c);
      if s.last < c {
        LieWeighs(s, t, s.last + 1, d, c);
      }
    } else if d < c {
      WeightBound(t, d + 1, c);
      if s.last < c {
        WeightLess(s, t, d + 1, c);
        WeightSplit(s, s.last + 1, d + 1, c);
      }
    }
  }

  /** However many of the channels before it have become stale, one stale channel weighs more. */
  lemma LieWeighs(s: Mux, t: Mux, lo: nat, d: nat, c: nat)
    requires lo <= d < c && Stale(s, d) && !Stale(t, d)
    requires forall i: nat :: Stale(t, i) ==> Stale(s, i)
    ensures Weight(t, 0, c) < Weight(s, lo, c)
  {
    WeightBound(t, 0, d);
    WeightSplit(t, 0, d, c);
    WeightSplit(s, lo, d, c);
    WeightLess(s, t, d + 1, c);
  }

  /** Output that comes, and not for nothing, makes no channel stale; nor does a write of nothing make one
      stale before `c` when it is for `c` or a channel behind it. */
  lemma PutLies(s: Mux, chan: nat, blocks: seq<Block>, c: nat)
    requires Inv(s) && chan < |s.queues| && (blocks != [] || chan >= c)
    ensures Lies(Put(s, chan, blocks), c) <= Lies(s, c)
  {
    if s.last < c {
      WeightLess(s, Put(s, chan, blocks), s.last + 1, c);
    }
  }

  // ----- runs -----

  predicate Fits(n: nat, e: Event) {
    e.Write? ==> e.chan < n && 0 !in e.blocks
  }

  predicate AllFit(n: nat, events: seq<Event>) {
    forall e :: e in events ==> Fits(n, e)
  }

  /** Every write to a channel before `c` comes with output. */
  predicate Fed(events: seq<Event>, c: nat) {
    forall e :: e in events && e.Write? ==> e.blocks != [] || e.chan >= c
  }

  function Next(s: Mux, e: Event): (Mux, seq<Result>)
    requires 0 < |s.queues| && -1 <= s.last < |s.queues| && Fits(|s.queues|, e)
  {
    match e
    case Write(chan, blocks) => (Put(s, chan, blocks), [])
    case Output => var (t, r) := Out(s); (t, [r])
  }

  lemma NextInv(s: Mux, e: Event)
    requires Inv(s) && Fits(|s.queues|, e)
    ensures Inv(Next(s, e).0) && |Next(s, e).0.queues| == |s.queues|
  {
    match e
    case Write(chan, blocks) => PutInv(s, chan, blocks);
    case Output => OutInv(s);
  }

  ghost function Run(s: Mux, events: seq<Event>): (r: (Mux, seq<Result>))
    requires Inv(s) && AllFit(|s.queues|, events)
    ensures Inv(r.0) && |r.0.queues| == |s.queues|
    decreases |events|
  {
    if events == [] then (s, [])
    else
      NextInv(s, events[0]);
      var (t, first) := Next(s, events[0]);
      var (u, rest) := Run(t, events[1..]);
      (u, first + rest)
  }

  /** The buffers of channel `c` among what the line was given. */
  function Of(results: seq<Result>, c: nat): seq<Block> {
    if results == [] then []
    else (if results[0].Sent? && results[0].chan == c then [results[0].block] else []) + Of(results[1..], c)
  }

  function AllSent(results: seq<Result>): seq<Block> {
    if results == [] then []
    else (if results[0].Sent? then [results[0].block] else []) + AllSent(results[1..])
  }

  function Written(events: seq<Event>, c: nat): seq<Block> {
    if events == [] then []
    else (if events[0].Write? && events[0].chan == c then events[0].blocks else []) + Written(events[1..], c)
  }

  function Liars(results: seq<Result>): nat {
    if results == [] then 0 else (if results[0].Lied? then 1 else 0) + Liars(results[1..])
  }

  /** A run is its first step and the rest. */
  lemma RunUnfold(s: Mux, events: seq<Event>)
    requires Inv(s) && AllFit(|s.queues|, events) && events != []
    ensures var (t, first) := Next(s, events[0]);
      && Inv(t) && |t.queues| == |s.queues| && AllFit(|t.queues|, events[1..]) && Fits(|s.queues|, events[0])
      && Run(s, events) == (Run(t, events[1..]).0, first + Run(t, events[1..]).1)
  {
    NextInv(s, events[0]);
    assert events[0] in events;
    assert forall e :: e in events[1..] ==> e in events;
    hide Inv, Next, Fits;
  }

  /** Nothing is sent out of turn within a channel, twice, or not at all: what the line was given of a
      channel's output, and then what is queued, are what was queued and then written. */
  lemma {:induction false} RunKeepsOutput(s: Mux, events: seq<Event>, c: nat)
    requires Inv(s) && AllFit(|s.queues|, events) && c < |s.queues|
    ensures Of(Run(s, events).1, c) + Run(s, events).0.queues[c] == s.queues[c] + Written(events, c)
    decreases |events|
  {
    if events != [] {
      RunUnfold(s, events);
      NextKeepsOutput(s, events[0], c);
      hide Run, Next, Inv, AllFit, Fits, Of;
      var (t, first) := Next(s, events[0]);
      var (u, rest) := Run(t, events[1..]);
      RunKeepsOutput(t, events[1..], c);
      Prefixed(first, rest, c);
      var w := if events[0].Write? && events[0].chan == c then events[0].blocks else [];
      assert Written(events, c) == w + Written(events[1..], c);
      hide *;
      Regroup(Of(first, c), Of(rest, c), u.queues[c], t.queues[c], s.queues[c], w, Written(events[1..], c));
    }
  }

  lemma NextKeepsOutput(s: Mux, e: Event, c: nat)
    requires Inv(s) && Fits(|s.queues|, e) && c < |s.queues|
    ensures |Next(s, e).1| <= 1
    ensures Of(Next(s, e).1, c) + Next(s, e).0.queues[c] ==
            s.queues[c] + if e.Write? && e.chan == c then e.blocks else []
  {
  }

  lemma Prefixed(first: seq<Result>, rest: seq<Result>, c: nat)
    requires |first| <= 1
    ensures Of(first + rest, c) == Of(first, c) + Of(rest, c)
    ensures AllSent(first + rest) == AllSent(first) + AllSent(rest) && Liars(first + rest) == Liars(first) + Liars(rest)
  {
    if first == [] {
      assert first + rest == rest;
    } else {
      var x := first[0];
      assert first == [x];
      PrefixedOne(x, rest, c);
      PrefixedOne(x, [], c);
      assert [x] + [] == [x];
      hide *;
    }
  }

  lemma PrefixedOne(x: Result, rest: seq<Result>, c: nat)
    ensures Of([x] + rest, c) == (if x.Sent? && x.chan == c then [x.block] else []) + Of(rest, c)
    ensures AllSent([x] + rest) == (if x.Sent? then [x.block] else []) + AllSent(rest)
    ensures Liars([x] + rest) == (if x.Lied? then 1 else 0) + Liars(rest)
    ensures Of([], c) == [] && AllSent([]) == [] && Liars([]) == 0
  {
    assert ([x] + rest)[1..] == rest;
  }

  lemma Regroup(a: seq<Block>, b: seq<Block>, u: seq<Block>, t: seq<Block>, s: seq<Block>, w: seq<Block>, x: seq<Block>)
    requires a + t == s + w && b + u == t + x
    ensures (a + b) + u == s + (w + x)
  {
    assert (a + b) + u == a + (b + u);
    assert a + (t + x) == (a + t) + x;
    assert (s + w) + x == s + (w + x);
  }

  /** Every block that the line was given is given back, once and in order, when the next is asked for. */
  lemma {:induction false} RunFrees(s: Mux, events: seq<Event>)
    requires Inv(s) && AllFit(|s.queues|, events)
    ensures Freed(Run(s, events).0) == Freed(s) + AllSent(Run(s, events).1)
    decreases |events|
  {
    if events != [] {
      RunUnfold(s, events);
      NextFrees(s, events[0]);
      hide *;
      var (t, first) := Next(s, events[0]);
      var (u, rest) := Run(t, events[1..]);
      RunFrees(t, events[1..]);
      Prefixed(first, rest, 0);
    }
  }

  lemma NextFrees(s: Mux, e: Event)
    requires Inv(s) && Fits(|s.queues|, e)
    ensures |Next(s, e).1| <= 1 && Freed(Next(s, e).0) == Freed(s) + AllSent(Next(s, e).1)
  {
  }

  /** Until channel `c`, which has output, has its turn, others have sent at most its wait, and
      `SXTHOG * c` more for every stale channel found. If every write to a channel before `c` comes with
      output, there are at most so many of these as weigh on `c`. */
  lemma {:induction false} RunFair(s: Mux, events: seq<Event>, c: nat)
    requires Inv(s) && AllFit(|s.queues|, events) && Ready(s, c) && Of(Run(s, events).1, c) == []
    ensures var results := Run(s, events).1;
      && Idle !in results
      && |AllSent(results)| <= Wait(s, c) + SXTHOG * c * Liars(results)
      && (Fed(events, c) ==> Liars(results) <= Lies(s, c))
    decreases |events|
  {
    if events == [] {
      WaitBound(s, c);
    } else {
      RunUnfold(s, events);
      if Fed(events, c) { FedRest(events, c); }
      NextFrees(s, events[0]);
      hide *;
      var (t, first) := Next(s, events[0]);
      var (u, rest) := Run(t, events[1..]);
      Prefixed(first, rest, c);
      NextFair(s, events[0], c);
      RunFair(t, events[1..], c);
      Joined(first, rest, Wait(s, c), Wait(t, c), c);
    }
  }

  lemma Joined(first: seq<Result>, rest: seq<Result>, ws: int, wt: int, c: nat)
    requires |first| <= 1
    requires |AllSent(first)| + wt <= ws + SXTHOG * c * Liars(first) && |AllSent(rest)| <= wt + SXTHOG * c * Liars(rest)
    ensures |AllSent(first + rest)| <= ws + SXTHOG * c * Liars(first + rest)
  {
    hide *;
    Prefixed(first, rest, c);
    Tally(c, Liars(first), Liars(rest));
  }

  lemma FedRest(events: seq<Event>, c: nat)
    requires events != [] && Fed(events, c)
    ensures Fed(events[1..], c) && (events[0].Write? ==> events[0].blocks != [] || events[0].chan >= c)
  {
    assert events[0] in events;
    assert forall e :: e in events[1..] ==> e in events;
  }

  lemma Tally(c: nat, a: nat, b: nat)
    ensures SXTHOG * c * (a + b) == SXTHOG * c * a + SXTHOG * c * b
  {
  }

  lemma NextFair(s: Mux, e: Event, c: nat)
    requires Inv(s) && Fits(|s.queues|, e) && Ready(s, c) && Of(Next(s, e).1, c) == []
    ensures var (t, first) := Next(s, e);
      && Ready(t, c) && Idle !in first
      && |AllSent(first)| + Wait(t, c) <= Wait(s, c) + SXTHOG * c * Liars(first)
      && ((e.Write? ==> e.blocks != [] || e.chan >= c) ==> Liars(first) + Lies(t, c) <= Lies(s, c))
  {
    hide Lies;
    match e
    case Write(chan, blocks) => WriteFair(s, chan, blocks, c);
    case Output =>
      OutWaits(s, c);
      OutLies(s, c);
      PrefixedOne(Out(s).1, [], c);
      assert [Out(s).1] + [] == [Out(s).1];
      hide *;
  }

  lemma WriteFair(s: Mux, chan: nat, blocks: seq<Block>, c: nat)
    requires Inv(s) && chan < |s.queues| && Ready(s, c)
    ensures var t := Put(s, chan, blocks);
      Ready(t, c) && Wait(t, c) == Wait(s, c) && (blocks != [] || chan >= c ==> Lies(t, c) <= Lies(s, c))
  {
    if blocks != [] || chan >= c { PutLies(s, chan, blocks, c); }
    hide Lies;
  }

  /** When no stale channel is found, a channel with output waits for at most the full turns of all
      the others. */
  lemma HonestFair(s: Mux, events: seq<Event>, c: nat)
    requires Inv(s) && AllFit(|s.queues|, events) && Ready(s, c)
    requires Of(Run(s, events).1, c) == [] && Liars(Run(s, events).1) == 0
    ensures |AllSent(Run(s, events).1)| <= (|s.queues| - 1) * SXTHOG
  {
    RunFair(s, events, c);
    WaitBound(s, c);
  }

  /** With output in every write to a channel before it, no channel starves. */
  lemma FedFair(s: Mux, events: seq<Event>, c: nat)
    requires Inv(s) && AllFit(|s.queues|, events) && Ready(s, c) && Of(Run(s, events).1, c) == []
    requires Fed(events, c)
    ensures |AllSent(Run(s, events).1)| <= (|s.queues| - 1) * SXTHOG + SXTHOG * c * Pow(c)
  {
    RunFair(s, events, c);
    WaitBound(s, c);
    LiesBound(s, c);
    Monotone(c, Liars(Run(s, events).1), Pow(c));
  }

  lemma Monotone(c: nat, a: nat, b: nat)
    requires a <= b
    ensures SXTHOG * c * a <= SXTHOG * c * b
  {
  }

  function Calls(events: seq<Event>): nat {
    if events == [] then 0 else (if events[0].Output? then 1 else 0) + Calls(events[1..])
  }

  lemma {:induction false} RunCalls(s: Mux, events: seq<Event>)
    requires Inv(s) && AllFit(|s.queues|, events)
    ensures |Run(s, events).1| == Calls(events)
    decreases |events|
  {
    if events != [] {
      RunUnfold(s, events);
      hide Run, Inv, AllFit;
      RunCalls(Next(s, events[0]).0, events[1..]);
    }
  }

  lemma {:induction false} SentOrLied(results: seq<Result>)
    requires Idle !in results
    ensures |results| == |AllSent(results)| + Liars(results)
  {
    if results != [] { SentOrLied(results[1..]); }
  }

  /** As often the line may ask in vain for a channel with output. */
  lemma CallsBound(s: Mux, events: seq<Event>, c: nat)
    requires Inv(s) && AllFit(|s.queues|, events) && Ready(s, c) && Of(Run(s, events).1, c) == []
    requires Fed(events, c)
    ensures Calls(events) <= (|s.queues| - 1) * SXTHOG + (SXTHOG * c + 1) * Pow(c)
  {
    hide *;
    HasOutput(s, c);
    RunCalls(s, events);
    FedFair(s, events, c);
    assert Idle !in Run(s, events).1 && Liars(Run(s, events).1) <= Lies(s, c) by { RunFair(s, events, c); }
    LiesBound(s, c);
    SentOrLied(Run(s, events).1);
    Distributed(SXTHOG * c, Pow(c));
  }

  /** A channel with output is served before the line has asked this often, and first with the first
      buffer that it had. */
  lemma Served(s: Mux, events: seq<Event>, c: nat)
    requires Inv(s) && AllFit(|s.queues|, events) && Ready(s, c) && Fed(events, c)
    requires Calls(events) > (|s.queues| - 1) * SXTHOG + (SXTHOG * c + 1) * Pow(c)
    ensures Of(Run(s, events).1, c) != [] && Of(Run(s, events).1, c)[0] == s.queues[c][0]
  {
    hide *;
    HasOutput(s, c);
    if Of(Run(s, events).1, c) == [] {
      CallsBound(s, events, c);
    }
    RunKeepsOutput(s, events, c);
    SameHead(Of(Run(s, events).1, c), Run(s, events).0.queues[c], s.queues[c], Written(events, c));
  }

  lemma HasOutput(s: Mux, c: nat)
    requires Inv(s) && Ready(s, c)
    ensures c < |s.queues| && s.queues[c] != [] && -1 <= s.last
  {
  }

  lemma Distributed(a: nat, b: nat)
    ensures (a + 1) * b == a * b + b
  {
  }

  lemma SameHead(a: seq<Block>, b: seq<Block>, c: seq<Block>, d: seq<Block>)
    requires a + b == c + d && a != [] && c != []
    ensures a[0] == c[0]
  {
    assert (a + b)[0] == a[0] && (c + d)[0] == c[0];
  }

  // ----- writes of nothing -----

  /** As often a write of nothing to channel `j`, and a call for output. */
  function Nothing(j: nat, m: nat): seq<Event> {
    if m == 0 then [] else [Write(j, []), Output] + Nothing(j, m - 1)
  }

  /** Writes of nothing to a channel before it keep a channel from its turn for as long as they go on. */
  lemma {:induction false} Starved(s: Mux, j: nat, c: nat, m: nat)
    requires Inv(s) && j < c && Ready(s, c) && s.last == -1 && s.queues[j] == []
    requires forall i :: i in s.pending ==> j <= i
    ensures AllFit(|s.queues|, Nothing(j, m))
    ensures Run(s, Nothing(j, m)).1 == seq(m, _ => Lied(j)) && Run(s, Nothing(j, m)).0.queues == s.queues
    decreases m
  {
    if m > 0 {
      var u, rest := Out(Put(s, j, [])).0, Nothing(j, m - 1);
      StarvedOnce(s, j, c, rest);
      Starved(u, j, c, m - 1);
      var w := Write(j, []);
      assert Nothing(j, m) == [w] + ([Output] + rest);
      assert forall e :: e in Nothing(j, m) ==> e == w || e == Output || e in rest;
      hide Run, Inv, Ready, Out, Put, Nothing;
      OneMore(j, m);
    }
  }

  lemma OneMore(j: nat, m: nat)
    requires m > 0
    ensures [Lied(j)] + seq(m - 1, _ => Lied(j)) == seq(m, _ => Lied(j))
  {
  }

  /** The search from the beginning finds channel `j` when nothing before it is pending. */
  lemma {:induction false} FindFirst(pending: set<nat>, n: nat, at: int, j: nat, k: nat)
    requires -1 <= at < j < n && j in pending && (forall i :: i in pending ==> j <= i) && j - at <= k
    ensures Find(pending, n, at, k) == j
    decreases k
  {
    if Step(n, at) != j { FindFirst(pending, n, at + 1, j, k - 1); }
  }

  lemma StarvedOnce(s: Mux, j: nat, c: nat, rest: seq<Event>)
    requires Inv(s) && j < c && Ready(s, c) && s.last == -1 && s.queues[j] == []
    requires forall i :: i in s.pending ==> j <= i
    ensures var u := Out(Put(s, j, [])).0;
      && Inv(u) && Ready(u, c) && u.last == -1 && u.queues == s.queues && (forall i :: i in u.pending ==> j <= i)
      && (AllFit(|s.queues|, rest) ==>
            AllFit(|s.queues|, [Write(j, [])] + ([Output] + rest)) &&
            Run(s, [Write(j, [])] + ([Output] + rest)) == (Run(u, rest).0, [Lied(j)] + Run(u, rest).1))
  {
    var w, t := Write(j, []), Put(s, j, []);
    PutInv(s, j, []);
    OutInv(t);
    FindFirst(t.pending, |t.queues|, -1, j, |t.queues|);
    var u := Out(t).0;
    assert Out(t).1 == Lied(j) && u.queues == s.queues;
    assert Next(t, Output) == (u, [Lied(j)]) && Next(s, w) == (t, []);
    if AllFit(|s.queues|, rest) {
      hide *;
      RunCons(t, Output, rest);
      RunCons(s, w, [Output] + rest);
      assert [] + ([Lied(j)] + Run(u, rest).1) == [Lied(j)] + Run(u, rest).1;
    }
  }

  lemma RunCons(s: Mux, e: Event, rest: seq<Event>)
    requires Inv(s) && Fits(|s.queues|, e) && AllFit(|s.queues|, rest)
    ensures var (t, first) := Next(s, e);
      && Inv(t) && |t.queues| == |s.queues| && AllFit(|s.queues|, [e] + rest)
      && Run(s, [e] + rest) == (Run(t, rest).0, first + Run(t, rest).1)
  {
    var events := [e] + rest;
    assert events[0] == e && events[1..] == rest;
    RunUnfold(s, events);
    hide *;
  }

  // ----- the exact condition -----

  /** Nothing is written only to the channels in `empty`. */
  predicate EmptyOnly(events: seq<Event>, empty: set<nat>) {
    forall e :: e in events && e.Write? && e.blocks == [] ==> e.chan in empty
  }

  /** A run of `n` channels in which channel `c`, which has output, gets no turn. */
  ghost predicate Unserved(s: Mux, events: seq<Event>, n: nat, c: nat) {
    Inv(s) && |s.queues| == n && AllFit(n, events) && Ready(s, c) && Of(Run(s, events).1, c) == []
  }

  /** Of `n` channels, channel `c` is never kept from its turn for more than `bound` calls. */
  ghost predicate WaitsAtMost(n: nat, c: nat, empty: set<nat>, bound: nat) {
    forall s: Mux, events: seq<Event> ::
      Unserved(s, events, n, c) && EmptyOnly(events, empty) ==> Calls(events) <= bound
  }

  /** A state in which channel `c` has output and no other. */
  function OnlyOne(n: nat, c: nat): Mux
    requires c < n
  {
    Mux(seq(n, k => if k == c then [1] else []), {c}, -1, 0, 0, [])
  }

  lemma {:induction false} NoneOf(j: nat, m: nat, c: nat)
    ensures Of(seq(m, _ => Lied(j)), c) == []
  {
    if m > 0 {
      NoneOf(j, m - 1, c);
      assert seq(m, _ => Lied(j))[1..] == seq(m - 1, _ => Lied(j));
    }
  }

  lemma {:induction false} NothingCalls(j: nat, m: nat)
    ensures Calls(Nothing(j, m)) == m && forall e :: e in Nothing(j, m) ==> e == Write(j, []) || e == Output
  {
    if m > 0 {
      NothingCalls(j, m - 1);
      var rest := Nothing(j, m - 1);
      var events := [Write(j, []), Output] + rest;
      assert events[1..] == [Output] + rest && ([Output] + rest)[1..] == rest;
      assert Calls(events) == Calls(events[1..]) && Calls([Output] + rest) == 1 + Calls(rest);
    }
  }

  /** A channel before `c` that may be written with nothing outlasts every bound. */
  lemma Outlasts(n: nat, c: nat, empty: set<nat>, j: nat, bound: nat)
    requires j < c < n && j in empty
    ensures !WaitsAtMost(n, c, empty, bound)
  {
    var s, events := OnlyOne(n, c), Nothing(j, bound + 1);
    Starved(s, j, c, bound + 1);
    NoneOf(j, bound + 1, c);
    NothingCalls(j, bound + 1);
    assert EmptyOnly(events, empty) && Unserved(s, events, n, c);
  }

  /** However output comes otherwise, there is a bound to the wait of a channel with output exactly when
      no channel before it may be written with nothing. */
  lemma StarvesExactly(n: nat, c: nat, empty: set<nat>)
    requires c < n
    ensures (exists bound: nat :: WaitsAtMost(n, c, empty, bound)) <==> forall j :: j in empty ==> c <= j
  {
    if j :| j in empty && j < c {
      forall bound: nat ensures !WaitsAtMost(n, c, empty, bound) { Outlasts(n, c, empty, j, bound); }
    } else {
      var bound := (n - 1) * SXTHOG + (SXTHOG * c + 1) * Pow(c);
      forall s: Mux, events: seq<Event> | Unserved(s, events, n, c) && EmptyOnly(events, empty)
        ensures Calls(events) <= bound
      {
        assert Fed(events, c);
        CallsBound(s, events, c);
      }
      assert WaitsAtMost(n, c, empty, bound);
    }
  }
}
