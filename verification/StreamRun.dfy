/** A set of stream queues with flow control and their scheduler, as a state machine. */
module StreamRun {
  import opened StreamQueue

  /** A queue: its messages and their weighted count, its flags, its limits, whether it has a
      service procedure, and the queue that it passes messages on to (-1 if none). */
  datatype Queue = Queue(msgs: seq<Msg>, count: int, qenab: bool, qwantr: bool, qwantw: bool, qfull: bool,
                         qnoenb: bool, hiwat: int, lowat: int, srvp: bool, next: int)

  /** Queues come in pairs, a reader at an even place and its writer behind it. `run` is the list of
      queues to run. */
  datatype Sys = Sys(q: seq<Queue>, run: seq<nat>)

  function OtherQ(i: nat): nat {
    if i % 2 == 0 then i + 1 else i - 1
  }

  /** Queues are linked in pairs of opposite directions, without cycles; `rank` grows downstream. */
  ghost predicate Linked(q: seq<Queue>, rank: seq<nat>) {
    && |q| % 2 == 0 && |rank| == |q| && (forall i :: 0 <= i < |q| ==> rank[i] < |q|)
    && forall i :: 0 <= i < |q| && q[i].next != -1 ==> LinkOk(q, rank, i)
  }

  ghost predicate LinkOk(q: seq<Queue>, rank: seq<nat>, i: nat)
    requires i < |q| == |rank| && |q| % 2 == 0
  {
    var j := q[i].next;
    0 <= j < |q| && rank[i] < rank[j] && q[OtherQ(j)].next == OtherQ(i)
  }

  // ----- the queues along a stream -----

  /** `backq`: the queue that passes messages on to this one, or -1. */
  function BackQ(q: seq<Queue>, i: nat): (b: int)
    requires i < |q| && |q| % 2 == 0
  {
    var n := q[OtherQ(i)].next;
    if n < 0 then -1 else OtherQ(n)
  }

  lemma BackIs(q: seq<Queue>, rank: seq<nat>, i: nat)
    requires Linked(q, rank) && i < |q| && BackQ(q, i) != -1
    ensures 0 <= BackQ(q, i) < |q| && q[BackQ(q, i)].next == i && rank[BackQ(q, i)] < rank[i]
  {
    hide OtherQ;
    OtherTwice(i, |q|);
    assert LinkOk(q, rank, OtherQ(i));
    var n := q[OtherQ(i)].next;
    OtherTwice(n, |q|);
    assert LinkOk(q, rank, OtherQ(n));
  }

  lemma OtherTwice(i: nat, n: nat)
    requires i < n && n % 2 == 0
    ensures OtherQ(OtherQ(i)) == i && OtherQ(i) < n
  {
  }

  /** Going back undoes going on. */
  lemma BackOfNext(q: seq<Queue>, rank: seq<nat>, i: nat)
    requires Linked(q, rank) && i < |q| && q[i].next != -1
    ensures 0 <= q[i].next < |q| && BackQ(q, q[i].next) == i
  {
    hide OtherQ;
    OtherTwice(i, |q|);
    assert LinkOk(q, rank, i);
    OtherTwice(q[i].next, |q|);
  }

  /** The queue that `canput` looks at: the nearest one with a service procedure from here on, or
      the last. */
  ghost function Forward(q: seq<Queue>, rank: seq<nat>, i: nat): (f: nat)
    requires Linked(q, rank) && i < |q|
    ensures f < |q| && (q[f].srvp || q[f].next == -1)
    decreases |q| - rank[i]
  {
    if q[i].next != -1 && !q[i].srvp then
      assert LinkOk(q, rank, i);
      Forward(q, rank, q[i].next)
    else i
  }

  /** The nearest queue back from here that has a service procedure, or -1. */
  ghost function Upstream(q: seq<Queue>, rank: seq<nat>, i: nat): (b: int)
    requires Linked(q, rank) && i < |q|
    ensures b == -1 || (0 <= b < |q| && q[b].srvp)
    decreases rank[i]
  {
    var b := BackQ(q, i);
    if b == -1 then -1
    else
      BackIs(q, rank, i);
      if q[b].srvp then b else Upstream(q, rank, b)
  }

  /** A queue with a service procedure that asks whether it can put a message is the very one that
      is enabled again when the queue asked has drained. */
  lemma {:induction false} UpstreamOfForward(q: seq<Queue>, rank: seq<nat>, w: nat, i: nat)
    requires Linked(q, rank) && w < |q| && i < |q| && q[w].srvp
    requires BackQ(q, i) == w || (BackQ(q, i) != -1 && Upstream(q, rank, i) == w)
    ensures Upstream(q, rank, Forward(q, rank, i)) == w
    decreases |q| - rank[i]
  {
    hide BackQ, OtherQ;
    BackIs(q, rank, i);
    if q[i].next != -1 && !q[i].srvp {
      assert LinkOk(q, rank, i);
      BackOfNext(q, rank, i);
      UpstreamOfForward(q, rank, w, q[i].next);
    }
  }

  lemma WriterIsEnabled(q: seq<Queue>, rank: seq<nat>, w: nat)
    requires Linked(q, rank) && w < |q| && q[w].srvp && q[w].next != -1
    ensures LinkOk(q, rank, w) && Upstream(q, rank, Forward(q, rank, q[w].next)) == w
  {
    hide BackQ, OtherQ;
    assert LinkOk(q, rank, w);
    BackOfNext(q, rank, w);
    UpstreamOfForward(q, rank, w, q[w].next);
  }

  // ----- steps -----

  function Enable(s: Sys, i: nat): Sys
    requires i < |s.q|
  {
    if !s.q[i].srvp || s.q[i].qenab then s else Sys(s.q[i := s.q[i].(qenab := true)], s.run + [i])
  }

  /** A queue with the messages `ms` and `m` among them: count, mark of fullness. */
  function Added(q: Queue, ms: seq<Msg>, m: Msg): Queue
    requires ValidMsg(m)
  {
    var count := q.count + Weight(m);
    q.(msgs := ms, count := count, qfull := q.qfull || count >= q.hiwat)
  }

  predicate Wakes(q: Queue, m: Msg) {
    !q.qnoenb && (QueClass(m) > QNORM || q.qwantr)
  }

  function Put(s: Sys, i: nat, m: Msg): Sys
    requires i < |s.q| && ValidMsg(m)
  {
    var s' := s.(q := s.q[i := Added(s.q[i], PutLast(s.q[i].msgs, m), m)]);
    if Wakes(s.q[i], m) then Enable(s', i) else s'
  }

  function PutBack(s: Sys, i: nat, m: Msg): Sys
    requires i < |s.q| && ValidMsg(m)
  {
    var s' := s.(q := s.q[i := Added(s.q[i], PutFirst(s.q[i].msgs, m), m)]);
    if Wakes(s.q[i], m) then Enable(s', i) else s'
  }

  /** Enables the writer of a queue, if there is one. */
  ghost function EnableWriter(s: Sys, rank: seq<nat>, i: nat): Sys
    requires Linked(s.q, rank) && i < |s.q|
  {
    var b := Upstream(s.q, rank, i);
    if b == -1 then s else Enable(s, b)
  }

  /** A queue without its first message. */
  function Taken(q: Queue): Queue
    requires ValidMsgs(q.msgs)
  {
    if q.msgs == [] then q.(qwantr := true)
    else
      var count := q.count - Weight(q.msgs[0]);
      q.(msgs := q.msgs[1..], count := count, qfull := q.qfull && count >= q.hiwat, qwantr := false)
  }

  /** The queue has drained and someone waits for that. */
  predicate Drained(q: Queue) {
    q.count <= q.lowat && q.qwantw
  }

  ghost function Get(s: Sys, rank: seq<nat>, i: nat): Sys
    requires Linked(s.q, rank) && i < |s.q| && ValidMsgs(s.q[i].msgs)
  {
    var q := Taken(s.q[i]);
    var q' := if Drained(q) then q.(qwantw := false) else q;
    var s' := s.(q := s.q[i := q']);
    SameLinks(s.q, s'.q, rank);
    if Drained(q) then EnableWriter(s', rank, i) else s'
  }

  ghost function CanPut(s: Sys, rank: seq<nat>, i: nat): (r: (Sys, bool))
    requires Linked(s.q, rank) && i < |s.q|
  {
    var f := Forward(s.q, rank, i);
    if s.q[f].qfull then (s.(q := s.q[f := s.q[f].(qwantw := true)]), false) else (s, true)
  }

  function Emptied(q: Queue): Queue {
    q.(msgs := [], count := 0, qfull := false)
  }

  /** The messages `ms` put on a queue one after the other. */
  function Reput(s: Sys, i: nat, ms: seq<Msg>): Sys
    requires i < |s.q| && ValidMsgs(ms)
    decreases |ms|
  {
    if ms == [] then s else
      var s' := Put(s, i, ms[0]);
      assert i < |s'.q|;
      Reput(s', i, ms[1..])
  }

  ghost function Flush(s: Sys, rank: seq<nat>, i: nat, all: bool): Sys
    requires Linked(s.q, rank) && i < |s.q| && ValidMsgs(s.q[i].msgs)
  {
    LeftValid(s.q[i].msgs, all);
    var s' := Reput(s.(q := s.q[i := Emptied(s.q[i])]), i, Left(s.q[i].msgs, all));
    ReputSame(s.(q := s.q[i := Emptied(s.q[i])]), i, Left(s.q[i].msgs, all));
    SameLinks(s.q, s'.q, rank);
    if Drained(s'.q[i]) then EnableWriter(s', rank, i) else s'
  }

  lemma {:induction false} LeftValid(ms: seq<Msg>, all: bool)
    requires ValidMsgs(ms)
    ensures ValidMsgs(Left(ms, all))
  {
    if ms != [] { LeftValid(ms[1..], all); }
  }

  /** The lasting parts of a queue. */
  predicate SameShape(q: seq<Queue>, q': seq<Queue>) {
    |q'| == |q| && forall i :: 0 <= i < |q| ==> Shape(q'[i]) == Shape(q[i])
  }

  function Shape(q: Queue): (bool, int, int, bool, int) {
    (q.qnoenb, q.hiwat, q.lowat, q.srvp, q.next)
  }

  lemma SameLinks(q: seq<Queue>, q': seq<Queue>, rank: seq<nat>)
    requires Linked(q, rank) && SameShape(q, q')
    ensures Linked(q', rank)
  {
    forall i | 0 <= i < |q'| ensures q'[i].next == q[i].next { assert Shape(q'[i]) == Shape(q[i]); }
    forall i | 0 <= i < |q'| && q'[i].next != -1 ensures LinkOk(q', rank, i) {
      assert LinkOk(q, rank, i);
    }
  }

  lemma {:induction false} ReputSame(s: Sys, i: nat, ms: seq<Msg>)
    requires i < |s.q| && ValidMsgs(ms)
    ensures SameShape(s.q, Reput(s, i, ms).q)
    decreases |ms|
  {
    if ms != [] { ReputSame(Put(s, i, ms[0]), i, ms[1..]); }
  }

  // ----- what always holds -----

  /** The messages of a queue are in order, its count is their weight, and it is marked full exactly
      when the count has reached the high-water mark. */
  ghost predicate QueueOk(q: Queue) {
    && ValidMsgs(q.msgs) && InOrder(q.msgs) && q.count == Total(q.msgs)
    && 0 < q.hiwat && (q.qfull <==> q.count >= q.hiwat)
  }

  /** The run list has each enabled queue once, and nothing else. */
  ghost predicate RunOk(s: Sys) {
    && (forall i, j :: 0 <= i < j < |s.run| ==> s.run[i] != s.run[j])
    && (forall i :: 0 <= i < |s.run| ==> s.run[i] < |s.q| && s.q[s.run[i]].qenab)
    && (forall i :: 0 <= i < |s.q| && s.q[i].qenab ==> i in s.run && s.q[i].srvp)
  }

  ghost predicate Sound(s: Sys) {
    (forall i :: 0 <= i < |s.q| ==> QueueOk(s.q[i])) && RunOk(s)
  }

  /** Its reader waits for messages, there are some, and yet it is not going to run. */
  predicate Asleep(q: Queue) {
    q.msgs != [] && q.srvp && !q.qnoenb && q.qwantr && !q.qenab
  }

  /** No queue with a service procedure sleeps over its messages, but for the one whose service
      procedure has just been called. */
  ghost predicate NoneAsleep(s: Sys, serving: int) {
    forall i :: 0 <= i < |s.q| && i != serving ==> !Asleep(s.q[i])
  }

  /** The low-water marks are below the high-water marks. */
  predicate MarksApart(q: seq<Queue>) {
    forall i :: 0 <= i < |q| ==> q[i].lowat < q[i].hiwat
  }

  lemma SameMarks(q: seq<Queue>, q': seq<Queue>)
    requires SameShape(q, q')
    ensures MarksApart(q) <==> MarksApart(q')
  {
    assert forall i :: 0 <= i < |q| ==> Shape(q'[i]) == Shape(q[i]);
  }

  /** A writer that was refused by this queue still waits for it to drain. */
  predicate Waits(q: Queue) {
    q.qwantw && q.lowat < q.count
  }

  /** Nothing was taken from the queue, and a writer is still wanted. */
  predicate Kept(q: Queue, q': Queue) {
    q'.lowat == q.lowat && q.count <= q'.count && (q.qwantw ==> q'.qwantw)
  }

  /** So it is for all queues but the one at `but`. */
  predicate AllKept(q: seq<Queue>, q': seq<Queue>, but: int) {
    |q'| == |q| && forall k :: 0 <= k < |q| && k != but ==> Kept(q[k], q'[k])
  }

  /** The writer of queue `i`, if there is one, is going to run. */
  ghost predicate WriterCalled(s: Sys, rank: seq<nat>, i: nat)
    requires Linked(s.q, rank) && i < |s.q|
  {
    var b := Upstream(s.q, rank, i);
    b == -1 || s.q[b].qenab
  }

  /** What was taken from queue `i` leaves a waiting writer waiting, or has called it. */
  ghost predicate Taking(s: Sys, rank: seq<nat>, i: nat, s': Sys)
    requires Linked(s'.q, rank) && i < |s.q| == |s'.q|
  {
    && AllKept(s.q, s'.q, i) && s'.q[i].lowat == s.q[i].lowat
    && (s.q[i].qwantw && s'.q[i].lowat < s'.q[i].count ==> s'.q[i].qwantw)
    && (s.q[i].qwantw && s'.q[i].count <= s'.q[i].lowat ==> WriterCalled(s', rank, i))
  }

  lemma ReplaceSound(s: Sys, i: nat, q: Queue)
    requires Sound(s) && i < |s.q| && QueueOk(q) && q.qenab == s.q[i].qenab && q.srvp == s.q[i].srvp
    ensures Sound(s.(q := s.q[i := q]))
  {
    hide QueueOk;
  }

  lemma EnableSound(s: Sys, i: nat)
    requires Sound(s) && i < |s.q|
    ensures Sound(Enable(s, i)) && SameShape(s.q, Enable(s, i).q)
    ensures forall k :: 0 <= k < |s.q| ==> QueueOk(s.q[k].(qenab := true))
    ensures s.q[i].srvp ==> Enable(s, i).q[i].qenab
  {
    forall k | 0 <= k < |s.q| ensures QueueOk(s.q[k].(qenab := true)) { assert QueueOk(s.q[k]); }
    hide QueueOk;
    var s' := Enable(s, i);
    if s' != s {
      assert i !in s.run;
      assert s'.run == s.run + [i];
    }
  }

  /** Enabling wakes and never puts to sleep, and does not touch the counts. */
  lemma EnableKeeps(s: Sys, i: nat, serving: int)
    requires i < |s.q|
    ensures NoneAsleep(s, serving) ==> NoneAsleep(Enable(s, i), serving)
    ensures AllKept(s.q, Enable(s, i).q, -1)
    ensures s.q[i].srvp ==> NoneAsleep(s, i) ==> NoneAsleep(Enable(s, i), -1)
  {
  }

  lemma AddedOk(q: Queue, ms: seq<Msg>, m: Msg)
    requires QueueOk(q) && ValidMsg(m) && ValidMsgs(ms) && InOrder(ms) && Total(ms) == Total(q.msgs) + Weight(m)
    ensures QueueOk(Added(q, ms, m))
  {
    hide InOrder, ValidMsgs, Total, Weight;
  }

  /** Putting a message on or back. */
  lemma AddKeeps(s: Sys, i: nat, ms: seq<Msg>, m: Msg, serving: int)
    requires Sound(s) && i < |s.q| && ValidMsg(m) && NoneAsleep(s, serving)
    requires ValidMsgs(ms) && InOrder(ms) && Total(ms) == Total(s.q[i].msgs) + Weight(m)
    ensures var s1 := s.(q := s.q[i := Added(s.q[i], ms, m)]);
      var s' := if Wakes(s.q[i], m) then Enable(s1, i) else s1;
      && Sound(s') && SameShape(s.q, s'.q) && NoneAsleep(s', serving) && !Asleep(s'.q[i])
      && AllKept(s.q, s'.q, -1)
  {
    hide InOrder, ValidMsgs, Total, Weight, QueueOk;
    assert QueueOk(s.q[i]);
    AddedOk(s.q[i], ms, m);
    ReplaceSound(s, i, Added(s.q[i], ms, m));
    var s1 := s.(q := s.q[i := Added(s.q[i], ms, m)]);
    if Wakes(s.q[i], m) { EnableSound(s1, i); }
  }

  lemma PutKeeps(s: Sys, i: nat, m: Msg, serving: int)
    requires Sound(s) && i < |s.q| && ValidMsg(m) && NoneAsleep(s, serving)
    ensures var s' := Put(s, i, m);
      && Sound(s') && SameShape(s.q, s'.q) && NoneAsleep(s', serving) && !Asleep(s'.q[i])
      && AllKept(s.q, s'.q, -1)
  {
    assert QueueOk(s.q[i]);
    hide Sound, NoneAsleep, Asleep, SameShape, AllKept, ValidMsg;
    PutTotal(s.q[i].msgs, m);
    PutLastCorrect(s.q[i].msgs, m, 0);
    AddKeeps(s, i, PutLast(s.q[i].msgs, m), m, serving);
  }

  lemma PutBackKeeps(s: Sys, i: nat, m: Msg, serving: int)
    requires Sound(s) && i < |s.q| && ValidMsg(m) && NoneAsleep(s, serving)
    ensures var s' := PutBack(s, i, m);
      Sound(s') && SameShape(s.q, s'.q) && NoneAsleep(s', serving) && AllKept(s.q, s'.q, -1)
  {
    assert QueueOk(s.q[i]);
    hide Sound, NoneAsleep, Asleep, SameShape, AllKept, ValidMsg;
    PutTotal(s.q[i].msgs, m);
    PutFirstCorrect(s.q[i].msgs, m, 0);
    AddKeeps(s, i, PutFirst(s.q[i].msgs, m), m, serving);
  }

  lemma TakenOk(q: Queue)
    requires QueueOk(q)
    ensures var q' := Taken(q); QueueOk(q') && QueueOk(q'.(qwantw := false)) && !Asleep(q') && Shape(q') == Shape(q)
  {
    assert q.msgs != [] ==> forall i :: 0 <= i < |q.msgs| - 1 ==> q.msgs[1..][i] == q.msgs[i + 1];
  }

  lemma GetKeeps(s: Sys, rank: seq<nat>, i: nat, serving: int)
    requires Sound(s) && Linked(s.q, rank) && i < |s.q| && NoneAsleep(s, serving)
    ensures ValidMsgs(s.q[i].msgs)
    ensures var s' := Get(s, rank, i);
      && Sound(s') && SameShape(s.q, s'.q) && NoneAsleep(s', serving) && !Asleep(s'.q[i])
      && Linked(s'.q, rank) && Taking(s, rank, i, s')
  {
    hide OtherQ, BackQ, InOrder, Total;
    assert QueueOk(s.q[i]);
    assert ValidMsgs(s.q[i].msgs);
    assert Taken(s.q[i]).qenab == s.q[i].qenab && Taken(s.q[i]).qwantw == s.q[i].qwantw;
    hide QueueOk, Linked, Taken, Upstream;
    TakenOk(s.q[i]);
    var q := Taken(s.q[i]);
    var q' := if Drained(q) then q.(qwantw := false) else q;
    ReplaceSound(s, i, q');
    var s1 := s.(q := s.q[i := q']);
    assert SameShape(s.q, s1.q);
    SameLinks(s.q, s1.q, rank);
    if Drained(q) {
      WriterKeeps(s1, rank, i, serving);
      SameLinks(s1.q, EnableWriter(s1, rank, i).q, rank);
    }
  }

  lemma WriterKeeps(s: Sys, rank: seq<nat>, i: nat, serving: int)
    requires Sound(s) && Linked(s.q, rank) && i < |s.q|
    ensures var s' := EnableWriter(s, rank, i);
      && Sound(s') && SameShape(s.q, s'.q)
      && (NoneAsleep(s, serving) ==> NoneAsleep(s', serving)) && AllKept(s.q, s'.q, -1)
      && (Asleep(s'.q[i]) ==> Asleep(s.q[i]))
      && s'.q[i].count == s.q[i].count && s'.q[i].qwantw == s.q[i].qwantw
      && Linked(s'.q, rank) && WriterCalled(s', rank, i)
  {
    hide QueueOk, Linked, Upstream;
    var b := Upstream(s.q, rank, i);
    if b != -1 {
      EnableSound(s, b);
      EnableKeeps(s, b, serving);
    }
    var s' := EnableWriter(s, rank, i);
    SameLinks(s.q, s'.q, rank);
    SameUpstream(s.q, s'.q, rank, i);
  }

  /** A writer that is refused waits as long as there is more on the queue than its low-water mark; the
      marks need only be apart. */
  lemma CanPutKeeps(s: Sys, rank: seq<nat>, i: nat, serving: int)
    requires Sound(s) && Linked(s.q, rank) && i < |s.q| && NoneAsleep(s, serving)
    ensures var s' := CanPut(s, rank, i).0; var q := s.q[Forward(s.q, rank, i)];
      && Sound(s') && SameShape(s.q, s'.q) && NoneAsleep(s', serving)
      && AllKept(s.q, s'.q, -1)
      && (!CanPut(s, rank, i).1 ==>
            s'.q[Forward(s.q, rank, i)].qwantw && (q.lowat < q.hiwat ==> Waits(s'.q[Forward(s.q, rank, i)])))
  {
    hide Linked, Forward, InOrder, ValidMsgs, Total;
    var f := Forward(s.q, rank, i);
    assert QueueOk(s.q[f]);
    var q := s.q[f].(qwantw := true);
    assert QueueOk(q);
    ReplaceSound(s, f, q);
  }

  lemma {:induction false} ReputKeeps(s: Sys, i: nat, ms: seq<Msg>, serving: int)
    requires Sound(s) && i < |s.q| && ValidMsgs(ms) && NoneAsleep(s, serving) && !Asleep(s.q[i])
    ensures var s' := Reput(s, i, ms);
      Sound(s') && SameShape(s.q, s'.q) && NoneAsleep(s', serving) && s'.q[i].msgs == PutAll(s.q[i].msgs, ms)
    decreases |ms|
  {
    hide Sound, NoneAsleep, Asleep, AllKept, ValidMsg;
    if ms != [] {
      PutKeeps(s, i, ms[0], serving);
      var s1 := Put(s, i, ms[0]);
      assert s1.q[i].msgs == PutLast(s.q[i].msgs, ms[0]);
      ReputKeeps(s1, i, ms[1..], serving);
    }
  }

  /** Flushing leaves what it should, in order, and enables the writer of a queue that has drained. */
  lemma FlushKeeps(s: Sys, rank: seq<nat>, i: nat, all: bool, serving: int)
    requires Sound(s) && Linked(s.q, rank) && i < |s.q| && NoneAsleep(s, serving)
    ensures ValidMsgs(s.q[i].msgs)
    ensures var s' := Flush(s, rank, i, all);
      && Sound(s') && SameShape(s.q, s'.q) && NoneAsleep(s', serving) && s'.q[i].msgs == Left(s.q[i].msgs, all)
      && Linked(s'.q, rank) && Taking(s, rank, i, s')
  {
    assert QueueOk(s.q[i]);
    assert ValidMsgs(s.q[i].msgs) && InOrder(s.q[i].msgs) && QueueOk(Emptied(s.q[i])) && !Asleep(Emptied(s.q[i]));
    hide QueueOk, Linked, Left, Reput, PutAll, Asleep, Upstream, Kept;
    var ms := Left(s.q[i].msgs, all);
    LeftValid(s.q[i].msgs, all);
    FlushKeepsOrder(s.q[i].msgs, all);
    var s1 := s.(q := s.q[i := Emptied(s.q[i])]);
    ReplaceSound(s, i, Emptied(s.q[i]));
    ReputKeeps(s1, i, ms, serving);
    var s2 := Reput(s1, i, ms);
    SameLinks(s.q, s2.q, rank);
    ReputFlags(s, s1, i, ms);
    if Drained(s2.q[i]) {
      WriterKeeps(s2, rank, i, serving);
      EnableOnly(s2, rank, i);
      KeptOn(s.q, s2.q, EnableWriter(s2, rank, i).q, i);
    }
  }

  lemma KeptOn(q: seq<Queue>, q1: seq<Queue>, q2: seq<Queue>, i: int)
    requires AllKept(q, q1, i) && AllKept(q1, q2, -1)
    ensures AllKept(q, q2, i)
  {
    forall k | 0 <= k < |q| && k != i ensures Kept(q[k], q2[k]) { assert Kept(q[k], q1[k]) && Kept(q1[k], q2[k]); }
  }

  /** Putting messages back on an emptied queue. */
  lemma {:induction false} ReputFlags(s: Sys, s1: Sys, i: nat, ms: seq<Msg>)
    requires i < |s.q| == |s1.q| && ValidMsgs(ms) && AllKept(s.q, s1.q, i)
    requires s1.q[i].qwantw == s.q[i].qwantw && s1.q[i].lowat == s.q[i].lowat
    ensures var s' := Reput(s1, i, ms);
      AllKept(s.q, s'.q, i) && s'.q[i].qwantw == s.q[i].qwantw && s'.q[i].lowat == s.q[i].lowat
    decreases |ms|
  {
    hide Weight, PutLast, ValidMsg;
    if ms != [] { ReputFlags(s, Put(s1, i, ms[0]), i, ms[1..]); }
  }

  lemma EnableOnly(s: Sys, rank: seq<nat>, i: nat)
    requires Linked(s.q, rank) && i < |s.q|
    ensures var q := EnableWriter(s, rank, i).q[i]; q.msgs == s.q[i].msgs && Drained(q) == Drained(s.q[i])
  {
  }

  lemma {:induction false} SameUpstream(q: seq<Queue>, q': seq<Queue>, rank: seq<nat>, i: nat)
    requires Linked(q, rank) && Linked(q', rank) && SameShape(q, q') && i < |q|
    ensures Upstream(q, rank, i) == Upstream(q', rank, i)
    decreases rank[i]
  {
    hide OtherQ;
    OtherTwice(i, |q|);
    assert Shape(q[OtherQ(i)]) == Shape(q'[OtherQ(i)]);
    var b := BackQ(q, i);
    if b != -1 {
      BackIs(q, rank, i);
      assert Shape(q[b]) == Shape(q'[b]);
      SameUpstream(q, q', rank, b);
    }
  }

  // ----- whole runs -----

  datatype Event =
    | PutEvent(i: nat, m: Msg)
    | PutBackEvent(i: nat, m: Msg)
    | GetEvent(i: nat)
    | FlushEvent(i: nat, all: bool)
    | CanPutEvent(i: nat)
    | EnableEvent(i: nat)
    | RunEvent

  /** `serving` is the queue whose service procedure was called last, or -1. */
  datatype State = State(s: Sys, serving: int)

  /** Takes the first queue off the run list. */
  function Pop(s: Sys): Sys
    requires s.run != [] && s.run[0] < |s.q|
  {
    Sys(s.q[s.run[0] := s.q[s.run[0]].(qenab := false)], s.run[1..])
  }

  /** The next queue is run when the service procedure before has returned, which has at least looked
      at its queue: it took a message, or there was none. */
  predicate Legal(st: State, e: Event) {
    match e
    case PutEvent(i, m) => i < |st.s.q| && ValidMsg(m)
    case PutBackEvent(i, m) => i < |st.s.q| && ValidMsg(m)
    case GetEvent(i) => i < |st.s.q|
    case FlushEvent(i, _) => i < |st.s.q|
    case CanPutEvent(i) => i < |st.s.q|
    case EnableEvent(i) => i < |st.s.q|
    case RunEvent => st.s.run != [] && (0 <= st.serving < |st.s.q| ==> !Asleep(st.s.q[st.serving]))
  }

  ghost predicate Inv(st: State, rank: seq<nat>) {
    Sound(st.s) && Linked(st.s.q, rank) && NoneAsleep(st.s, st.serving)
  }

  ghost function Step(st: State, rank: seq<nat>, e: Event): State
    requires Inv(st, rank) && Legal(st, e)
  {
    match e
    case PutEvent(i, m) => st.(s := Put(st.s, i, m))
    case PutBackEvent(i, m) => st.(s := PutBack(st.s, i, m))
    case GetEvent(i) => assert QueueOk(st.s.q[i]); st.(s := Get(st.s, rank, i))
    case FlushEvent(i, all) => assert QueueOk(st.s.q[i]); st.(s := Flush(st.s, rank, i, all))
    case CanPutEvent(i) => st.(s := CanPut(st.s, rank, i).0)
    case EnableEvent(i) => st.(s := Enable(st.s, i))
    case RunEvent => State(Pop(st.s), st.s.run[0])
  }

  lemma PopKeeps(s: Sys, serving: int)
    requires Sound(s) && s.run != [] && NoneAsleep(s, serving) && (0 <= serving < |s.q| ==> !Asleep(s.q[serving]))
    ensures s.run[0] < |s.q|
    ensures var s' := Pop(s);
      Sound(s') && SameShape(s.q, s'.q) && NoneAsleep(s', s.run[0]) && AllKept(s.q, s'.q, -1)
  {
    hide ValidMsgs, InOrder, Total;
    var h := s.run[0];
    assert QueueOk(s.q[h]);
    assert QueueOk(s.q[h].(qenab := false));
    hide QueueOk;
    var s' := Pop(s);
    forall i | 0 <= i < |s'.q| && s'.q[i].qenab ensures i in s'.run && s'.q[i].srvp {
      assert i in s.run;
      var k :| 0 <= k < |s.run| && s.run[k] == i;
      assert s'.run[k - 1] == i;
    }
  }

  /** The queue that the step takes messages from, or -1. */
  function TakesFrom(e: Event): int {
    if e.GetEvent? || e.FlushEvent? then e.i else -1
  }

  lemma StepInv(st: State, rank: seq<nat>, e: Event)
    requires Inv(st, rank) && Legal(st, e)
    ensures Inv(Step(st, rank, e), rank) && |Step(st, rank, e).s.q| == |st.s.q|
    ensures MarksApart(st.s.q) <==> MarksApart(Step(st, rank, e).s.q)
    ensures AllKept(st.s.q, Step(st, rank, e).s.q, TakesFrom(e))
    ensures TakesFrom(e) != -1 ==> Taking(st.s, rank, e.i, Step(st, rank, e).s)
    ensures SameShape(st.s.q, Step(st, rank, e).s.q)
  {
    hide Sound, Linked, NoneAsleep, Asleep, SameShape, QueueOk, Forward, Put, PutBack, Get, Flush, Kept, WriterCalled,
      CanPut, Enable, Pop, ValidMsg;
    match e {
      case PutEvent(i, m) => PutKeeps(st.s, i, m, st.serving);
      case PutBackEvent(i, m) => PutBackKeeps(st.s, i, m, st.serving);
      case GetEvent(i) => GetKeeps(st.s, rank, i, st.serving);
      case FlushEvent(i, all) => FlushKeeps(st.s, rank, i, all, st.serving);
      case CanPutEvent(i) => CanPutKeeps(st.s, rank, i, st.serving);
      case EnableEvent(i) => EnableSound(st.s, i); EnableKeeps(st.s, i, st.serving);
      case RunEvent => PopKeeps(st.s, st.serving);
    }
    SameLinks(st.s.q, Step(st, rank, e).s.q, rank);
    SameMarks(st.s.q, Step(st, rank, e).s.q);
  }

  // ----- writers that were refused -----

  /** The queues that have refused a writer, and have not drained since. */
  ghost function Refusing(st: State, rank: seq<nat>, waiting: set<nat>, e: Event): set<nat>
    requires Inv(st, rank) && Legal(st, e)
  {
    StepInv(st, rank, e);
    var q' := Step(st, rank, e).s.q;
    if e.CanPutEvent? && !CanPut(st.s, rank, e.i).1 then waiting + {Forward(st.s.q, rank, e.i)}
    else if TakesFrom(e) != -1 && q'[e.i].count <= q'[e.i].lowat then waiting - {e.i}
    else waiting
  }

  predicate AllWait(q: seq<Queue>, waiting: set<nat>) {
    forall i :: i in waiting ==> i < |q| && Waits(q[i])
  }

  /** Whatever the step: a queue that has refused a writer knows it and has not drained, and one that
      drains calls its writer. */
  lemma StepServes(st: State, rank: seq<nat>, waiting: set<nat>, e: Event)
    requires Inv(st, rank) && Legal(st, e) && MarksApart(st.s.q) && AllWait(st.s.q, waiting)
    ensures Inv(Step(st, rank, e), rank) && AllWait(Step(st, rank, e).s.q, Refusing(st, rank, waiting, e))
    ensures forall i :: i in waiting && i !in Refusing(st, rank, waiting, e) ==>
      i < |st.s.q| == |Step(st, rank, e).s.q| && WriterCalled(Step(st, rank, e).s, rank, i)
  {
    hide Sound, Linked, NoneAsleep, Asleep, SameShape, QueueOk, Forward, Put, PutBack, Get, Flush, CanPut, Enable, Pop,
      ValidMsg, WriterCalled;
    StepInv(st, rank, e);
    var q, q' := st.s.q, Step(st, rank, e).s.q;
    forall i | i in waiting && i != TakesFrom(e) ensures Waits(q'[i]) { assert Kept(q[i], q'[i]); }
    if e.CanPutEvent? { CanPutKeeps(st.s, rank, e.i, st.serving); }
  }

  ghost predicate LegalRun(st: State, rank: seq<nat>, events: seq<Event>)
    requires Inv(st, rank)
    decreases |events|
  {
    || events == []
    || (Legal(st, events[0])
        && (StepInv(st, rank, events[0]); LegalRun(Step(st, rank, events[0]), rank, events[1..])))
  }

  ghost function Run(st: State, rank: seq<nat>, events: seq<Event>): State
    requires Inv(st, rank) && LegalRun(st, rank, events)
    decreases |events|
  {
    if events == [] then st
    else
      StepInv(st, rank, events[0]);
      Run(Step(st, rank, events[0]), rank, events[1..])
  }

  ghost function RefusingAfter(st: State, rank: seq<nat>, waiting: set<nat>, events: seq<Event>): set<nat>
    requires Inv(st, rank) && LegalRun(st, rank, events)
    decreases |events|
  {
    if events == [] then waiting
    else
      StepInv(st, rank, events[0]);
      RefusingAfter(Step(st, rank, events[0]), rank, Refusing(st, rank, waiting, events[0]), events[1..])
  }

  /** Over any run: messages stay in order, counts and marks of fullness are right, the run list has
      each enabled queue once, and no queue sleeps over its messages; and with the marks apart, every
      queue that has refused a writer and has not drained knows that it is waited for. */
  lemma {:induction false} RunInv(st: State, rank: seq<nat>, waiting: set<nat>, events: seq<Event>)
    requires Inv(st, rank) && LegalRun(st, rank, events)
    ensures Inv(Run(st, rank, events), rank)
    ensures MarksApart(st.s.q) && AllWait(st.s.q, waiting) ==>
              AllWait(Run(st, rank, events).s.q, RefusingAfter(st, rank, waiting, events))
    decreases |events|
  {
    hide Inv, AllWait, MarksApart, Step, Legal, Refusing;
    if events != [] {
      var e := events[0];
      StepInv(st, rank, e);
      if MarksApart(st.s.q) && AllWait(st.s.q, waiting) { StepServes(st, rank, waiting, e); }
      RunInv(Step(st, rank, e), rank, Refusing(st, rank, waiting, e), events[1..]);
    }
  }

  // ----- queues that were found empty -----

  /** A queue that has just been looked at is enabled by the next message exactly when it was found empty,
      or the message is not a normal one. */
  lemma LookThenPut(s: Sys, rank: seq<nat>, i: nat, m: Msg)
    requires Linked(s.q, rank) && i < |s.q| && ValidMsgs(s.q[i].msgs) && ValidMsg(m)
    requires s.q[i].srvp && !s.q[i].qnoenb && !s.q[i].qenab
    ensures var s' := Get(s, rank, i);
      && i < |s'.q|
      && (Put(s', i, m).q[i].qenab <==> s.q[i].msgs == [] || QueClass(m) > QNORM)
      && (PutBack(s', i, m).q[i].qenab <==> s.q[i].msgs == [] || QueClass(m) > QNORM)
  {
    hide ValidMsg, ValidMsgs, QueClass, PutLast, PutFirst;
    var q := Taken(s.q[i]);
    var s1 := s.(q := s.q[i := if Drained(q) then q.(qwantw := false) else q]);
    SameLinks(s.q, s1.q, rank);
    UpstreamIsOther(s1, rank, i);
  }

  lemma UpstreamIsOther(s: Sys, rank: seq<nat>, i: nat)
    requires Linked(s.q, rank) && i < |s.q|
    ensures Upstream(s.q, rank, i) != i
  {
    if BackQ(s.q, i) != -1 { BackIs(s.q, rank, i); UpstreamLower(s.q, rank, i); }
  }

  lemma {:induction false} UpstreamLower(q: seq<Queue>, rank: seq<nat>, i: nat)
    requires Linked(q, rank) && i < |q|
    ensures Upstream(q, rank, i) != -1 ==> rank[Upstream(q, rank, i)] < rank[i]
    decreases rank[i]
  {
    hide OtherQ, BackQ;
    var b := BackQ(q, i);
    if b != -1 {
      BackIs(q, rank, i);
      UpstreamLower(q, rank, b);
    }
  }

  /** The queues that had no message when a message was last taken from them. */
  ghost function FoundEmpty(st: State, idle: set<nat>, e: Event): set<nat>
    requires Legal(st, e)
  {
    if !e.GetEvent? then idle else if st.s.q[e.i].msgs == [] then idle + {e.i} else idle - {e.i}
  }

  ghost function FoundEmptyAfter(st: State, rank: seq<nat>, idle: set<nat>, events: seq<Event>): set<nat>
    requires Inv(st, rank) && LegalRun(st, rank, events)
    decreases |events|
  {
    if events == [] then idle
    else
      StepInv(st, rank, events[0]);
      FoundEmptyAfter(Step(st, rank, events[0]), rank, FoundEmpty(st, idle, events[0]), events[1..])
  }

  predicate AllWanted(q: seq<Queue>, idle: set<nat>) {
    forall i :: i in idle ==> i < |q| && q[i].qwantr
  }

  lemma {:induction false} ReputWanted(s: Sys, i: nat, ms: seq<Msg>, idle: set<nat>)
    requires i < |s.q| && ValidMsgs(ms) && AllWanted(s.q, idle)
    ensures AllWanted(Reput(s, i, ms).q, idle)
    decreases |ms|
  {
    hide PutLast, Weight, ValidMsg;
    if ms != [] { ReputWanted(Put(s, i, ms[0]), i, ms[1..], idle); }
  }

  lemma StepWanted(st: State, rank: seq<nat>, idle: set<nat>, e: Event)
    requires Inv(st, rank) && Legal(st, e) && AllWanted(st.s.q, idle)
    ensures AllWanted(Step(st, rank, e).s.q, FoundEmpty(st, idle, e))
  {
    hide Upstream, Forward, Linked, ValidMsg, Weight, Total, InOrder;
    match e {
      case PutEvent(i, m) =>
      case PutBackEvent(i, m) =>
      case GetEvent(i) =>
      case FlushEvent(i, all) =>
        assert QueueOk(st.s.q[i]);
        LeftValid(st.s.q[i].msgs, all);
        ReputWanted(st.s.(q := st.s.q[i := Emptied(st.s.q[i])]), i, Left(st.s.q[i].msgs, all), idle);
      case CanPutEvent(i) =>
      case EnableEvent(i) =>
      case RunEvent =>
    }
  }

  lemma {:induction false} RunWanted(st: State, rank: seq<nat>, idle: set<nat>, events: seq<Event>)
    requires Inv(st, rank) && LegalRun(st, rank, events) && AllWanted(st.s.q, idle)
    ensures AllWanted(Run(st, rank, events).s.q, FoundEmptyAfter(st, rank, idle, events))
    decreases |events|
  {
    hide Inv, AllWanted, Step, Legal, FoundEmpty;
    if events != [] {
      StepInv(st, rank, events[0]);
      StepWanted(st, rank, idle, events[0]);
      RunWanted(Step(st, rank, events[0]), rank, FoundEmpty(st, idle, events[0]), events[1..]);
    }
  }

  /** Over any run: a queue that was found empty and has got messages since is on the run list, unless
      its service procedure has just been called; and any message that is put on it enables it. */
  lemma EmptyIsEnabled(st: State, rank: seq<nat>, events: seq<Event>, i: nat)
    requires Inv(st, rank) && LegalRun(st, rank, events) && i in FoundEmptyAfter(st, rank, {}, events)
    ensures var st' := Run(st, rank, events);
      && i < |st'.s.q|
      && (st'.s.q[i].srvp && !st'.s.q[i].qnoenb ==>
            && (st'.s.q[i].msgs != [] ==> i in st'.s.run || i == st'.serving)
            && forall m :: ValidMsg(m) ==> Put(st'.s, i, m).q[i].qenab && PutBack(st'.s, i, m).q[i].qenab)
  {
    hide ValidMsg, Weight, PutLast, PutFirst, QueueOk, Linked;
    RunInv(st, rank, {}, events);
    RunWanted(st, rank, {}, events);
    hide Run, FoundEmptyAfter, LegalRun;
  }

  /** Queue `w` is on the run list at some time of the run. */
  ghost predicate Enabled(st: State, rank: seq<nat>, events: seq<Event>, w: nat)
    requires Inv(st, rank) && LegalRun(st, rank, events) && w < |st.s.q|
    decreases |events|
  {
    || st.s.q[w].qenab
    || (events != []
        && (StepInv(st, rank, events[0]); Enabled(Step(st, rank, events[0]), rank, events[1..], w)))
  }

  /** A queue that a writer waits for calls it before it holds no more than its low-water mark. */
  lemma {:induction false} DrainCalls(st: State, rank: seq<nat>, events: seq<Event>, i: nat, w: nat)
    requires Inv(st, rank) && LegalRun(st, rank, events) && i < |st.s.q| && Waits(st.s.q[i])
    requires w < |st.s.q| && Upstream(st.s.q, rank, i) == w
    ensures |Run(st, rank, events).s.q| == |st.s.q|
    ensures Waits(Run(st, rank, events).s.q[i]) || Enabled(st, rank, events, w)
    decreases |events|
  {
    hide Inv, Legal, Step, Upstream, SameShape;
    if events != [] {
      StepInv(st, rank, events[0]);
      InvLinked(st, rank);
      InvLinked(Step(st, rank, events[0]), rank);
      SameUpstream(st.s.q, Step(st, rank, events[0]).s.q, rank, i);
      RunSame(Step(st, rank, events[0]), rank, events[1..]);
      if i != TakesFrom(events[0]) { assert Kept(st.s.q[i], Step(st, rank, events[0]).s.q[i]); }
      if Waits(Step(st, rank, events[0]).s.q[i]) {
        DrainCalls(Step(st, rank, events[0]), rank, events[1..], i, w);
      }
    }
  }

  lemma InvLinked(st: State, rank: seq<nat>)
    requires Inv(st, rank)
    ensures Linked(st.s.q, rank)
  {
  }

  lemma {:induction false} RunSame(st: State, rank: seq<nat>, events: seq<Event>)
    requires Inv(st, rank) && LegalRun(st, rank, events)
    ensures |Run(st, rank, events).s.q| == |st.s.q|
    decreases |events|
  {
    hide Inv, Legal, Step;
    if events != [] {
      StepInv(st, rank, events[0]);
      RunSame(Step(st, rank, events[0]), rank, events[1..]);
    }
  }

  /** A queue `w` with a service procedure asks whether it can pass a message on, and is refused: then,
      whatever happens, it is put on the run list before the queue that refused it has drained. */
  lemma RefusedIsCalled(st: State, rank: seq<nat>, w: nat, events: seq<Event>)
    requires Inv(st, rank) && LegalRun(st, rank, events) && events != []
    requires w < |st.s.q| && st.s.q[w].srvp && 0 <= st.s.q[w].next < |st.s.q|
    requires events[0] == CanPutEvent(st.s.q[w].next) && Linked(st.s.q, rank)
    requires !CanPut(st.s, rank, st.s.q[w].next).1
    ensures |Run(st, rank, events).s.q| == |st.s.q|
    ensures var f := Forward(st.s.q, rank, st.s.q[w].next); var q := Run(st, rank, events).s.q[f];
      st.s.q[f].lowat < st.s.q[f].hiwat && q.count <= q.lowat ==> Enabled(st, rank, events, w)
  {
    var i := st.s.q[w].next;
    var f := Forward(st.s.q, rank, i);
    WriterIsEnabled(st.s.q, rank, w);
    StepInv(st, rank, events[0]);
    CanPutKeeps(st.s, rank, i, st.serving);
    var t := Step(st, rank, events[0]);
    assert t.s == CanPut(st.s, rank, i).0;
    hide Inv, Legal, Step, Upstream, Forward, SameShape, CanPut;
    InvLinked(t, rank);
    SameUpstream(st.s.q, t.s.q, rank, f);
    RunSame(t, rank, events[1..]);
    if st.s.q[f].lowat < st.s.q[f].hiwat { DrainCalls(t, rank, events[1..], f, w); }
  }

  // ----- the run list is served -----

  /** How often a next queue is run. */
  function Runs(events: seq<Event>): nat {
    if events == [] then 0 else (if events[0].RunEvent? then 1 else 0) + Runs(events[1..])
  }

  /** The service procedure of queue `w` is called in the run. */
  ghost predicate Called(st: State, rank: seq<nat>, events: seq<Event>, w: nat)
    requires Inv(st, rank) && LegalRun(st, rank, events)
    decreases |events|
  {
    && events != []
    && (|| (events[0].RunEvent? && st.s.run[0] == w)
        || (StepInv(st, rank, events[0]); Called(Step(st, rank, events[0]), rank, events[1..], w)))
  }

  lemma StepLists(st: State, rank: seq<nat>, e: Event)
    requires Inv(st, rank) && Legal(st, e)
    ensures st.s.run != [] && e.RunEvent? ==> Step(st, rank, e).s.run == st.s.run[1..]
    ensures !e.RunEvent? ==> st.s.run <= Step(st, rank, e).s.run
  {
    match e {
      case PutEvent(i, m) =>
      case PutBackEvent(i, m) =>
      case GetEvent(i) =>
      case FlushEvent(i, all) =>
        assert QueueOk(st.s.q[i]);
        LeftValid(st.s.q[i].msgs, all);
        ReputLists(st.s.(q := st.s.q[i := Emptied(st.s.q[i])]), i, Left(st.s.q[i].msgs, all));
      case CanPutEvent(i) =>
      case EnableEvent(i) =>
      case RunEvent =>
    }
  }

  lemma {:induction false} ReputLists(s: Sys, i: nat, ms: seq<Msg>)
    requires i < |s.q| && ValidMsgs(ms)
    ensures s.run <= Reput(s, i, ms).run
    decreases |ms|
  {
    hide PutLast, Weight, ValidMsg;
    if ms != [] { ReputLists(Put(s, i, ms[0]), i, ms[1..]); }
  }

  /** The queue at place `k` of the run list is called once so many before it have been. */
  lemma {:induction false} ListedIsCalled(st: State, rank: seq<nat>, events: seq<Event>, k: nat)
    requires Inv(st, rank) && LegalRun(st, rank, events) && k < |st.s.run| && k < Runs(events)
    ensures Called(st, rank, events, st.s.run[k])
    decreases |events|
  {
    hide Inv, Step, Legal;
    StepInv(st, rank, events[0]);
    StepLists(st, rank, events[0]);
    var t := Step(st, rank, events[0]);
    if !events[0].RunEvent? {
      assert t.s.run[k] == st.s.run[k];
      ListedIsCalled(t, rank, events[1..], k);
    } else if k > 0 {
      ListedIsCalled(t, rank, events[1..], k - 1);
    }
  }

  /** An enabled queue is called before the next queue has been run as often as there are queues. */
  lemma EnabledIsCalled(st: State, rank: seq<nat>, events: seq<Event>, w: nat)
    requires Inv(st, rank) && LegalRun(st, rank, events) && w < |st.s.q| && st.s.q[w].qenab
    requires Runs(events) >= |st.s.q|
    ensures Called(st, rank, events, w)
  {
    var run := st.s.run;
    assert w in run;
    var k :| 0 <= k < |run| && run[k] == w;
    hide *;
    RunShort(st, rank);
    ListedIsCalled(st, rank, events, k);
  }

  lemma RunShort(st: State, rank: seq<nat>)
    requires Inv(st, rank)
    ensures |st.s.run| <= |st.s.q|
  {
    Fewer(st.s.run, |st.s.q|);
  }

  lemma {:induction false} Fewer(run: seq<nat>, n: nat)
    requires forall i, j :: 0 <= i < j < |run| ==> run[i] != run[j]
    requires forall i :: 0 <= i < |run| ==> run[i] < n
    ensures |run| <= n
    decreases n
  {
    if run != [] { assert run[0] < n; }
    if n > 0 {
      if i :| 0 <= i < |run| && run[i] == n - 1 {
        var rest := run[..i] + run[i + 1..];
        forall a, b | 0 <= a < b < |rest| ensures rest[a] != rest[b] {
          assert rest[a] == run[if a < i then a else a + 1] && rest[b] == run[if b < i then b else b + 1];
        }
        forall a | 0 <= a < |rest| ensures rest[a] < n - 1 { assert rest[a] == run[if a < i then a else a + 1]; }
        Fewer(rest, n - 1);
      } else {
        Fewer(run, n - 1);
      }
    }
  }
}
