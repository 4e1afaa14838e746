/** What goes through a stream queue, and when its writers hear of it. */
module StreamOrder {
  import opened StreamQueue
  import opened StreamRun

  // ----- first come, first served -----

  /** Of one message, what belongs to class `c`. */
  function Only(m: Msg, c: int): seq<Msg> {
    if QueClass(m) == c then [m] else []
  }

  /** The messages of class `c` that were taken from queue `k`, which holds `ms`, and not put back, in the
      order of taking. */
  function Gone(e: Event, k: nat, c: int, ms: seq<Msg>, gone: seq<Msg>): seq<Msg> {
    if e == GetEvent(k) && ms != [] then gone + Only(ms[0], c)
    else if e.PutBackEvent? && e.i == k && QueClass(e.m) == c && gone != [] then gone[..|gone| - 1]
    else gone
  }

  /** Of queue `k`, nothing is flushed, and what is put back is what was last taken of its class. */
  predicate Tidy(e: Event, k: nat, c: int, gone: seq<Msg>) {
    match e
    case FlushEvent(i, _) => i != k
    case PutBackEvent(i, m) => i == k && QueClass(m) == c ==> gone != [] && gone[|gone| - 1] == m
    case _ => true
  }

  /** What is put on queue `k` of class `c`. */
  function Come(e: Event, k: nat, c: int): seq<Msg> {
    if e.PutEvent? && e.i == k then Only(e.m, c) else []
  }

  /** The messages of queue `k` after a step. */
  function After(e: Event, k: nat, ms: seq<Msg>): seq<Msg> {
    match e
    case PutEvent(i, m) => if i == k then PutLast(ms, m) else ms
    case PutBackEvent(i, m) => if i == k then PutFirst(ms, m) else ms
    case GetEvent(i) => if i == k && ms != [] then ms[1..] else ms
    case FlushEvent(i, all) => if i == k then Left(ms, all) else ms
    case _ => ms
  }

  lemma {:induction false} ReputElsewhere(s: Sys, i: nat, ms: seq<Msg>, k: nat)
    requires i < |s.q| && k < |s.q| && k != i && ValidMsgs(ms)
    ensures |Reput(s, i, ms).q| == |s.q| && Reput(s, i, ms).q[k].msgs == s.q[k].msgs
    decreases |ms|
  {
    hide PutLast, Weight, ValidMsg;
    if ms != [] { ReputElsewhere(Put(s, i, ms[0]), i, ms[1..], k); }
  }

  lemma StepMsgs(st: State, rank: seq<nat>, e: Event, k: nat)
    requires Inv(st, rank) && Legal(st, e) && k < |st.s.q|
    ensures |Step(st, rank, e).s.q| == |st.s.q|
    ensures Step(st, rank, e).s.q[k].msgs == After(e, k, st.s.q[k].msgs)
  {
    hide PutLast, PutFirst, Weight, ValidMsg, InOrder, Total, Linked, Forward, Upstream, Left, Reput;
    match e {
      case PutEvent(i, m) =>
      case PutBackEvent(i, m) =>
      case GetEvent(i) =>
      case FlushEvent(i, all) =>
        assert QueueOk(st.s.q[i]);
        FlushKeeps(st.s, rank, i, all, st.serving);
        LeftValid(st.s.q[i].msgs, all);
        if i != k { ReputElsewhere(st.s.(q := st.s.q[i := Emptied(st.s.q[i])]), i, Left(st.s.q[i].msgs, all), k); }
      case CanPutEvent(i) =>
      case EnableEvent(i) =>
      case RunEvent =>
    }
  }

  lemma AfterFifo(e: Event, k: nat, c: int, ms: seq<Msg>, gone: seq<Msg>)
    requires InOrder(ms) && Tidy(e, k, c, gone)
    ensures Gone(e, k, c, ms, gone) + OfClass(After(e, k, ms), c) == gone + OfClass(ms, c) + Come(e, k, c)
  {
    hide InOrder, QueClass, PutLast, PutFirst;
    match e {
      case PutEvent(i, m) => if i == k { PutLastCorrect(ms, m, c); Assoc(gone, OfClass(ms, c), Only(m, c)); }
      case PutBackEvent(i, m) =>
        if i == k {
          PutFirstCorrect(ms, m, c);
          if QueClass(m) == c { Assoc(gone[..|gone| - 1], [m], OfClass(ms, c)); }
        }
      case GetEvent(i) =>
        if i == k && ms != [] { Assoc(gone, Only(ms[0], c), OfClass(ms[1..], c)); }
      case _ =>
    }
  }

  /** What was taken, what is on the queue and what is to come. */
  ghost function GoneAfter(st: State, rank: seq<nat>, events: seq<Event>, k: nat, c: int, gone: seq<Msg>): seq<Msg>
    requires Inv(st, rank) && LegalRun(st, rank, events) && k < |st.s.q|
    decreases |events|
  {
    if events == [] then gone
    else
      StepInv(st, rank, events[0]);
      GoneAfter(Step(st, rank, events[0]), rank, events[1..], k, c, Gone(events[0], k, c, st.s.q[k].msgs, gone))
  }

  ghost predicate TidyRun(st: State, rank: seq<nat>, events: seq<Event>, k: nat, c: int, gone: seq<Msg>)
    requires Inv(st, rank) && LegalRun(st, rank, events) && k < |st.s.q|
    decreases |events|
  {
    events != [] ==>
      && Tidy(events[0], k, c, gone)
      && (StepInv(st, rank, events[0]);
          TidyRun(Step(st, rank, events[0]), rank, events[1..], k, c, Gone(events[0], k, c, st.s.q[k].msgs, gone)))
  }

  function Coming(events: seq<Event>, k: nat, c: int): seq<Msg> {
    if events == [] then [] else Come(events[0], k, c) + Coming(events[1..], k, c)
  }

  /** Over any run without flushing, in which what is put back is what was taken: the messages of a class
      leave a queue in the order in which they came, and none is lost or doubled. */
  lemma {:induction false} RunFifo(st: State, rank: seq<nat>, events: seq<Event>, k: nat, c: int, gone: seq<Msg>)
    requires Inv(st, rank) && LegalRun(st, rank, events) && k < |st.s.q| && TidyRun(st, rank, events, k, c, gone)
    ensures |Run(st, rank, events).s.q| == |st.s.q|
    ensures GoneAfter(st, rank, events, k, c, gone) + OfClass(Run(st, rank, events).s.q[k].msgs, c)
      == gone + OfClass(st.s.q[k].msgs, c) + Coming(events, k, c)
    decreases |events|
  {
    hide Inv, Step, Legal, OfClass, Gone, Come, Tidy;
    if events != [] {
      var e, ms := events[0], st.s.q[k].msgs;
      StepInv(st, rank, e);
      StepMsgs(st, rank, e, k);
      InvOrder(st, rank, k);
      AfterFifo(e, k, c, ms, gone);
      var gone' := Gone(e, k, c, ms, gone);
      RunFifo(Step(st, rank, e), rank, events[1..], k, c, gone');
      Assoc(gone + OfClass(ms, c), Come(e, k, c), Coming(events[1..], k, c));
    }
  }

  lemma InvOrder(st: State, rank: seq<nat>, k: nat)
    requires Inv(st, rank) && k < |st.s.q|
    ensures InOrder(st.s.q[k].msgs)
  {
    assert QueueOk(st.s.q[k]);
  }

  // ----- when writers are refused, and when they are called -----

  /** A writer is refused exactly when the messages on the queue that is asked have reached its high-water
      mark, and being let through changes nothing. */
  lemma CanPutExact(s: Sys, rank: seq<nat>, i: nat)
    requires Sound(s) && Linked(s.q, rank) && i < |s.q|
    ensures var q := s.q[Forward(s.q, rank, i)];
      ValidMsgs(q.msgs) && (CanPut(s, rank, i).1 <==> Total(q.msgs) < q.hiwat)
    ensures CanPut(s, rank, i).1 ==> CanPut(s, rank, i).0 == s
  {
    assert QueueOk(s.q[Forward(s.q, rank, i)]);
  }

  /** Taking a message from a queue enables its writer exactly when someone has been refused and what is left
      is no more than the low-water mark; the refusal is forgotten then and only then. No other queue is
      enabled. */
  lemma DrainExact(s: Sys, rank: seq<nat>, i: nat)
    requires Sound(s) && Linked(s.q, rank) && i < |s.q| && ValidMsgs(s.q[i].msgs)
    ensures var s' := Get(s, rank, i); var b := Upstream(s.q, rank, i);
      && |s'.q| == |s.q| && ValidMsgs(s'.q[i].msgs)
      && (s'.q[i].qwantw <==> s.q[i].qwantw && s.q[i].lowat < Total(s'.q[i].msgs))
      && (b != -1 ==>
            (s'.q[b].qenab <==> s.q[b].qenab || (s.q[i].qwantw && Total(s'.q[i].msgs) <= s.q[i].lowat)))
      && forall k :: 0 <= k < |s.q| && k != b ==> s'.q[k].qenab == s.q[k].qenab
  {
    hide Weight, ValidMsg, InOrder, Upstream, Linked;
    assert QueueOk(s.q[i]);
    TakenOk(s.q[i]);
    var q := Taken(s.q[i]);
    var s1 := s.(q := s.q[i := if Drained(q) then q.(qwantw := false) else q]);
    SameLinks(s.q, s1.q, rank);
    SameUpstream(s.q, s1.q, rank, i);
    UpstreamIsOther(s, rank, i);
  }
}
