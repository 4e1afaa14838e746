/** The operations on stream queues. */
module Streams {
  import opened StreamQueue
  import opened StreamRun

  datatype Got = NoMsg | Message(m: Msg)

  class Queues {
    var q: seq<Queue>
    var run: seq<nat>           // the queues to run, from `qhead` to `qtail`
    ghost var serving: int      // the queue whose service procedure was called last, or -1
    ghost const rank: seq<nat>

    ghost function St(): State
      reads this
    {
      State(Sys(q, run), serving)
    }

    ghost predicate Valid()
      reads this
    {
      Inv(St(), rank)
    }

    constructor (q: seq<Queue>, ghost rank: seq<nat>)
      requires Inv(State(Sys(q, []), -1), rank)
      ensures Valid() && St() == State(Sys(q, []), -1) && this.rank == rank
    {
      this.q, this.run, this.serving, this.rank := q, [], -1, rank;
    }

    /** The weighted size of a message, block by block. */
    method MsgWeight(m: Msg) returns (w: nat)
      requires ValidMsg(m)
      ensures w == Weight(m)
    {
      w := 0;
      var k := 0;
      assert m.blocks[0..] == m.blocks;
      while k < |m.blocks|
        invariant 0 <= k <= |m.blocks| && w + BlocksWeight(m.blocks[k..]) == Weight(m)
      {
        w := w + Bsize(m.blocks[k]);
        k := k + 1;
      }
    }

    method Qenable(i: nat)
      requires i < |q|
      modifies this`q, this`run
      ensures Sys(q, run) == Enable(old(Sys(q, run)), i)
    {
      if !q[i].srvp || q[i].qenab {
        return;
      }
      q := q[i := q[i].(qenab := true)];
      run := run + [i];
    }

    /** Counts message `m`, which is among the messages `ms` of queue `i` now, and enables the queue
        where that is called for. */
    method Count(i: nat, ms: seq<Msg>, m: Msg)
      requires i < |q| && ValidMsg(m)
      modifies this`q, this`run
      ensures var s1 := Sys(old(q)[i := Added(old(q)[i], ms, m)], old(run));
        Sys(q, run) == if Wakes(old(q)[i], m) then Enable(s1, i) else s1
    {
      hide ValidMsg, Weight, QueClass;
      var w := MsgWeight(m);
      q := q[i := q[i].(msgs := ms, count := q[i].count + w)];
      if q[i].count >= q[i].hiwat {
        q := q[i := q[i].(qfull := true)];
      }
      assert q == old(q)[i := Added(old(q)[i], ms, m)];
      if !q[i].qnoenb && (QueClass(m) > QNORM || q[i].qwantr) {
        Qenable(i);
      }
    }

    lemma Facts(i: nat)
      requires Valid() && i < |q|
      ensures QueueOk(q[i]) && ValidMsgs(q[i].msgs) && InOrder(q[i].msgs) && Linked(q, rank)
    {
      assert QueueOk(St().s.q[i]);
    }

    /** Puts a message on a queue. */
    method Putq(i: nat, bp: Msg)
      requires Valid() && i < |q| && ValidMsg(bp)
      modifies this`q, this`run
      ensures Valid() && St() == Step(old(St()), rank, PutEvent(i, bp))
    {
      hide Inv, QueClass, ValidMsg, ValidMsgs, QueueOk, Linked;
      Facts(i);
      StepInv(St(), rank, PutEvent(i, bp));
      var ms := q[i].msgs;
      var mcls := QueClass(bp);
      ghost var k := PutLastPlace(ms, bp);
      if ms == [] || mcls <= QueClass(ms[|ms| - 1]) {
        LastPlace(ms, bp, k);
        ms := ms + [bp];
      } else {
        var n := 0;
        while QueClass(ms[n]) >= mcls
          invariant 0 <= n <= k < |ms|
          decreases k - n
        {
          n := n + 1;
        }
        ms := ms[..n] + [bp] + ms[n..];
      }
      Count(i, ms, bp);
    }

    /** Puts a message back on a queue. */
    method Putbq(i: nat, bp: Msg)
      requires Valid() && i < |q| && ValidMsg(bp)
      modifies this`q, this`run
      ensures Valid() && St() == Step(old(St()), rank, PutBackEvent(i, bp))
    {
      hide Inv, QueClass, ValidMsg, ValidMsgs, QueueOk, Linked;
      Facts(i);
      StepInv(St(), rank, PutBackEvent(i, bp));
      var ms := q[i].msgs;
      var mcls := QueClass(bp);
      ghost var k := PutFirstPlace(ms, bp);
      if ms == [] || mcls >= QueClass(ms[0]) {
        FirstPlace(ms, bp, k);
        ms := [bp] + ms;
      } else {
        var n := 0;
        while n + 1 < |ms| && QueClass(ms[n + 1]) > mcls
          invariant 0 <= n < k <= |ms|
        {
          n := n + 1;
        }
        ms := ms[..n + 1] + [bp] + ms[n + 1..];
      }
      Count(i, ms, bp);
    }

    /** Enables the nearest queue back that has a service procedure. */
    method EnableBack(i: nat)
      requires Linked(q, rank) && i < |q|
      modifies this`q, this`run
      ensures Sys(q, run) == EnableWriter(old(Sys(q, run)), rank, i)
    {
      var b := FindBack(q, rank, i);
      if b != -1 {
        Qenable(b);
      }
    }

    /** Takes the first message off a queue. */
    method Getq(i: nat) returns (r: Got)
      requires Valid() && i < |q|
      modifies this`q, this`run
      ensures Valid() && St() == Step(old(St()), rank, GetEvent(i))
      ensures r == if old(q)[i].msgs == [] then NoMsg else Message(old(q)[i].msgs[0])
    {
      hide Inv, ValidMsg, Linked, InOrder, Upstream;
      Facts(i);
      StepInv(St(), rank, GetEvent(i));
      ghost var q0 := q;
      r := Unlink(i);
      if q[i].count <= q[i].lowat && q[i].qwantw {
        q := q[i := q[i].(qwantw := false)];
        assert q == q0[i := Taken(q0[i]).(qwantw := false)];
        SameLinks(q0, q, rank);
        EnableBack(i);
      }
    }

    /** Takes the first message off a queue, or notes that there is none. */
    method Unlink(i: nat) returns (r: Got)
      requires i < |q| && ValidMsgs(q[i].msgs)
      modifies this`q
      ensures q == old(q)[i := Taken(old(q)[i])]
      ensures r == if old(q)[i].msgs == [] then NoMsg else Message(old(q)[i].msgs[0])
    {
      hide Weight;
      if q[i].msgs == [] {
        r := NoMsg;
        q := q[i := q[i].(qwantr := true)];
      } else {
        var bp := q[i].msgs[0];
        r := Message(bp);
        var w := MsgWeight(bp);
        q := q[i := q[i].(msgs := q[i].msgs[1..], count := q[i].count - w)];
        if q[i].count < q[i].hiwat {
          q := q[i := q[i].(qfull := false)];
        }
        q := q[i := q[i].(qwantr := false)];
      }
    }

    /** Tells whether the nearest queue with a service procedure, from `i` on, has room; if not it
        remembers that someone wants to write. */
    method Canput(i: nat) returns (ok: bool)
      requires Valid() && i < |q|
      modifies this`q
      ensures Valid() && St() == Step(old(St()), rank, CanPutEvent(i))
      ensures ok == CanPut(old(St()).s, rank, i).1
    {
      hide Inv, QueueOk, Linked;
      Facts(i);
      StepInv(St(), rank, CanPutEvent(i));
      var f := FindForward(q, rank, i);
      if q[f].qfull {
        q := q[f := q[f].(qwantw := true)];
        return false;
      }
      ok := true;
    }

    /** Empties a queue, but for the messages that are not data if `flag` is not set. */
    method Flushq(i: nat, flag: bool)
      requires Valid() && i < |q|
      modifies this`q, this`run
      ensures Valid() && St() == Step(old(St()), rank, FlushEvent(i, flag))
    {
      hide Inv, QueueOk, Linked, Upstream, Put, ValidMsg, Left, Asleep;
      Facts(i);
      StepInv(St(), rank, FlushEvent(i, flag));
      EmptiedInv(St(), rank, i);
      var ms := q[i].msgs;
      ghost var s0 := St().s;
      ghost var n := |q|;
      q := q[i := Emptied(q[i])];
      ghost var s1 := St().s;
      LeftValid(ms, flag);
      var k := 0;
      assert ms[0..] == ms;
      while k < |ms|
        invariant 0 <= k <= |ms| && Valid() && |q| == n && ValidMsgs(Left(ms[k..], flag)) && serving == old(serving)
        invariant Reput(St().s, i, Left(ms[k..], flag)) == Reput(s1, i, Left(ms, flag))
      {
        var bp := ms[k];
        LeftStep(ms, k, flag);
        if bp.typ != M_DATA && !flag {
          ReputStep(St().s, i, Left(ms[k..], flag));
          PutShape(St().s, i, bp);
          Putq(i, bp);
        }
        k := k + 1;
      }
      assert ms[k..] == [];
      LeftNone(flag);
      Facts(i);
      if q[i].count <= q[i].lowat && q[i].qwantw {
        EnableBack(i);
      }
    }

    /** Takes the next queue to run off the list; its service procedure is called then. */
    method NextRun() returns (i: nat)
      requires Valid() && Legal(St(), RunEvent)
      modifies this
      ensures Valid() && St() == Step(old(St()), rank, RunEvent) && i == old(run)[0]
    {
      assert run[0] < |q|;
      hide Inv, Asleep;
      StepInv(St(), rank, RunEvent);
      i := run[0];
      run := run[1..];
      q := q[i := q[i].(qenab := false)];
      serving := i;
    }
  }

  /** A message that does not belong before the last goes to the end. */
  lemma LastPlace(ms: seq<Msg>, m: Msg, k: nat)
    requires InOrder(ms) && k <= |ms| && (ms != [] ==> QueClass(m) <= QueClass(ms[|ms| - 1]))
    requires k < |ms| ==> QueClass(ms[k]) < QueClass(m)
    ensures k == |ms| && ms[..k] + [m] + ms[k..] == ms + [m]
  {
    assert k < |ms| - 1 ==> QueClass(ms[k]) >= QueClass(ms[|ms| - 1]);
  }

  lemma FirstPlace(ms: seq<Msg>, m: Msg, k: nat)
    requires k <= |ms| && (ms != [] ==> QueClass(m) >= QueClass(ms[0]))
    requires forall i :: 0 <= i < k ==> QueClass(ms[i]) > QueClass(m)
    ensures k == 0 && ms[..k] + [m] + ms[k..] == [m] + ms
  {
  }

  /** Walks back to the nearest queue that has a service procedure. */
  method FindBack(q: seq<Queue>, ghost rank: seq<nat>, i: nat) returns (b: int)
    requires Linked(q, rank) && i < |q|
    ensures b == Upstream(q, rank, i)
  {
    assert |q| % 2 == 0;
    hide Linked, OtherQ, BackQ;
    b := BackQ(q, i);
    ghost var at: int := i;
    if b != -1 { BackIs(q, rank, i); }
    while b != -1 && !q[b].srvp
      invariant -1 <= b < |q| && 0 <= at < |q| && b == BackQ(q, at) && (b != -1 ==> rank[b] < rank[at])
      invariant |rank| == |q| && Upstream(q, rank, i) == Upstream(q, rank, at)
      decreases rank[at]
    {
      at := b;
      b := BackQ(q, b);
      if b != -1 { BackIs(q, rank, at); }
    }
  }

  /** Walks on to the nearest queue that has a service procedure, or the last. */
  method FindForward(q: seq<Queue>, ghost rank: seq<nat>, i: nat) returns (f: nat)
    requires Linked(q, rank) && i < |q|
    ensures f == Forward(q, rank, i)
  {
    f := i;
    while q[f].next != -1 && !q[f].srvp
      invariant f < |q| && Forward(q, rank, f) == Forward(q, rank, i)
      decreases |q| - rank[f]
    {
      assert LinkOk(q, rank, f);
      f := q[f].next;
    }
  }

  lemma EmptiedInv(st: State, rank: seq<nat>, i: nat)
    requires Inv(st, rank) && i < |st.s.q|
    ensures Inv(st.(s := st.s.(q := st.s.q[i := Emptied(st.s.q[i])])), rank)
  {
    hide Linked;
    assert QueueOk(st.s.q[i]);
    assert QueueOk(Emptied(st.s.q[i]));
    ReplaceSound(st.s, i, Emptied(st.s.q[i]));
    SameLinks(st.s.q, st.s.q[i := Emptied(st.s.q[i])], rank);
  }

  lemma LeftNone(all: bool)
    ensures Left([], all) == []
  {
  }

  lemma LeftStep(ms: seq<Msg>, k: nat, all: bool)
    requires k < |ms| && ValidMsgs(Left(ms[k..], all))
    ensures !(ms[k].typ != M_DATA && !all) ==> Left(ms[k..], all) == Left(ms[k + 1..], all)
    ensures ValidMsgs(Left(ms[k + 1..], all))
    ensures ms[k].typ != M_DATA && !all ==>
      Left(ms[k..], all) != [] && ValidMsg(ms[k])
    ensures ms[k].typ != M_DATA && !all ==>
      Left(ms[k..], all)[0] == ms[k] && Left(ms[k..], all)[1..] == Left(ms[k + 1..], all)
  {
    hide ValidMsg;
    assert ms[k..][1..] == ms[k + 1..];
    var l := Left(ms[k..], all);
    var l' := Left(ms[k + 1..], all);
    var d := |l| - |l'|;
    forall j | 0 <= j < |l'| ensures l'[j] == l[d + j] {}
    assert d == 1 ==> ValidMsg(l[0]) && l[1..] == l';
  }

  lemma ReputStep(s: Sys, i: nat, ms: seq<Msg>)
    requires i < |s.q| && ValidMsgs(ms) && ms != []
    ensures ValidMsg(ms[0]) && ValidMsgs(ms[1..]) && |Put(s, i, ms[0]).q| == |s.q|
    ensures Reput(s, i, ms) == Reput(Put(s, i, ms[0]), i, ms[1..])
  {
    hide ValidMsg;
  }

  lemma PutShape(s: Sys, i: nat, m: Msg)
    requires i < |s.q| && ValidMsg(m)
    ensures |Put(s, i, m).q| == |s.q|
  {
  }
}
