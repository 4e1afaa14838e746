/** A group of virtual terminals that share one line: the bits for the channels, and the output side of
    the multiplexer. */
module SxtLink {
  import opened SxtTurns

  /** As many channels as there may be. */
  const MAXPCHAN := 8

  const CPRES := 0x8000

  const EINVAL := 22

  // ----- the bits -----

  /** 1 shifted left by `i`. */
  function Bit(i: nat): bv8
    requires i < 8
  {
    if i == 0 then 0x01 else if i == 1 then 0x02 else if i == 2 then 0x04 else if i == 3 then 0x08
    else if i == 4 then 0x10 else if i == 5 then 0x20 else if i == 6 then 0x40 else 0x80
  }

  predicate Has(w: bv8, i: nat)
    requires i < 8
  {
    w & Bit(i) != 0
  }

  /** The mask has the bits of the first `n` channels. */
  predicate Mask(w: bv8, n: nat) {
    forall i: nat :: i < 8 ==> (Has(w, i) <==> i < n)
  }

  /** The channels with their bits in `w`. */
  function Bits(w: bv8): set<nat> {
    set i: nat | i < 8 && Has(w, i)
  }

  /** The channel of a bit, or -1. */
  function Channel(w: bv8): int {
    if w == 0x01 then 0 else if w == 0x02 then 1 else if w == 0x04 then 2 else if w == 0x08 then 3
    else if w == 0x10 then 4 else if w == 0x20 then 5 else if w == 0x40 then 6 else if w == 0x80 then 7 else -1
  }

  lemma ChannelOfBit(i: nat)
    requires i < 8
    ensures Channel(Bit(i)) == i && Channel(0) == -1
  {
  }

  lemma FullMask()
    ensures Mask(0xFF, 8) && Bits(0) == {}
  {
    OnlyBit(0, 0);
  }

  /** The last channel written, or -1. */
  predicate IsLast(w: bv8, last: int) {
    if last == -1 then w == 0 else 0 <= last < 8 && w == Bit(last)
  }

  lemma HalfBit(i: nat)
    requires i < 8
    ensures Bit(i) != 0 && Bit(i) >> 1 == if i == 0 then 0 else Bit(i - 1)
  {
  }

  lemma SetBit(w: bv8, k: nat)
    requires k < 8
    ensures Bits(w | Bit(k)) == Bits(w) + {k}
  {
    forall i: nat | i < 8 ensures Has(w | Bit(k), i) <==> Has(w, i) || i == k {
    }
  }

  lemma ClearBit(w: bv8, k: nat)
    requires k < 8
    ensures Bits(w & !Bit(k)) == Bits(w) - {k}
  {
    forall i: nat | i < 8 ensures Has(w & !Bit(k), i) <==> Has(w, i) && i != k {
    }
  }

  lemma OnlyBit(w: bv8, k: nat)
    requires k < 8
    ensures (w == Bit(k) <==> Bits(w) == {k}) && (w == 0 <==> Bits(w) == {})
  {
    forall i: nat | i < 8 ensures Has(Bit(k), i) <==> i == k {
    }
    assert Bits(Bit(k)) == {k};
    forall i: nat | i < 8 ensures !Has(0, i) {
    }
    assert Bits(0) == {};
    if Bits(w) == {k} || Bits(w) == {} {
      assert forall i: nat :: i < 8 ==> (Has(w, i) <==> i in Bits(w));
      SameBits(w, if Bits(w) == {} then 0 else Bit(k));
    }
  }

  lemma SameBits(w: bv8, v: bv8)
    requires forall i: nat :: i < 8 ==> (Has(w, i) <==> Has(v, i))
    ensures w == v
  {
    assert Has(w, 0) <==> Has(v, 0);
    assert Has(w, 1) <==> Has(v, 1);
    assert Has(w, 2) <==> Has(v, 2);
    assert Has(w, 3) <==> Has(v, 3);
    assert Has(w, 4) <==> Has(v, 4);
    assert Has(w, 5) <==> Has(v, 5);
    assert Has(w, 6) <==> Has(v, 6);
    assert Has(w, 7) <==> Has(v, 7);
  }

  /** The mask after one shift more. */
  lemma HalfMask(w: bv8, n: nat)
    requires Mask(w, n) && 0 < n <= 8
    ensures Mask(w >> 1, n - 1)
  {
    var v := w >> 1;
    forall i: nat | i < 8 ensures Has(v, i) <==> i < n - 1 {
      if i < 7 {
        assert Has(v, i) <==> Has(w, i + 1);
      }
    }
  }

  /** The next channel's bit: up by one, and from the mask's end to the beginning. */
  lemma NextBit(mask: bv8, n: nat, w: bv8, last: int)
    requires Mask(mask, n) && 0 < n <= 8 && IsLast(w, last) && last < n
    ensures var w' := (w << 1) & mask; (if w' == 0 then 1 else w') == Bit(Step(n, last))
  {
    if last != -1 && last + 1 < 8 {
      assert Has(mask, last + 1) <==> last + 1 < n;
      ShiftBit(mask, last);
    }
  }

  lemma ShiftBit(mask: bv8, i: nat)
    requires i + 1 < 8
    ensures (Bit(i) << 1) & mask == if Has(mask, i + 1) then Bit(i + 1) else 0
  {
  }

  /** The last channel has given its block up, and its bit if it has no more. */
  ghost function GivenUp(s: Mux): Mux {
    s.(pending := if GoesOn(s) then s.pending - {s.last} else s.pending, line := 0, freed := Freed(s))
  }

  lemma GivenUpInv(s: Mux)
    requires Inv(s) && (GoesOn(s) ==> s.queues[s.last] == [])
    ensures Inv(GivenUp(s)) && Out(s) == Others(GivenUp(s))
  {
    hide Find;
  }

  lemma OthersCases(s: Mux)
    requires Inv(s) && s.line == 0
    ensures var at := Find(s.pending, |s.queues|, s.last, |s.queues|);
      && Inv(Others(s).0)
      && Others(s) ==
         if s.pending == {} || at == -1 then (s.(last := -1), Idle)
         else if s.queues[at] != [] then
           (Mux(s.queues[at := s.queues[at][1..]], s.pending, at, 1, s.queues[at][0], s.freed),
            Sent(at, s.queues[at][0]))
         else (s.(pending := s.pending - {at}, last := -1), Lied(at))
  {
    OthersInv(s);
    hide Inv;
  }

  predicate Clear(v: seq<Block>, n: nat) {
    |v| == n && forall i :: 0 <= i < n ==> v[i] == 0
  }

  /** Nobody but `k` has a block. */
  predicate Holds(v: seq<Block>, n: nat, k: nat, block: Block) {
    |v| == n && forall i :: 0 <= i < n ==> v[i] == if i == k then block else 0
  }

  lemma OutCases(s: Mux)
    requires Inv(s) && s.last != -1
    ensures GoesOn(s) <==> !(s.count >= SXTHOG && s.pending != {s.last})
    ensures Freed(s) == s.freed + if s.line != 0 then [s.line] else []
    ensures GoesOn(s) && s.queues[s.last] != [] ==>
              Out(s).0 == Mux(s.queues[s.last := s.queues[s.last][1..]], s.pending, s.last,
                              if s.count >= SXTHOG then 1 else s.count + 1, s.queues[s.last][0], Freed(s))
    ensures GivenUp(s) ==
      Mux(s.queues, if GoesOn(s) then s.pending - {s.last} else s.pending, s.last, s.count, 0, Freed(s))
    ensures Inv(Out(s).0) && (!(GoesOn(s) && s.queues[s.last] != []) ==> Inv(GivenUp(s)))
  {
    OutInv(s);
    if GoesOn(s) ==> s.queues[s.last] == [] { GivenUpInv(s); }
    hide Inv, Others;
  }

  class Link {
    const nchans: nat
    const chanmask: bv8
    var wpending: bv8               // pending writes
    var lwchan: bv8                 // the bit of the channel that wrote last
    var wrcnt: nat                  // its writes
    var outq: seq<seq<Block>>       // the virtual terminals' output
    var vtbuf: seq<Block>           // and their buffers
    var tbuf: Block                 // the line's
    var cfree: seq<Block>           // the blocks given back

    ghost function Model(): Mux
      reads this
    {
      Mux(outq, Bits(wpending), Channel(lwchan), wrcnt, tbuf, cfree)
    }

    ghost predicate Valid()
      reads this
    {
      && 1 <= nchans <= MAXPCHAN && Mask(chanmask, nchans)
      && |outq| == nchans && Clear(vtbuf, nchans)
      && IsLast(lwchan, Channel(lwchan)) && Inv(Model())
    }

    /** What `SXTIOCLINK` sets up. */
    constructor (n: nat)
      requires 1 <= n <= MAXPCHAN
      ensures Valid() && nchans == n && Model() == Mux(seq(n, _ => []), {}, -1, 0, 0, [])
    {
      hide Mask, Bits;
      FullMask();
      nchans := n;
      var mask: bv8 := 0xFF;
      for i := n to MAXPCHAN
        invariant Mask(mask, 8 - (i - n))
      {
        HalfMask(mask, 8 - (i - n));
        mask := mask >> 1;
      }
      chanmask := mask;
      wpending, lwchan, wrcnt, tbuf, cfree := 0, 0, 0, 0, [];
      outq, vtbuf := seq(n, _ => []), seq(n, _ => 0);
    }

    /** Gives a block back. */
    method Putcf(block: Block)
      modifies `cfree
      ensures cfree == old(cfree) + [block]
    {
      cfree := cfree + [block];
    }

    /** The virtual terminal's `l_output`: gives the block in its buffer back and gets the next one. */
    method LOutput(k: nat) returns (retn: int)
      requires k < |outq| == |vtbuf|
      modifies `outq, `vtbuf, `cfree
      ensures cfree == old(cfree) + if old(vtbuf)[k] != 0 then [old(vtbuf)[k]] else []
      ensures retn == if old(outq)[k] != [] then CPRES else 0
      ensures if old(outq)[k] == [] then outq == old(outq) && vtbuf == old(vtbuf)[k := 0]
              else outq == old(outq)[k := old(outq)[k][1..]] && vtbuf == old(vtbuf)[k := old(outq)[k][0]]
    {
      if vtbuf[k] != 0 {
        Putcf(vtbuf[k]);
      }
      if outq[k] == [] {
        vtbuf := vtbuf[k := 0];
        return 0;
      }
      vtbuf := vtbuf[k := outq[k][0]];
      outq := outq[k := outq[k][1..]];
      retn := CPRES;
    }

    /** Gives back what a virtual terminal has in its buffer, and the line has nothing to send. */
    method Release(k: nat, ghost block: Block)
      requires k < nchans && Holds(vtbuf, nchans, k, block)
      modifies `vtbuf, `tbuf, `cfree
      ensures cfree == old(cfree) + if block != 0 then [block] else []
      ensures Clear(vtbuf, nchans) && tbuf == 0
    {
      if vtbuf[k] != 0 {
        Putcf(vtbuf[k]);
        vtbuf := vtbuf[k := 0];
      }
      tbuf := vtbuf[k];
    }

    /** The channel that the bit in `lwchan` stands for. */
    method Count() returns (cnt: nat)
      requires IsLast(lwchan, Channel(lwchan)) && lwchan != 0
      ensures cnt == Channel(lwchan) && cnt < 8 && lwchan == Bit(cnt)
    {
      cnt := 0;
      var tmp := lwchan;
      ghost var c: nat := Channel(lwchan);
      HalfBit(c);
      tmp := tmp >> 1;
      hide Bit;
      while tmp != 0
        invariant 0 <= cnt <= c < 8
        invariant tmp == if cnt == c then 0 else Bit(c - cnt - 1)
        decreases c - cnt
      {
        cnt := cnt + 1;
        HalfBit(c - cnt);
        tmp := tmp >> 1;
      }
      if cnt < c { HalfBit(c - cnt - 1); }
    }

    /** On to the next channel. */
    method Shift()
      requires 1 <= nchans <= MAXPCHAN && Mask(chanmask, nchans)
      requires IsLast(lwchan, Channel(lwchan)) && Channel(lwchan) < nchans
      modifies `lwchan
      ensures var d := Step(nchans, old(Channel(lwchan)));
        0 <= d < nchans && lwchan == Bit(d) && Channel(lwchan) == d && lwchan != 0
    {
      NextBit(chanmask, nchans, lwchan, Channel(lwchan));
      ghost var d := Step(nchans, Channel(lwchan));
      ChannelOfBit(d);
      HalfBit(d);
      hide *;
      lwchan := (lwchan << 1) & chanmask;
      if lwchan == 0 {
        lwchan := 1;
      }
    }

    /** Up to the next channel with pending output. */
    method Rotate() returns (cnt: nat)
      requires 1 <= nchans <= MAXPCHAN && Mask(chanmask, nchans)
      requires IsLast(lwchan, Channel(lwchan)) && Channel(lwchan) < nchans
      modifies `lwchan
      ensures var d := Find(Bits(wpending), nchans, old(Channel(lwchan)), nchans);
        if d == -1 then cnt >= nchans
        else cnt < nchans && d < 8 && lwchan == Bit(d) && Channel(lwchan) == d && lwchan != 0
    {
      ghost var goal := Find(Bits(wpending), nchans, Channel(lwchan), nchans);
      cnt := 0;
      hide Bit, Mask, Channel, Bits, Step, Has;
      while cnt < nchans
        invariant cnt <= nchans && IsLast(lwchan, Channel(lwchan)) && Channel(lwchan) < nchans
        invariant goal == Find(Bits(wpending), nchans, Channel(lwchan), nchans - cnt)
      {
        Shift();
        BitIn(wpending, Channel(lwchan));
        if wpending & lwchan != 0 {
          return;
        }
        cnt := cnt + 1;
      }
    }

    /** A channel's next buffer for the line, when it has `block` to give back. */
    method Yield(k: nat, block: Block) returns (retn: int)
      requires k < |outq| == nchans && Holds(vtbuf, nchans, k, block)
      modifies `outq, `vtbuf, `tbuf, `cfree
      ensures retn == (if old(outq)[k] != [] then CPRES else 0)
      ensures cfree == old(cfree) + if block != 0 then [block] else []
      ensures if old(outq)[k] == [] then outq == old(outq) && tbuf == 0
              else outq == old(outq)[k := old(outq)[k][1..]] && tbuf == old(outq)[k][0]
      ensures Clear(vtbuf, nchans)
    {
      retn := LOutput(k);
      if retn != 0 {
        tbuf := vtbuf[k];
        vtbuf := vtbuf[k := 0];
      } else {
        Release(k, 0);
      }
    }

    /** The second half of `sxtout`: the turn of another channel. */
    method NewTurn() returns (retn: int)
      requires Valid() && tbuf == 0
      modifies `outq, `vtbuf, `tbuf, `cfree, `wpending, `lwchan, `wrcnt
      ensures Valid() && Model() == Others(old(Model())).0 && (retn != 0 <==> Others(old(Model())).1.Sent?)
    {
      OthersCases(Model());
      OnlyBit(wpending, 0);
      ChannelOfBit(0);
      hide Bits, Has, Bit, Mask, Channel, Find, Inv, Others, Send, Freed;
      if wpending == 0 {
        lwchan := 0;
        return 0;
      }
      var cnt := Rotate();
      if cnt < nchans {
        var at := Count();
        assert Holds(vtbuf, nchans, at, 0);
        hide Clear, Holds;
        retn := Yield(at, 0);
        if retn != 0 {
          wrcnt := 1;
          return;
        }
        // no output after all
        ClearBit(wpending, at);
        wpending := wpending & !lwchan;
        lwchan := 0;
        return;
      }
      lwchan := 0;
      retn := 0;
    }

    /** The last channel's next buffer. */
    method GoOn(cnt: nat) returns (retn: int)
      requires Inv(Model()) && cnt == Channel(lwchan) && cnt < 8 && lwchan == Bit(cnt)
      requires |outq| == nchans && Holds(vtbuf, nchans, cnt, tbuf) && GoesOn(Model())
      modifies `outq, `vtbuf, `tbuf, `cfree, `wpending, `wrcnt
      ensures Clear(vtbuf, nchans) && (retn != 0 <==> old(outq)[cnt] != [])
      ensures Model() == if retn != 0 then Out(old(Model())).0 else GivenUp(old(Model()))
    {
      OutCases(Model());
      ClearBit(wpending, cnt);
      hide Bits, Has, Bit, Mask, Channel, Inv, Find, Others, Out, GoesOn, Send, GivenUp, Freed, Holds, Clear;
      retn := Yield(cnt, tbuf);
      if retn != 0 {
        // another buffer from this channel
        wrcnt := if wrcnt >= SXTHOG then 1 else wrcnt + 1;
      } else {
        // no more output of this channel
        wpending := wpending & !lwchan;
      }
    }

    /** The first half of `sxtout`: the channel that wrote last. */
    method Again() returns (retn: int)
      requires Valid() && lwchan != 0
      modifies `outq, `vtbuf, `tbuf, `cfree, `wpending, `wrcnt
      ensures Clear(vtbuf, nchans)
      ensures var s := old(Model()); var go := GoesOn(s) && s.queues[s.last] != [];
        (retn != 0 <==> go) && Model() == if go then Out(s).0 else GivenUp(s)
    {
      OutCases(Model());
      OnlyBit(wpending, Channel(lwchan));
      hide Bits, Has, Bit, Mask, Channel, Inv, Find, Others, Out, GoesOn, Send, GivenUp, Freed;
      var cnt := Count();
      vtbuf := vtbuf[cnt := tbuf];
      if wrcnt >= SXTHOG && wpending != lwchan {
        Release(cnt, tbuf);
        retn := 0;
      } else {
        retn := GoOn(cnt);
      }
    }

    /** `sxtout`: gives the line its next buffer. */
    method SxtOut() returns (retn: int)
      requires Valid()
      modifies this
      ensures Valid() && Model() == Out(old(Model())).0 && (retn != 0 <==> Out(old(Model())).1.Sent?)
    {
      ghost var s := Model();
      if lwchan != 0 {
        OutCases(s);
        retn := Again();
        if retn != 0 {
          return;
        }
        GivenUpInv(s);
      }
      hide Bits, Find, Inv, Mask, Others, GivenUp;
      retn := NewTurn();
    }

    /** Output for channel `k`, and the `T_OUTPUT` of `sxtvtproc`. */
    method TOutput(k: nat, blocks: seq<Block>)
      requires Valid() && k < nchans && 0 !in blocks
      modifies this
      ensures Valid() && Model() == Put(old(Model()), k, blocks)
    {
      PutInv(Model(), k, blocks);
      SetBit(wpending, k);
      hide Bits, Inv, Mask, Bit;
      outq := outq[k := outq[k] + blocks];
      wpending := wpending | Bit(k);
    }
  }

  /** `SXTIOCLINK`: a link for `data` channels. */
  method Sxtioclink(data: int) returns (error: int, lp: Link?)
    ensures (error == 0 <==> 1 <= data <= MAXPCHAN) && (error == 0 <==> lp != null)
    ensures lp != null ==> fresh(lp) && lp.Valid() && lp.nchans == data
  {
    if data > MAXPCHAN || data < 1 {
      return EINVAL, null;
    }
    lp := new Link(data);
    error := 0;
  }

  lemma BitIn(w: bv8, i: nat)
    requires i < 8
    ensures w & Bit(i) != 0 <==> i in Bits(w)
  {
  }
}
