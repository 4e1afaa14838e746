/** Message blocks and the data blocks that they share, with their free lists and reference counts. */
module StreamBlocks {

  const NCLASS := 9

  /** Message blocks and data blocks are numbered. `datap` is the data block of each message block in
      use, `dbref` the reference count of each data block, an unsigned char. */
  datatype Pool = Pool(mbfree: seq<nat>, dbfree: seq<seq<nat>>, dbref: seq<int>, dbclass: seq<nat>,
        datap: map<nat, nat>)

  function Rbsize(c: nat): nat
    requires c < NCLASS
  {
    [4, 16, 64, 128, 256, 512, 1024, 2048, 4096][c]
  }

  /** The message blocks that refer to data block `d`. */
  function Refs(datap: map<nat, nat>, d: nat): set<nat> {
    set b | b in datap && datap[b] == d
  }

  lemma RefIn(datap: map<nat, nat>, b: nat)
    requires b in datap
    ensures b in Refs(datap, datap[b])
  {
  }

  predicate Distinct(s: seq<nat>) {
    forall i, j :: 0 <= i < j < |s| ==> s[i] != s[j]
  }

  ghost predicate BlockOk(p: Pool, d: nat)
    requires d < |p.dbref| == |p.dbclass| && |p.dbfree| == NCLASS
  {
    && p.dbclass[d] < NCLASS && p.dbref[d] == |Refs(p.datap, d)| < 256
    && (d in p.dbfree[p.dbclass[d]] <==> Refs(p.datap, d) == {})
  }

  ghost predicate ListOk(p: Pool, c: nat)
    requires c < |p.dbfree| && |p.dbref| == |p.dbclass|
  {
    && Distinct(p.dbfree[c])
    && forall k :: 0 <= k < |p.dbfree[c]| ==> p.dbfree[c][k] < |p.dbref| && p.dbclass[p.dbfree[c][k]] == c
  }

  /** Every data block counts the message blocks that refer to it, and is on the free list of its
      class, once, exactly when there are none. Message blocks are free or in use. */
  ghost predicate Inv(p: Pool) {
    && |p.dbfree| == NCLASS && |p.dbref| == |p.dbclass|
    && (forall d :: 0 <= d < |p.dbref| ==> BlockOk(p, d))
    && (forall c :: 0 <= c < NCLASS ==> ListOk(p, c))
    && Distinct(p.mbfree) && (forall b :: b in p.datap ==> p.datap[b] < |p.dbref| && b !in p.mbfree)
  }

  // ----- steps -----

  function GetClass(size: int, c: nat): (r: nat)
    requires c <= NCLASS
    ensures c <= r <= NCLASS && (r < NCLASS ==> size <= Rbsize(r))
    decreases NCLASS - c
  {
    if c == NCLASS || size <= Rbsize(c) then c else GetClass(size, c + 1)
  }

  /** The free list that a block for `size` bytes comes from, or -1. */
  function Pick(p: Pool, size: int): (c: int)
    requires |p.dbfree| == NCLASS
    ensures c == -1 || (0 <= c < NCLASS && p.dbfree[c] != [] && size <= Rbsize(c))
  {
    var c := GetClass(size, 0);
    if c == NCLASS then -1
    else if p.dbfree[c] != [] then c
    else if c == NCLASS - 1 || p.dbfree[c + 1] == [] then -1
    else c + 1
  }

  /** Class `k` is the smallest that has room for `size` bytes, or the one above that. */
  predicate Near(k: int, size: int) {
    0 <= k < NCLASS && size <= Rbsize(k) && (k >= 2 ==> Rbsize(k - 2) < size)
  }

  /** A block comes from the smallest class that has room, or from the one above; there is none exactly when both
      have run out. */
  lemma PickExact(p: Pool, size: int)
    requires |p.dbfree| == NCLASS
    ensures var c := Pick(p, size);
      if c == -1 then forall k :: Near(k, size) ==> p.dbfree[k] == []
      else Near(c, size) && forall k :: Near(k, size) && k < c ==> p.dbfree[k] == []
  {
    ClassExact(size, 0);
    RbsizeGrows();
  }

  lemma {:induction false} ClassExact(size: int, c: nat)
    requires c <= NCLASS
    ensures forall k :: c <= k < GetClass(size, c) ==> Rbsize(k) < size
    decreases NCLASS - c
  {
    if c < NCLASS && size > Rbsize(c) { ClassExact(size, c + 1); }
  }

  lemma RbsizeGrows()
    ensures forall j, k :: 0 <= j < k < NCLASS ==> Rbsize(j) < Rbsize(k)
  {
  }

  /** A pool, and a message block or -1. */
  datatype Result = Result(p: Pool, b: int)

  /** A message block with a data block of its own, or -1. */
  function Allocb(p: Pool, size: int): Result
    requires Inv(p)
  {
    var c := Pick(p, size);
    if c == -1 then Result(p, -1)
    else
      var d := p.dbfree[c][0];
      if p.mbfree == [] then Result(p.(dbfree := p.dbfree[c := [d]]), -1)
      else
        assert ListOk(p, c);
        var b := p.mbfree[0];
        Result(p.(mbfree := p.mbfree[1..], dbfree := p.dbfree[c := p.dbfree[c][1..]], dbref := p.dbref[d := 1],
          datap := p.datap[b := d]), b)
  }

  /** Another message block for the data of `b`, or -1. */
  function Dupb(p: Pool, b: nat): Result
    requires Inv(p) && b in p.datap
  {
    if p.mbfree == [] then Result(p, -1)
    else
      var d, b' := p.datap[b], p.mbfree[0];
      Result(p.(mbfree := p.mbfree[1..], dbref := p.dbref[d := (p.dbref[d] + 1) % 256], datap := p.datap[b' := d]), b')
  }

  function Freeb(p: Pool, b: nat): Pool
    requires Inv(p) && b in p.datap
  {
    var d := p.datap[b];
    assert BlockOk(p, d);
    var c := p.dbclass[d];
    var p' := p.(mbfree := [b] + p.mbfree, datap := p.datap - {b});
    if p.dbref[d] <= 1 then p'.(dbref := p.dbref[d := 0], dbfree := p.dbfree[c := [d] + p.dbfree[c]])
    else p'.(dbref := p.dbref[d := p.dbref[d] - 1])
  }

  // ----- what they keep -----

  lemma RefsAdd(datap: map<nat, nat>, b: nat, d: nat)
    requires b !in datap
    ensures Refs(datap[b := d], d) == Refs(datap, d) + {b} && |Refs(datap[b := d], d)| == |Refs(datap, d)| + 1
    ensures forall e :: e != d ==> Refs(datap[b := d], e) == Refs(datap, e)
  {
    assert Refs(datap[b := d], d) == Refs(datap, d) + {b};
    forall e | e != d ensures Refs(datap[b := d], e) == Refs(datap, e) {}
  }

  lemma RefsDrop(datap: map<nat, nat>, b: nat)
    requires b in datap
    ensures var d := datap[b];
      Refs(datap - {b}, d) == Refs(datap, d) - {b} && |Refs(datap - {b}, d)| == |Refs(datap, d)| - 1
    ensures forall e :: e != datap[b] ==> Refs(datap - {b}, e) == Refs(datap, e)
  {
    var d := datap[b];
    assert Refs(datap - {b}, d) == Refs(datap, d) - {b};
    assert b in Refs(datap, d);
    forall e | e != d ensures Refs(datap - {b}, e) == Refs(datap, e) {}
  }

  lemma DistinctTail(s: seq<nat>)
    requires Distinct(s) && s != []
    ensures Distinct(s[1..]) && s[0] !in s[1..] && forall x :: x in s <==> x == s[0] || x in s[1..]
  {
    assert s == [s[0]] + s[1..];
  }

  /** A block that is handed out is large enough and has one reference, and nothing is lost: but when
      the message blocks have run out, all but the first of the free data blocks of the class are. */
  lemma AllocInv(p: Pool, size: int)
    requires Inv(p)
    ensures var Result(p', b) := Allocb(p, size); var c := Pick(p, size);
      && (Inv(p') <==> c == -1 || p.mbfree != [] || |p.dbfree[c]| == 1)
      && (b != -1 <==> c != -1 && p.mbfree != [])
      && (b != -1 ==>
            && 0 <= b && b !in p.datap && b in p'.datap && p'.datap == p.datap[b := p'.datap[b]]
            && p'.datap[b] < |p.dbclass| && Refs(p.datap, p'.datap[b]) == {} && Refs(p'.datap, p'.datap[b]) == {b}
            && p.dbclass[p'.datap[b]] < NCLASS && size <= Rbsize(p.dbclass[p'.datap[b]]))
  {
    var Result(p', b) := Allocb(p, size);
    var c := Pick(p, size);
    if c != -1 && p.mbfree != [] {
      AllocTakes(p, size);
    } else if c != -1 {
      AllocLoses(p, size);
    }
  }

  lemma AllocTakes(p: Pool, size: int)
    requires Inv(p) && Pick(p, size) != -1 && p.mbfree != []
    ensures var Result(p', b) := Allocb(p, size);
      && Inv(p') && b == p.mbfree[0] && b !in p.datap && b in p'.datap && p'.datap == p.datap[b := p'.datap[b]]
      && p'.datap[b] < |p.dbclass| && Refs(p.datap, p'.datap[b]) == {} && Refs(p'.datap, p'.datap[b]) == {b}
      && p.dbclass[p'.datap[b]] < NCLASS && size <= Rbsize(p.dbclass[p'.datap[b]])
  {
    hide Refs;
    var c := Pick(p, size);
    assert ListOk(p, c);
    var Result(p', b) := Allocb(p, size);
    var d := p.dbfree[c][0];
    assert BlockOk(p, d);
    RefsAdd(p.datap, b, d);
    DistinctTail(p.mbfree);
    DistinctTail(p.dbfree[c]);
    forall e | 0 <= e < |p'.dbref| ensures BlockOk(p', e) { assert BlockOk(p, e); }
    forall k | 0 <= k < NCLASS ensures ListOk(p', k) { assert ListOk(p, k); }
    forall b' | b' in p'.datap ensures p'.datap[b'] < |p'.dbref| && b' !in p'.mbfree {}
  }

  lemma AllocLoses(p: Pool, size: int)
    requires Inv(p) && Pick(p, size) != -1 && p.mbfree == []
    ensures Inv(Allocb(p, size).p) <==> |p.dbfree[Pick(p, size)]| == 1
  {
    var c := Pick(p, size);
    assert ListOk(p, c);
    assert |p.dbfree[c]| > 1 ==> p.dbfree[c][0] != p.dbfree[c][1];
    hide Refs, Distinct;
    var p', d := Allocb(p, size).p, p.dbfree[c][0];
    if |p.dbfree[c]| == 1 {
      assert p.dbfree[c] == [d];
      assert p.dbfree[c := [d]] == p.dbfree;
    } else {
      var e := p.dbfree[c][1];
      assert BlockOk(p, e) && e in p.dbfree[c];
      assert !BlockOk(p', e);
    }
  }

  /** Another reference is right as long as the count fits its field. */
  lemma DupInv(p: Pool, b: nat)
    requires Inv(p) && b in p.datap
    ensures var Result(p', b') := Dupb(p, b); var d := p.datap[b];
      && (Inv(p') <==> p.mbfree == [] || |Refs(p.datap, d)| < 255)
      && (b' != -1 ==> 0 <= b' && b' !in p.datap && p'.datap == p.datap[b' := d])
      && (b' == -1 <==> p.mbfree == [])
  {
    hide Refs;
    if p.mbfree != [] {
      var Result(p', b') := Dupb(p, b);
      var d := p.datap[b];
      assert BlockOk(p, d);
      RefsAdd(p.datap, b', d);
      DistinctTail(p.mbfree);
      if |Refs(p.datap, d)| < 255 {
        RefIn(p.datap, b);
        RefIn(p'.datap, b);
        forall e | 0 <= e < |p'.dbref| ensures BlockOk(p', e) { assert BlockOk(p, e); }
        forall k | 0 <= k < NCLASS ensures ListOk(p', k) { assert ListOk(p, k); }
      } else {
        assert !BlockOk(p', d);
      }
    }
  }

  /** Freeing gives back the message block, and the data block with its last reference. */
  lemma FreeInv(p: Pool, b: nat)
    requires Inv(p) && b in p.datap
    ensures var p' := Freeb(p, b); var d := p.datap[b];
      && Inv(p') && p'.datap == p.datap - {b} && p'.mbfree == [b] + p.mbfree
      && d < |p.dbclass| && p.dbclass[d] < NCLASS && |p'.dbfree| == NCLASS
      && (d in p'.dbfree[p.dbclass[d]] <==> Refs(p.datap, d) == {b})
  {
    hide Refs;
    var p', d := Freeb(p, b), p.datap[b];
    assert BlockOk(p, d);
    RefIn(p.datap, b);
    RefsDrop(p.datap, b);
    OnlyOne(Refs(p.datap, d), b);
    forall e | 0 <= e < |p'.dbref| ensures BlockOk(p', e) { assert BlockOk(p, e); }
    forall k | 0 <= k < NCLASS ensures ListOk(p', k) { assert ListOk(p, k); }
    assert BlockOk(p', d);
  }

  lemma OnlyOne(s: set<nat>, b: nat)
    requires b in s
    ensures |s| >= 1 && (|s| == 1 <==> s == {b}) && (s - {b} == {} <==> s == {b})
  {
    assert s == (s - {b}) + {b};
  }

  // ----- whole messages -----

  /** How often the message blocks `msg` refer to data block `d`. */
  function Uses(datap: map<nat, nat>, msg: seq<nat>, d: nat): nat {
    if msg == [] then 0
    else Uses(datap, msg[..|msg| - 1], d) + if msg[|msg| - 1] in datap && datap[msg[|msg| - 1]] == d then 1 else 0
  }

  lemma {:induction false} UsesGrow(datap: map<nat, nat>, msg: seq<nat>, k: nat, d: nat)
    requires k <= |msg|
    ensures Uses(datap, msg[..k], d) <= Uses(datap, msg, d)
    decreases |msg|
  {
    if k < |msg| {
      UsesGrow(datap, msg[..|msg| - 1], k, d);
      assert msg[..|msg| - 1][..k] == msg[..k];
    } else {
      assert msg[..k] == msg;
    }
  }

  /** Every data block of the message can bear as many references more. */
  ghost predicate RoomFor(datap: map<nat, nat>, msg: seq<nat>) {
    forall b :: b in msg && b in datap ==> |Refs(datap, datap[b])| + Uses(datap, msg, datap[b]) <= 255
  }

  /** The blocks `copy` are new, and refer to what the first blocks of `msg` refer to. */
  ghost predicate Copies(datap: map<nat, nat>, datap': map<nat, nat>, msg: seq<nat>, copy: seq<nat>) {
    && |copy| <= |msg| && Distinct(copy) && (forall k :: 0 <= k < |copy| ==> copy[k] !in datap && copy[k] in datap')
    && (forall k :: 0 <= k < |copy| ==> msg[k] in datap && datap'[copy[k]] == datap[msg[k]])
    && (forall b :: b in datap' <==> b in datap || b in copy) && (forall b :: b in datap ==> datap'[b] == datap[b])
    && forall d :: |Refs(datap', d)| == |Refs(datap, d)| + Uses(datap, msg[..|copy|], d)
  }

  class Blocks {
    var mbfreelist: seq<nat>
    var dbfreelist: seq<seq<nat>>
    var db_ref: seq<int>
    const db_class: seq<nat>
    var b_datap: map<nat, nat>

    function P(): Pool
      reads this
    {
      Pool(mbfreelist, dbfreelist, db_ref, db_class, b_datap)
    }

    ghost predicate Valid()
      reads this
    {
      Inv(P())
    }

    constructor (p: Pool)
      requires Inv(p)
      ensures Valid() && P() == p
    {
      mbfreelist, dbfreelist, db_ref, db_class, b_datap := p.mbfree, p.dbfree, p.dbref, p.dbclass, p.datap;
    }

    /** `allocb`. */
    method Alloc(size: int) returns (b: int)
      requires Valid()
      modifies this
      ensures Result(P(), b) == Allocb(old(P()), size)
    {
      var c := 0;
      while c < NCLASS && size > Rbsize(c)
        invariant 0 <= c <= NCLASS && GetClass(size, c) == GetClass(size, 0)
      {
        c := c + 1;
      }
      if c >= NCLASS {
        return -1;
      }
      if dbfreelist[c] == [] {
        if c == NCLASS - 1 {
          return -1;
        }
        c := c + 1;
        if dbfreelist[c] == [] {
          return -1;
        }
      }
      var databp := dbfreelist[c][0];
      assert ListOk(P(), c);
      if mbfreelist == [] {
        // the block goes back, but not those behind it
        dbfreelist := dbfreelist[c := [databp]];
        return -1;
      }
      dbfreelist := dbfreelist[c := dbfreelist[c][1..]];
      b := mbfreelist[0];
      mbfreelist := mbfreelist[1..];
      b_datap := b_datap[b := databp];
      db_ref := db_ref[databp := 1];
    }

    /** `dupb`. */
    method Dup(bp: nat) returns (b: int)
      requires Valid() && bp in b_datap
      modifies this
      ensures Result(P(), b) == Dupb(old(P()), bp)
    {
      if mbfreelist == [] {
        return -1;
      }
      b := mbfreelist[0];
      mbfreelist := mbfreelist[1..];
      var databp := b_datap[bp];
      b_datap := b_datap[b := databp];
      db_ref := db_ref[databp := (db_ref[databp] + 1) % 256];
    }

    /** `freeb`. */
    method Free(bp: nat)
      requires Valid() && bp in b_datap
      modifies this
      ensures P() == Freeb(old(P()), bp)
    {
      var databp := b_datap[bp];
      assert BlockOk(P(), databp);
      var c := db_class[databp];
      mbfreelist := [bp] + mbfreelist;
      if db_ref[databp] <= 1 {
        db_ref := db_ref[databp := 0];
        dbfreelist := dbfreelist[c := [databp] + dbfreelist[c]];
      } else {
        db_ref := db_ref[databp := db_ref[databp] - 1];
      }
      b_datap := b_datap - {bp};
    }

    /** Frees all blocks of a message. */
    method Freemsg(msg: seq<nat>)
      requires Valid() && Distinct(msg) && forall b :: b in msg ==> b in b_datap
      modifies this
      ensures Valid() && b_datap == old(b_datap) - (set b | b in msg) && |mbfreelist| == |old(mbfreelist)| + |msg|
    {
      hide Inv;
      var k := 0;
      while k < |msg|
        invariant 0 <= k <= |msg| && Valid() && b_datap == old(b_datap) - (set b | b in msg[..k])
        invariant |mbfreelist| == |old(mbfreelist)| + k
      {
        FreeInv(P(), msg[k]);
        Free(msg[k]);
        assert msg[..k + 1] == msg[..k] + [msg[k]];
        k := k + 1;
      }
      assert msg[..k] == msg;
    }

    /** A message of new blocks for the same data, if there are enough message blocks; otherwise those
        that were found are freed again, and all is as before. */
    method Dupmsg(msg: seq<nat>) returns (ok: bool, copy: seq<nat>)
      requires Valid() && msg != [] && (forall b :: b in msg ==> b in b_datap) && RoomFor(b_datap, msg)
      modifies this
      ensures Valid() && (ok <==> |msg| <= |old(mbfreelist)|)
      ensures if ok then |copy| == |msg| && Copies(old(b_datap), b_datap, msg, copy)
              else b_datap == old(b_datap) && |mbfreelist| == |old(mbfreelist)|
    {
      hide Inv, Refs;
      copy := [];
      var k := 0;
      while k < |msg|
        invariant 0 <= k == |copy| <= |msg| && Valid() && Copies(old(b_datap), b_datap, msg, copy)
        invariant |mbfreelist| == |old(mbfreelist)| - k
      {
        var bp := msg[k];
        CanDup(old(b_datap), b_datap, msg, copy);
        DupInv(P(), bp);
        ghost var before := b_datap;
        var b := Dup(bp);
        if b == -1 {
          Freemsg(copy);
          assert b_datap == old(b_datap);
          return false, [];
        }
        MoreCopies(old(b_datap), before, msg, copy, b);
        copy := copy + [b];
        k := k + 1;
      }
      ok := true;
    }
  }

  lemma CanDup(datap: map<nat, nat>, datap': map<nat, nat>, msg: seq<nat>, copy: seq<nat>)
    requires Copies(datap, datap', msg, copy) && |copy| < |msg| && RoomFor(datap, msg)
    requires forall b :: b in msg ==> b in datap
    ensures var b := msg[|copy|]; b in datap' && |Refs(datap', datap'[b])| < 255
  {
    hide Refs;
    var k, b := |copy|, msg[|copy|];
    var d := datap[b];
    UsesGrow(datap, msg, k + 1, d);
    assert msg[..k + 1][..k] == msg[..k];
  }

  lemma MoreCopies(datap: map<nat, nat>, datap': map<nat, nat>, msg: seq<nat>, copy: seq<nat>, b: nat)
    requires Copies(datap, datap', msg, copy) && |copy| < |msg| && b !in datap' && msg[|copy|] in datap
    ensures Copies(datap, datap'[b := datap[msg[|copy|]]], msg, copy + [b])
  {
    hide Refs;
    var k, d := |copy|, datap[msg[|copy|]];
    RefsAdd(datap', b, d);
    assert msg[..k + 1][..k] == msg[..k];
    forall i | 0 <= i < k ensures (copy + [b])[i] != b { assert copy[i] in datap'; }
  }

  // ----- what goes wrong when the blocks run out -----

  /** A pool of `m` message blocks and `n` data blocks, all free and of the smallest class. */
  function Few(m: nat, n: nat): Pool {
    Pool(seq(m, i => i), seq(NCLASS, c => if c == 0 then seq(n, i => i) else []), seq(n, _ => 0), seq(n, _ => 0), map[])
  }

  lemma FewInv(m: nat, n: nat)
    ensures Inv(Few(m, n))
  {
    var p := Few(m, n);
    forall d | 0 <= d < n ensures BlockOk(p, d) {
      assert p.dbfree[0][d] == d && Refs(p.datap, d) == {};
    }
  }

  /** One message block and three data blocks: the second allocation fails and loses a data block. */
  lemma AllocLosesBlock()
    ensures Inv(Few(1, 3)) && Inv(Allocb(Few(1, 3), 4).p)
    ensures !Inv(Allocb(Allocb(Few(1, 3), 4).p, 4).p)
  {
    FewInv(1, 3);
    AllocInv(Few(1, 3), 4);
    var p := Allocb(Few(1, 3), 4).p;
    assert p.mbfree == [] && p.dbfree[0] == [1, 2];
    AllocInv(p, 4);
  }

  /** `n` more message blocks for the data of `b`. */
  ghost function DupTimes(p: Pool, b: nat, n: nat): Pool
    requires Inv(p) && b in p.datap && |p.mbfree| >= n && |Refs(p.datap, p.datap[b])| + n <= 256
    decreases n
  {
    if n == 0 then p
    else
      DupInv(p, b);
      DupCounts(p, b);
      if |Refs(p.datap, p.datap[b])| == 255 then Dupb(p, b).p else DupTimes(Dupb(p, b).p, b, n - 1)
  }

  lemma DupCounts(p: Pool, b: nat)
    requires Inv(p) && b in p.datap && p.mbfree != []
    ensures var p' := Dupb(p, b).p; var d := p.datap[b];
      && b in p'.datap && p'.datap[b] == d
      && |Refs(p'.datap, d)| == |Refs(p.datap, d)| + 1 && |p'.mbfree| == |p.mbfree| - 1
  {
    assert p.mbfree[0] in p.mbfree;
    RefsAdd(p.datap, p.mbfree[0], p.datap[b]);
  }

  /** The 256th reference makes the count zero. */
  lemma {:induction false} DupOverflows(p: Pool, b: nat, n: nat)
    requires Inv(p) && b in p.datap && |p.mbfree| >= n > 0 && |Refs(p.datap, p.datap[b])| + n == 256
    ensures var p' := DupTimes(p, b, n); !Inv(p') && p.datap[b] < |p'.dbref| && p'.dbref[p.datap[b]] == 0
    decreases n
  {
    DupInv(p, b);
    DupCounts(p, b);
    assert BlockOk(p, p.datap[b]);
    hide Inv, Refs;
    if n > 1 { DupOverflows(Dupb(p, b).p, b, n - 1); }
  }

  /** A block allocated from a fresh pool, and 255 more references to its data. */
  lemma DupRunOverflows()
    ensures Inv(Few(256, 1))
    ensures var r := Allocb(Few(256, 1), 4);
      && Inv(r.p) && r.b == 0 && 0 in r.p.datap && |r.p.mbfree| == 255 && Refs(r.p.datap, r.p.datap[0]) == {0}
      && !Inv(DupTimes(r.p, 0, 255))
  {
    FewInv(256, 1);
    AllocInv(Few(256, 1), 4);
    var r := Allocb(Few(256, 1), 4);
    assert r.b == 0 && |r.p.mbfree| == 255;
    hide Allocb, Refs, Inv;
    DupOverflows(r.p, 0, 255);
  }
}
