/** The directory name cache: slots on a list by last use and, when in use, on a hash chain. */
module NameCache {

  const NC_SIZE := 32
  const NC_HASH_SIZE := 8
  const NC_NAMLEN := 15
  const ANYCRED := -1
  const NOCRED := 0

  /** A vnode, or 0. */
  type Vnode = nat

  /** Name `name` in directory `dp` is vnode `vp`, for the holder of credentials `cred`. An unused slot
      has no directory. */
  datatype Slot = Slot(dp: Vnode, name: seq<char>, vp: Vnode, cred: int)

  /** `lru` is the list by last use, `chains` the hash chains; `held` and `crheld` are the holds that
      the cache has on vnodes and on credentials. */
  datatype Cache = Cache(slots: seq<Slot>, lru: seq<nat>, chains: seq<seq<nat>>, held: multiset<Vnode>,
        crheld: multiset<int>)

  function Hash(name: seq<char>, dp: Vnode): (h: nat)
    requires name != []
    ensures h < NC_HASH_SIZE
  {
    (name[0] as int + name[|name| - 1] as int + |name| + dp) % NC_HASH_SIZE
  }

  predicate Used(s: Slot) {
    s.dp != 0
  }

  predicate Matches(s: Slot, dp: Vnode, name: seq<char>, cred: int) {
    s.dp == dp && s.name == name && (cred == ANYCRED || s.cred == cred)
  }

  /** The position of the first match on a chain; its length if there is none. */
  function Search(slots: seq<Slot>, chain: seq<nat>, dp: Vnode, name: seq<char>, cred: int): (k: nat)
    requires forall i :: 0 <= i < |chain| ==> chain[i] < |slots|
    ensures k <= |chain| && (k < |chain| ==> Matches(slots[chain[k]], dp, name, cred))
    ensures forall i :: 0 <= i < k ==> !Matches(slots[chain[i]], dp, name, cred)
  {
    if chain == [] || Matches(slots[chain[0]], dp, name, cred) then 0 else 1 + Search(slots, chain[1..], dp, name, cred)
  }

  predicate Distinct(s: seq<nat>) {
    forall i, j :: 0 <= i < j < |s| ==> s[i] != s[j]
  }

  /** The vnodes that a slot holds. */
  function Holds(s: Slot): multiset<Vnode> {
    if Used(s) then multiset{s.dp, s.vp} else multiset{}
  }

  function AllHolds(slots: seq<Slot>): multiset<Vnode> {
    if slots == [] then multiset{} else Holds(slots[0]) + AllHolds(slots[1..])
  }

  // ----- what always holds -----

  predicate SlotOk(s: Slot) {
    if Used(s) then s.vp != 0 && 0 < |s.name| <= NC_NAMLEN && s.cred != ANYCRED else s.vp == 0
  }

  /** Slot `i` is on the chain of its own hash value exactly when it is in use, and on no other. */
  ghost predicate ChainedOk(c: Cache, i: nat)
    requires i < |c.slots| && |c.chains| == NC_HASH_SIZE
  {
    && SlotOk(c.slots[i])
    && forall h :: 0 <= h < NC_HASH_SIZE ==>
      (i in c.chains[h] <==> Used(c.slots[i]) && h == Hash(c.slots[i].name, c.slots[i].dp))
  }

  ghost predicate ListsOk(c: Cache) {
    && |c.slots| == NC_SIZE && |c.chains| == NC_HASH_SIZE
    && Distinct(c.lru) && |c.lru| == NC_SIZE && (forall k :: 0 <= k < NC_SIZE ==> c.lru[k] < NC_SIZE)
    && (forall x: nat :: x < NC_SIZE ==> x in c.lru)
    && (forall h :: 0 <= h < NC_HASH_SIZE ==> Distinct(c.chains[h]))
    && (forall h, k :: 0 <= h < NC_HASH_SIZE && 0 <= k < |c.chains[h]| ==> c.chains[h][k] < NC_SIZE)
  }

  predicate SameKey(s: Slot, t: Slot) {
    s.dp == t.dp && s.name == t.name && s.cred == t.cred
  }

  ghost predicate KeysUnique(slots: seq<Slot>) {
    forall i, j :: 0 <= i < j < |slots| && Used(slots[i]) ==> !SameKey(slots[i], slots[j])
  }

  /** Slots that are not in use come first on the list by last use. */
  ghost predicate FreeFirst(c: Cache)
    requires ListsOk(c)
  {
    forall i, j :: 0 <= i < j < NC_SIZE && Used(c.slots[c.lru[i]]) ==> Used(c.slots[c.lru[j]])
  }

  ghost predicate Inv(c: Cache) {
    && ListsOk(c) && (forall i :: 0 <= i < NC_SIZE ==> ChainedOk(c, i))
    && KeysUnique(c.slots) && FreeFirst(c) && c.held == AllHolds(c.slots)
  }

  // ----- lists -----

  function Without(s: seq<nat>, x: nat): seq<nat> {
    if s == [] then [] else if s[0] == x then s[1..] else [s[0]] + Without(s[1..], x)
  }

  lemma {:induction false} WithoutIs(s: seq<nat>, x: nat)
    requires Distinct(s)
    ensures Distinct(Without(s, x)) && x !in Without(s, x) && |Without(s, x)| == if x in s then |s| - 1 else |s|
    ensures forall y :: y in Without(s, x) <==> y in s && y != x
  {
    if s != [] {
      var rest := s[1..];
      assert s == [s[0]] + rest;
      assert Distinct(rest) && s[0] !in rest;
      WithoutIs(rest, x);
    }
  }

  /** Where an element was taken out. */
  lemma {:induction false} WithoutAt(s: seq<nat>, k: nat)
    requires Distinct(s) && k < |s|
    ensures Without(s, s[k]) == s[..k] + s[k + 1..]
  {
    if k > 0 {
      WithoutAt(s[1..], k - 1);
      assert s[1..][k - 1] == s[k] && s[0] != s[k];
      assert s[..k] == [s[0]] + s[1..][..k - 1] && s[1..][k..] == s[k + 1..];
    }
  }

  lemma HoldsOf(s: Slot)
    ensures Holds(s) == if s.dp != 0 then multiset{s.dp, s.vp} else multiset{}
    ensures s.dp == 0 && s.vp == 0 ==> SlotOk(s)
  {
  }

  lemma {:induction false} HoldsUpdate(slots: seq<Slot>, i: nat, s: Slot)
    requires i < |slots|
    ensures Holds(slots[i]) <= AllHolds(slots)
    ensures AllHolds(slots[i := s]) == AllHolds(slots) - Holds(slots[i]) + Holds(s)
  {
    hide Holds;
    if i > 0 {
      HoldsUpdate(slots[1..], i - 1, s);
      assert slots[i := s][1..] == slots[1..][i - 1 := s];
    } else {
      assert slots[0 := s][1..] == slots[1..];
    }
  }

  // ----- operations -----

  function Credit(cred: int): multiset<int> {
    if cred != NOCRED then multiset{cred} else multiset{}
  }

  /** The chain of a key, and the first match on it. */
  function Chain(c: Cache, name: seq<char>, dp: Vnode): seq<nat>
    requires name != [] && |c.chains| == NC_HASH_SIZE
  {
    c.chains[Hash(name, dp)]
  }

  function Found(c: Cache, dp: Vnode, name: seq<char>, cred: int): (k: nat)
    requires ListsOk(c) && name != []
    ensures k <= |Chain(c, name, dp)|
  {
    Search(c.slots, Chain(c, name, dp), dp, name, cred)
  }

  function Unchained(c: Cache, x: nat): seq<seq<nat>>
    requires ListsOk(c) && x < NC_SIZE
  {
    seq(NC_HASH_SIZE, h requires 0 <= h < NC_HASH_SIZE => Without(c.chains[h], x))
  }

  /** Enters a name, in the slot used least recently; unless it is long, or there already. */
  function Enter(c: Cache, dp: Vnode, name: seq<char>, vp: Vnode, cred: int): Cache
    requires ListsOk(c) && name != []
  {
    if |name| > NC_NAMLEN || Found(c, dp, name, cred) < |Chain(c, name, dp)| then c
    else
      var x, h := c.lru[0], Hash(name, dp);
      var chains := Unchained(c, x);
      Cache(c.slots[x := Slot(dp, name, vp, cred)],
            c.lru[1..] + [x],
            chains[h := [x] + chains[h]],
            c.held - Holds(c.slots[x]) + multiset{dp, vp},
            c.crheld + Credit(cred))
  }

  /** The chain with its k-th element one place forward. */
  function Forward(chain: seq<nat>, k: nat): seq<nat>
    requires k < |chain|
  {
    if k == 0 then chain else chain[k - 1 := chain[k]][k := chain[k - 1]]
  }

  /** Looks a name up: the vnode, or 0. */
  function Lookup(c: Cache, dp: Vnode, name: seq<char>, cred: int): (Cache, Vnode)
    requires ListsOk(c) && name != []
  {
    var k := Found(c, dp, name, cred);
    if |name| > NC_NAMLEN || k == |Chain(c, name, dp)| then (c, 0)
    else
      var x, h := Chain(c, name, dp)[k], Hash(name, dp);
      (c.(lru := Without(c.lru, x) + [x], chains := c.chains[h := Forward(c.chains[h], k)]), c.slots[x].vp)
  }

  /** Obliterates the entry in slot `x`. */
  function Rm(c: Cache, x: nat): Cache
    requires ListsOk(c) && x < NC_SIZE
  {
    Cache(c.slots[x := c.slots[x].(dp := 0, vp := 0, cred := NOCRED)],
          [x] + Without(c.lru, x),
          Unchained(c, x),
          c.held - Holds(c.slots[x]),
          c.crheld - Credit(c.slots[x].cred))
  }

  // ----- what the operations keep -----

  lemma LastSlot(lru: seq<nat>, x: nat)
    requires Distinct(lru) && x in lru
    ensures var l := Without(lru, x) + [x]; Distinct(l) && |l| == |lru| && forall y :: y in l <==> y in lru
  {
    WithoutIs(lru, x);
  }

  lemma FirstSlot(lru: seq<nat>, x: nat)
    requires Distinct(lru) && x in lru
    ensures var l := [x] + Without(lru, x); Distinct(l) && |l| == |lru| && forall y :: y in l <==> y in lru
  {
    WithoutIs(lru, x);
  }

  lemma UnchainedIs(c: Cache, x: nat)
    requires ListsOk(c) && x < NC_SIZE
    ensures var chains := Unchained(c, x);
      && (forall h :: 0 <= h < NC_HASH_SIZE ==> Distinct(chains[h]) && x !in chains[h])
      && (forall h, y :: 0 <= h < NC_HASH_SIZE ==> (y in chains[h] <==> y in c.chains[h] && y != x))
  {
    forall h | 0 <= h < NC_HASH_SIZE ensures Distinct(Unchained(c, x)[h]) && x !in Unchained(c, x)[h]
      && forall y :: y in Unchained(c, x)[h] <==> y in c.chains[h] && y != x
    {
      WithoutIs(c.chains[h], x);
    }
  }

  /** A key is in a slot exactly when the search of its chain finds it. */
  lemma FoundIff(c: Cache, dp: Vnode, name: seq<char>, cred: int)
    requires Inv(c) && name != [] && dp != 0
    ensures Found(c, dp, name, cred) == |Chain(c, name, dp)| <==>
      (forall i :: 0 <= i < NC_SIZE ==> !Matches(c.slots[i], dp, name, cred))
  {
    var chain, k := Chain(c, name, dp), Found(c, dp, name, cred);
    if k == |chain| {
      forall i | 0 <= i < NC_SIZE ensures !Matches(c.slots[i], dp, name, cred) {
        assert ChainedOk(c, i);
        assert i in chain || !Matches(c.slots[i], dp, name, cred);
      }
    } else {
      assert Matches(c.slots[chain[k]], dp, name, cred);
    }
  }

  lemma EnterInv(c: Cache, dp: Vnode, name: seq<char>, vp: Vnode, cred: int)
    requires Inv(c) && name != [] && dp != 0 && vp != 0 && cred != ANYCRED
    ensures Inv(Enter(c, dp, name, vp, cred))
  {
    if |name| <= NC_NAMLEN && Found(c, dp, name, cred) == |Chain(c, name, dp)| {
      hide Holds, Without, ChainedOk, KeysUnique, Matches;
      var c' := Enter(c, dp, name, vp, cred);
      var x, h, s := c.lru[0], Hash(name, dp), Slot(dp, name, vp, cred);
      assert x in c.lru;
      FoundIff(c, dp, name, cred);
      HoldsUpdate(c.slots, x, s);
      HoldsOf(s);
      EnterLists(c, c', x, h);
      EnterChained(c, c', x, s);
      EnterKeys(c, x, s);
      EnterLast(c, c', x);
    }
  }

  lemma EnterLast(c: Cache, c': Cache, x: nat)
    requires ListsOk(c) && ListsOk(c') && FreeFirst(c) && x == c.lru[0] && c'.lru == c.lru[1..] + [x]
    requires Used(c'.slots[x]) && c'.slots == c.slots[x := c'.slots[x]]
    ensures FreeFirst(c')
  {
    forall i, j | 0 <= i < j < NC_SIZE && Used(c'.slots[c'.lru[i]]) ensures Used(c'.slots[c'.lru[j]]) {
      if j < NC_SIZE - 1 { assert c'.lru[i] == c.lru[i + 1] && c'.lru[j] == c.lru[j + 1]; }
    }
  }

  lemma EnterChained(c: Cache, c': Cache, x: nat, s: Slot)
    requires ListsOk(c) && ListsOk(c') && (forall i :: 0 <= i < NC_SIZE ==> ChainedOk(c, i)) && x < NC_SIZE
    requires c'.slots == c.slots[x := s] && SlotOk(s) && Used(s)
    requires forall g, y :: 0 <= g < NC_HASH_SIZE ==>
      (y in c'.chains[g] <==> (y in c.chains[g] && y != x) || (g == Hash(s.name, s.dp) && y == x))
    ensures forall i :: 0 <= i < NC_SIZE ==> ChainedOk(c', i)
  {
    hide Hash;
    forall i | 0 <= i < NC_SIZE ensures ChainedOk(c', i) { assert ChainedOk(c, i); }
  }

  lemma TailThenFirst(lru: seq<nat>)
    requires Distinct(lru) && lru != []
    ensures Distinct(lru[1..] + [lru[0]]) && lru[0] !in lru[1..]
  {
  }

  lemma EnterLists(c: Cache, c': Cache, x: nat, h: nat)
    requires ListsOk(c) && x == c.lru[0] && h < NC_HASH_SIZE
    requires |c'.slots| == NC_SIZE && c'.lru == c.lru[1..] + [x]
    requires var chains := Unchained(c, x); c'.chains == chains[h := [x] + chains[h]]
    ensures ListsOk(c')
    ensures forall g, y :: 0 <= g < NC_HASH_SIZE ==>
      (y in c'.chains[g] <==> (y in c.chains[g] && y != x) || (g == h && y == x))
  {
    hide Without;
    UnchainedIs(c, x);
    TailThenFirst(c.lru);
    var chains := Unchained(c, x);
    assert c.lru == [x] + c.lru[1..];
    forall y: nat | y < NC_SIZE ensures y in c'.lru { assert y in c.lru; }
    forall g, k | 0 <= g < NC_HASH_SIZE && 0 <= k < |c'.chains[g]| ensures c'.chains[g][k] < NC_SIZE {
      assert c'.chains[g][k] in c'.chains[g];
      assert forall y :: y in c.chains[g] ==> y < NC_SIZE;
    }
  }

  lemma EnterKeys(c: Cache, x: nat, s: Slot)
    requires |c.slots| == NC_SIZE && x < NC_SIZE && KeysUnique(c.slots) && Used(s) && s.cred != ANYCRED
    requires forall i :: 0 <= i < NC_SIZE ==> !Matches(c.slots[i], s.dp, s.name, s.cred)
    ensures KeysUnique(c.slots[x := s])
  {
    forall i | 0 <= i < NC_SIZE ensures !SameKey(s, c.slots[i]) && !SameKey(c.slots[i], s) {
      assert !Matches(c.slots[i], s.dp, s.name, s.cred);
    }
  }

  lemma LookupInv(c: Cache, dp: Vnode, name: seq<char>, cred: int)
    requires Inv(c) && name != []
    ensures Inv(Lookup(c, dp, name, cred).0)
  {
    hide Hash, Holds, Without, SlotOk;
    var k := Found(c, dp, name, cred);
    if |name| <= NC_NAMLEN && k < |Chain(c, name, dp)| {
      var c' := Lookup(c, dp, name, cred).0;
      var x, h := Chain(c, name, dp)[k], Hash(name, dp);
      assert x in c.chains[h] && ChainedOk(c, x);
      LastSlot(c.lru, x);
      ForwardIs(c.chains[h], k);
      assert ListsOk(c') by { LookupLists(c, c', x, h); }
      forall i | 0 <= i < NC_SIZE ensures ChainedOk(c', i) { assert ChainedOk(c, i); }
      MovedLast(c, x);
    }
  }

  lemma ForwardIs(chain: seq<nat>, k: nat)
    requires k < |chain| && Distinct(chain)
    ensures var f := Forward(chain, k); |f| == |chain| && Distinct(f) && forall y :: y in f <==> y in chain
  {
    var f := Forward(chain, k);
    if k > 0 {
      forall y ensures y in f <==> y in chain {
        if y in chain {
          var i :| 0 <= i < |chain| && chain[i] == y;
          assert f[if i == k then k - 1 else if i == k - 1 then k else i] == y;
        }
        if y in f {
          var i :| 0 <= i < |f| && f[i] == y;
          assert chain[if i == k then k - 1 else if i == k - 1 then k else i] == y;
        }
      }
    }
  }

  lemma LookupLists(c: Cache, c': Cache, x: nat, h: nat)
    requires ListsOk(c) && x < NC_SIZE && h < NC_HASH_SIZE && c'.slots == c.slots
    requires Distinct(c'.lru) && |c'.lru| == NC_SIZE && (forall y :: y in c'.lru <==> y in c.lru)
    requires |c'.chains| == NC_HASH_SIZE && forall g :: 0 <= g < NC_HASH_SIZE && g != h ==> c'.chains[g] == c.chains[g]
    requires Distinct(c'.chains[h]) && forall y :: y in c'.chains[h] <==> y in c.chains[h]
    ensures ListsOk(c')
  {
    forall k | 0 <= k < NC_SIZE ensures c'.lru[k] < NC_SIZE { assert c'.lru[k] in c.lru; }
    forall k | 0 <= k < |c'.chains[h]| ensures c'.chains[h][k] < NC_SIZE { assert c'.chains[h][k] in c.chains[h]; }
  }

  /** Moving a used slot to the end leaves the free ones in front. */
  lemma MovedLast(c: Cache, x: nat)
    requires ListsOk(c) && FreeFirst(c) && x in c.lru && x < NC_SIZE && Used(c.slots[x])
    ensures var l := Without(c.lru, x) + [x];
      |l| == NC_SIZE && (forall k :: 0 <= k < NC_SIZE ==> l[k] < NC_SIZE)
      && forall i, j :: 0 <= i < j < NC_SIZE && Used(c.slots[l[i]]) ==> Used(c.slots[l[j]])
  {
    hide Without;
    var k :| 0 <= k < NC_SIZE && c.lru[k] == x;
    WithoutAt(c.lru, k);
    var w := c.lru[..k] + c.lru[k + 1..];
    forall i | 0 <= i < NC_SIZE - 1 ensures w[i] == c.lru[if i < k then i else i + 1] {}
  }

  lemma RmInv(c: Cache, x: nat)
    requires Inv(c) && x < NC_SIZE
    ensures Inv(Rm(c, x))
  {
    hide Hash, Holds, Without, SlotOk, ChainedOk, Unchained, Distinct;
    var c' := Rm(c, x);
    FirstSlot(c.lru, x);
    HoldsUpdate(c.slots, x, c'.slots[x]);
    HoldsOf(c'.slots[x]);
    RmLists(c, c', x);
    forall i | 0 <= i < NC_SIZE ensures ChainedOk(c', i) { RmChained(c, x, i); }
    RmKeys(c.slots, x, c'.slots[x]);
    RmFirst(c, x);
    hide Rm, KeysUnique, FreeFirst, ListsOk;
  }

  lemma RmKeys(slots: seq<Slot>, x: nat, s: Slot)
    requires |slots| == NC_SIZE && KeysUnique(slots) && x < NC_SIZE && !Used(s)
    ensures KeysUnique(slots[x := s])
  {
  }

  lemma RmFirst(c: Cache, x: nat)
    requires Inv(c) && x < NC_SIZE && ListsOk(Rm(c, x))
    ensures FreeFirst(Rm(c, x))
  {
    hide Hash, Holds, Without, SlotOk, ChainedOk, Unchained;
    MovedFirst(c, x);
  }

  lemma RmChained(c: Cache, x: nat, i: nat)
    requires Inv(c) && x < NC_SIZE && i < NC_SIZE && ListsOk(Rm(c, x))
    ensures ChainedOk(Rm(c, x), i)
  {
    hide Hash, Holds, Without, SlotOk;
    UnchainedIs(c, x);
    HoldsOf(Rm(c, x).slots[x]);
    assert ChainedOk(c, i);
  }

  lemma RmLists(c: Cache, c': Cache, x: nat)
    requires ListsOk(c) && x < NC_SIZE && |c'.slots| == NC_SIZE && c'.chains == Unchained(c, x)
    requires Distinct(c'.lru) && |c'.lru| == NC_SIZE && (forall y :: y in c'.lru <==> y in c.lru)
    ensures ListsOk(c')
  {
    hide Without;
    UnchainedIs(c, x);
    forall k | 0 <= k < NC_SIZE ensures c'.lru[k] < NC_SIZE { assert c'.lru[k] in c.lru; }
    forall h, k | 0 <= h < NC_HASH_SIZE && 0 <= k < |c'.chains[h]| ensures c'.chains[h][k] < NC_SIZE {
      assert c'.chains[h][k] in c.chains[h];
    }
  }

  lemma MovedFirst(c: Cache, x: nat)
    requires ListsOk(c) && FreeFirst(c) && x in c.lru && x < NC_SIZE
    ensures var l := [x] + Without(c.lru, x); var slots := c.slots[x := c.slots[x].(dp := 0, vp := 0, cred := NOCRED)];
      |l| == NC_SIZE && (forall k :: 0 <= k < NC_SIZE ==> l[k] < NC_SIZE)
      && forall i, j :: 0 <= i < j < NC_SIZE && Used(slots[l[i]]) ==> Used(slots[l[j]])
  {
    hide Without;
    var k :| 0 <= k < NC_SIZE && c.lru[k] == x;
    WithoutAt(c.lru, k);
    var w := c.lru[..k] + c.lru[k + 1..];
    forall i | 0 <= i < NC_SIZE - 1 ensures w[i] == c.lru[if i < k then i else i + 1] && w[i] != x {}
  }

  // ----- removing -----

  function InUse(slots: seq<Slot>): set<nat> {
    set i: nat | i < |slots| && Used(slots[i])
  }

  lemma RmLess(c: Cache, x: nat)
    requires ListsOk(c) && x < NC_SIZE && Used(c.slots[x])
    ensures InUse(Rm(c, x).slots) == InUse(c.slots) - {x} && x in InUse(c.slots)
    ensures Rm(c, x).slots == c.slots[x := Rm(c, x).slots[x]] && !Used(Rm(c, x).slots[x])
  {
  }

  /** Removes a name, for all credentials. */
  ghost function Remove(c: Cache, dp: Vnode, name: seq<char>): Cache
    requires Inv(c) && name != [] && dp != 0
    decreases InUse(c.slots)
  {
    var k := Found(c, dp, name, ANYCRED);
    if |name| > NC_NAMLEN || k == |Chain(c, name, dp)| then c
    else
      var x := Chain(c, name, dp)[k];
      RmInv(c, x);
      RmLess(c, x);
      Remove(Rm(c, x), dp, name)
  }

  predicate Named(s: Slot, dp: Vnode, name: seq<char>) {
    s.dp == dp && s.name == name
  }

  /** Afterwards no slot has the name, and all other slots are as before. */
  lemma {:induction false} RemoveCorrect(c: Cache, dp: Vnode, name: seq<char>)
    requires Inv(c) && name != [] && dp != 0
    ensures var c' := Remove(c, dp, name);
      && Inv(c') && |c'.slots| == |c.slots|
      && forall i :: 0 <= i < NC_SIZE ==>
           if Named(c.slots[i], dp, name) then !Used(c'.slots[i]) else c'.slots[i] == c.slots[i]
    decreases InUse(c.slots)
  {
    hide AllHolds, Hash, Without, ChainedOk, KeysUnique, FreeFirst, InUse, Rm, Search;
    var k := Found(c, dp, name, ANYCRED);
    if |name| > NC_NAMLEN {
      forall i | 0 <= i < NC_SIZE ensures !Named(c.slots[i], dp, name) { assert ChainedOk(c, i); LongName(c, i); }
    } else if k == |Chain(c, name, dp)| {
      FoundIff(c, dp, name, ANYCRED);
      forall i | 0 <= i < NC_SIZE ensures !Named(c.slots[i], dp, name) {
        assert !Matches(c.slots[i], dp, name, ANYCRED);
      }
    } else {
      var x := Chain(c, name, dp)[k];
      RmInv(c, x);
      RmLess(c, x);
      RemoveCorrect(Rm(c, x), dp, name);
    }
  }

  lemma LongName(c: Cache, i: nat)
    requires ListsOk(c) && i < NC_SIZE && ChainedOk(c, i)
    ensures Used(c.slots[i]) ==> |c.slots[i].name| <= NC_NAMLEN
  {
  }

  lemma UsedChained(c: Cache, i: nat)
    requires Inv(c) && i < NC_SIZE
    ensures Used(c.slots[i]) ==> exists h :: 0 <= h < NC_HASH_SIZE && i in c.chains[h]
  {
    assert ChainedOk(c, i);
    if Used(c.slots[i]) { assert i in c.chains[Hash(c.slots[i].name, c.slots[i].dp)]; }
  }

  /** The first chain that is not empty. */
  function FirstChain(chains: seq<seq<nat>>, h: nat): (g: nat)
    requires h <= |chains|
    ensures h <= g <= |chains| && (g < |chains| ==> chains[g] != []) && forall i :: h <= i < g ==> chains[i] == []
    decreases |chains| - h
  {
    if h == |chains| || chains[h] != [] then h else FirstChain(chains, h + 1)
  }

  ghost function Purge(c: Cache): Cache
    requires Inv(c)
    decreases InUse(c.slots)
  {
    var h := FirstChain(c.chains, 0);
    if h == NC_HASH_SIZE then c
    else
      var x := c.chains[h][0];
      assert x in c.chains[h] && ChainedOk(c, x);
      RmInv(c, x);
      RmLess(c, x);
      Purge(Rm(c, x))
  }

  /** Afterwards no slot is in use, and the cache holds no vnode. */
  lemma {:induction false} PurgeCorrect(c: Cache)
    requires Inv(c)
    ensures var c' := Purge(c); Inv(c') && InUse(c'.slots) == {} && c'.held == multiset{}
    decreases InUse(c.slots)
  {
    hide AllHolds, Hash, Without, Rm;
    var h := FirstChain(c.chains, 0);
    if h == NC_HASH_SIZE {
      forall i | 0 <= i < NC_SIZE ensures !Used(c.slots[i]) { UsedChained(c, i); }
      NoHolds(c.slots);
    } else {
      var x := c.chains[h][0];
      assert x in c.chains[h] && ChainedOk(c, x);
      RmInv(c, x);
      RmLess(c, x);
      PurgeCorrect(Rm(c, x));
    }
  }

  lemma {:induction false} NoHolds(slots: seq<Slot>)
    requires forall i :: 0 <= i < |slots| ==> !Used(slots[i])
    ensures AllHolds(slots) == multiset{}
  {
    if slots != [] { NoHolds(slots[1..]); }
  }

  // ----- credentials -----

  function AllCredits(slots: seq<Slot>): multiset<int> {
    if slots == [] then multiset{} else Credit(slots[0].cred) + AllCredits(slots[1..])
  }

  lemma {:induction false} CreditsUpdate(slots: seq<Slot>, i: nat, s: Slot)
    requires i < |slots|
    ensures Credit(slots[i].cred) <= AllCredits(slots)
    ensures AllCredits(slots[i := s]) == AllCredits(slots) - Credit(slots[i].cred) + Credit(s.cred)
  {
    hide Credit;
    if i > 0 {
      CreditsUpdate(slots[1..], i - 1, s);
      assert slots[i := s][1..] == slots[1..][i - 1 := s];
    } else {
      assert slots[0 := s][1..] == slots[1..];
    }
  }

  /** Entering takes a slot: the name is short enough, and not there. */
  predicate Takes(c: Cache, dp: Vnode, name: seq<char>, cred: int)
    requires ListsOk(c) && name != []
  {
    |name| <= NC_NAMLEN && Found(c, dp, name, cred) == |Chain(c, name, dp)|
  }

  /** A slot is given up without its hold on credentials: entering keeps the holds on credentials in
      step with the slots exactly when it takes no slot, or one without credentials. */
  lemma EnterCredits(c: Cache, dp: Vnode, name: seq<char>, vp: Vnode, cred: int)
    requires Inv(c) && name != [] && dp != 0 && vp != 0 && cred != ANYCRED && c.crheld == AllCredits(c.slots)
    ensures var c' := Enter(c, dp, name, vp, cred);
      c'.crheld == AllCredits(c'.slots) <==> !Takes(c, dp, name, cred) || c.slots[c.lru[0]].cred == NOCRED
  {
    hide AllHolds, Hash, Without, ChainedOk, KeysUnique;
    var c' := Enter(c, dp, name, vp, cred);
    if |name| <= NC_NAMLEN && Found(c, dp, name, cred) == |Chain(c, name, dp)| {
      var x, s := c.lru[0], Slot(dp, name, vp, cred);
      CreditsUpdate(c.slots, x, s);
      FoundIff(c, dp, name, cred);
      assert !Matches(c.slots[x], dp, name, cred);
      assert c'.slots[x] != c.slots[x];
      if c.slots[x].cred != NOCRED { Removing(AllCredits(c.slots), c.slots[x].cred, Credit(cred)); }
    }
  }

  lemma Removing(all: multiset<int>, x: int, more: multiset<int>)
    requires x in all
    ensures all - multiset{x} + more != all + more
  {
    assert (all - multiset{x} + more)[x] < (all + more)[x];
  }

  lemma RmCredits(c: Cache, x: nat, lost: multiset<int>)
    requires ListsOk(c) && x < NC_SIZE && c.crheld == AllCredits(c.slots) + lost
    ensures Rm(c, x).crheld == AllCredits(Rm(c, x).slots) + lost
  {
    CreditsUpdate(c.slots, x, Rm(c, x).slots[x]);
  }

  /** Removing a name gives up its credentials, whatever may have been lost before. */
  lemma {:induction false} RemoveCredits(c: Cache, dp: Vnode, name: seq<char>, lost: multiset<int>)
    requires Inv(c) && name != [] && dp != 0 && c.crheld == AllCredits(c.slots) + lost
    ensures Remove(c, dp, name).crheld == AllCredits(Remove(c, dp, name).slots) + lost
    decreases InUse(c.slots)
  {
    hide AllHolds, AllCredits, Hash, Without, ChainedOk, KeysUnique, FreeFirst, InUse, Rm, Search;
    var k := Found(c, dp, name, ANYCRED);
    if |name| <= NC_NAMLEN && k < |Chain(c, name, dp)| {
      var x := Chain(c, name, dp)[k];
      RmInv(c, x);
      RmLess(c, x);
      RmCredits(c, x, lost);
      RemoveCredits(Rm(c, x), dp, name, lost);
    }
  }

  /** So does purging the cache. */
  lemma {:induction false} PurgeCredits(c: Cache, lost: multiset<int>)
    requires Inv(c) && c.crheld == AllCredits(c.slots) + lost
    ensures Purge(c).crheld == AllCredits(Purge(c).slots) + lost
    decreases InUse(c.slots)
  {
    hide AllHolds, AllCredits, Hash, Without, Rm;
    var h := FirstChain(c.chains, 0);
    if h < NC_HASH_SIZE {
      var x := c.chains[h][0];
      assert x in c.chains[h] && ChainedOk(c, x);
      RmInv(c, x);
      RmLess(c, x);
      RmCredits(c, x, lost);
      PurgeCredits(Rm(c, x), lost);
    }
  }

  // ----- whole runs -----

  datatype Event =
    | EnterEvent(dp: Vnode, name: seq<char>, vp: Vnode, cred: int)
    | LookupEvent(dp: Vnode, name: seq<char>, cred: int)
    | RemoveEvent(dp: Vnode, name: seq<char>)
    | PurgeEvent

  predicate Proper(e: Event) {
    match e
    case EnterEvent(dp, name, vp, cred) => dp != 0 && name != [] && vp != 0 && cred != ANYCRED
    case LookupEvent(dp, name, _) => dp != 0 && name != []
    case RemoveEvent(dp, name) => dp != 0 && name != []
    case PurgeEvent => true
  }

  ghost function Step(c: Cache, e: Event): Cache
    requires Inv(c) && Proper(e)
  {
    match e
    case EnterEvent(dp, name, vp, cred) => Enter(c, dp, name, vp, cred)
    case LookupEvent(dp, name, cred) => Lookup(c, dp, name, cred).0
    case RemoveEvent(dp, name) => Remove(c, dp, name)
    case PurgeEvent => Purge(c)
  }

  lemma StepInv(c: Cache, e: Event)
    requires Inv(c) && Proper(e)
    ensures Inv(Step(c, e))
  {
    hide Inv, Enter, Lookup, Remove, Purge;
    match e
    case EnterEvent(dp, name, vp, cred) => EnterInv(c, dp, name, vp, cred);
    case LookupEvent(dp, name, cred) => LookupInv(c, dp, name, cred);
    case RemoveEvent(dp, name) => RemoveCorrect(c, dp, name);
    case PurgeEvent => PurgeCorrect(c);
  }

  /** What has been entered and neither removed nor purged since. */
  function Known(events: seq<Event>): set<Slot> {
    if events == [] then {}
    else
      var known := Known(events[..|events| - 1]);
      match events[|events| - 1]
      case EnterEvent(dp, name, vp, cred) => known + {Slot(dp, name, vp, cred)}
      case LookupEvent(_, _, _) => known
      case RemoveEvent(dp, name) => set s | s in known && !Named(s, dp, name)
      case PurgeEvent => {}
  }

  ghost predicate AllProper(events: seq<Event>) {
    forall i :: 0 <= i < |events| ==> Proper(events[i])
  }

  ghost function Run(c: Cache, events: seq<Event>): (c': Cache)
    requires Inv(c) && AllProper(events)
    ensures Inv(c')
    decreases |events|
  {
    if events == [] then c
    else
      var before := Run(c, events[..|events| - 1]);
      StepInv(before, events[|events| - 1]);
      Step(before, events[|events| - 1])
  }

  ghost predicate AllKnown(slots: seq<Slot>, known: set<Slot>) {
    forall i :: 0 <= i < |slots| && Used(slots[i]) ==> slots[i] in known
  }

  lemma {:induction false} RunKnown(c: Cache, events: seq<Event>)
    requires Inv(c) && InUse(c.slots) == {} && AllProper(events)
    ensures AllKnown(Run(c, events).slots, Known(events))
    decreases |events|
  {
    hide Inv, Enter, Lookup, Remove, Purge;
    if events == [] {
      forall i | 0 <= i < |c.slots| ensures !Used(c.slots[i]) { assert i !in InUse(c.slots); }
    } else {
      var front, e := events[..|events| - 1], events[|events| - 1];
      RunKnown(c, front);
      StepKnown(Run(c, front), Known(front), e);
    }
  }

  lemma StepKnown(c: Cache, known: set<Slot>, e: Event)
    requires Inv(c) && Proper(e) && AllKnown(c.slots, known)
    ensures AllKnown(Step(c, e).slots,
              match e
              case EnterEvent(dp, name, vp, cred) => known + {Slot(dp, name, vp, cred)}
              case LookupEvent(_, _, _) => known
              case RemoveEvent(dp, name) => set s | s in known && !Named(s, dp, name)
              case PurgeEvent => {})
  {
    hide ChainedOk, AllHolds, Remove, Purge, Hash, Without;
    match e
    case EnterEvent(dp, name, vp, cred) =>
    case LookupEvent(dp, name, cred) =>
    case RemoveEvent(dp, name) => RemoveCorrect(c, dp, name);
    case PurgeEvent =>
      PurgeCorrect(c);
      forall i | 0 <= i < |Purge(c).slots| ensures !Used(Purge(c).slots[i]) { assert i !in InUse(Purge(c).slots); }
  }

  /** Over any run: a lookup that hits returns a vnode that was entered under the same directory, name
      and credentials, and neither removed nor purged since. */
  lemma HitIsKnown(c: Cache, events: seq<Event>, dp: Vnode, name: seq<char>, cred: int)
    requires Inv(c) && InUse(c.slots) == {} && AllProper(events) && dp != 0 && name != []
    ensures var vp := Lookup(Run(c, events), dp, name, cred).1;
      vp != 0 ==> exists s :: s in Known(events) && Matches(s, dp, name, cred) && s.vp == vp
  {
    hide Known, AllHolds, Hash, Without, ChainedOk;
    RunKnown(c, events);
    var r := Run(c, events);
    var k := Found(r, dp, name, cred);
    if |name| <= NC_NAMLEN && k < |Chain(r, name, dp)| {
      var x := Chain(r, name, dp)[k];
      assert Matches(r.slots[x], dp, name, cred) && r.slots[x] in Known(events);
    }
  }

  // ----- holds on credentials that are lost -----

  /** The hold that a step loses: that of the slot that is used again. */
  ghost function Lost(c: Cache, e: Event): multiset<int>
    requires Inv(c) && Proper(e)
  {
    if e.EnterEvent? && Takes(c, e.dp, e.name, e.cred) then Credit(c.slots[c.lru[0]].cred) else multiset{}
  }

  ghost function LostBy(c: Cache, events: seq<Event>): multiset<int>
    requires Inv(c) && AllProper(events)
    decreases |events|
  {
    if events == [] then multiset{}
    else
      var front := events[..|events| - 1];
      LostBy(c, front) + Lost(Run(c, front), events[|events| - 1])
  }

  lemma EnterLoses(c: Cache, dp: Vnode, name: seq<char>, vp: Vnode, cred: int, lost: multiset<int>)
    requires Inv(c) && Proper(EnterEvent(dp, name, vp, cred)) && c.crheld == AllCredits(c.slots) + lost
    ensures var c' := Enter(c, dp, name, vp, cred);
      c'.crheld == AllCredits(c'.slots) + (lost + Lost(c, EnterEvent(dp, name, vp, cred)))
  {
    hide AllHolds, AllCredits, Hash, Without, ChainedOk, KeysUnique, FreeFirst, Found;
    if Takes(c, dp, name, cred) { CreditsUpdate(c.slots, c.lru[0], Slot(dp, name, vp, cred)); }
  }

  lemma StepCredits(c: Cache, e: Event, lost: multiset<int>)
    requires Inv(c) && Proper(e) && c.crheld == AllCredits(c.slots) + lost
    ensures Step(c, e).crheld == AllCredits(Step(c, e).slots) + (lost + Lost(c, e))
  {
    hide Inv, Enter, Remove, Purge, AllCredits, Takes;
    match e
    case EnterEvent(dp, name, vp, cred) => EnterLoses(c, dp, name, vp, cred, lost);
    case LookupEvent(dp, name, cred) =>
    case RemoveEvent(dp, name) => RemoveCredits(c, dp, name, lost);
    case PurgeEvent => PurgeCredits(c, lost);
  }

  /** Over any run: beyond the credentials of its slots the cache holds exactly those lost when a slot was
      used again; so its holds stay in step exactly when every slot taken had no credentials. */
  lemma {:induction false} RunCredits(c: Cache, events: seq<Event>)
    requires Inv(c) && AllProper(events) && c.crheld == AllCredits(c.slots)
    ensures var r := Run(c, events); r.crheld == AllCredits(r.slots) + LostBy(c, events)
    ensures var r := Run(c, events); r.crheld == AllCredits(r.slots) <==> LostBy(c, events) == multiset{}
    decreases |events|
  {
    hide Inv, Step, AllCredits, Lost;
    if events != [] {
      var front := events[..|events| - 1];
      RunCredits(c, front);
      StepCredits(Run(c, front), events[|events| - 1], LostBy(c, front));
    }
    MoreThan(AllCredits(Run(c, events).slots), LostBy(c, events));
  }

  lemma MoreThan(all: multiset<int>, more: multiset<int>)
    ensures all == all + more <==> more == multiset{}
  {
    if all == all + more {
      forall x ensures more[x] == 0 { assert (all + more)[x] == all[x] + more[x]; }
    }
  }

  /** The same name in the directories 1 to `k`, all with the credentials 5. */
  function Filling(k: nat): seq<Event> {
    if k == 0 then [] else Filling(k - 1) + [EnterEvent(k, "a", 1, 5)]
  }

  lemma {:induction false} FillingProper(k: nat)
    ensures AllProper(Filling(k)) && |Filling(k)| == k
  {
    if k > 0 { FillingProper(k - 1); }
  }

  /** Nothing is in the cache, nor on any credentials. */
  ghost predicate Fresh(c: Cache) {
    && Inv(c) && InUse(c.slots) == {} && c.crheld == multiset{}
    && forall i :: 0 <= i < NC_SIZE ==> c.slots[i].cred == NOCRED
  }

  /** `k` slots are in use, with the directories 1 to `k` and the credentials 5. */
  ghost predicate Filled(c: Cache, k: nat) {
    Inv(c) && c.crheld == AllCredits(c.slots) && FilledSlots(c.slots, k)
  }

  /** The slots in use have the directories up to `k` and the credentials 5. */
  ghost predicate FilledSlots(slots: seq<Slot>, k: nat) {
    && |InUse(slots)| == k
    && forall i :: 0 <= i < |slots| ==>
      if Used(slots[i]) then slots[i].dp <= k && slots[i].cred == 5 else slots[i].cred == NOCRED
  }

  lemma FillSlot(slots: seq<Slot>, x: nat, k: nat)
    requires FilledSlots(slots, k) && x < |slots| && !Used(slots[x])
    ensures FilledSlots(slots[x := Slot(k + 1, "a", 1, 5)], k + 1)
  {
    assert InUse(slots[x := Slot(k + 1, "a", 1, 5)]) == InUse(slots) + {x};
  }

  lemma FillOne(c: Cache, k: nat)
    requires Filled(c, k) && k < NC_SIZE
    ensures Filled(Enter(c, k + 1, "a", 1, 5), k + 1)
  {
    EnterInv(c, k + 1, "a", 1, 5);
    EnterCredits(c, k + 1, "a", 1, 5);
    FirstIsFree(c);
    NewName(c, k + 1);
    FillSlot(c.slots, c.lru[0], k);
    assert c.slots[c.lru[0]].cred == NOCRED;
    hide Inv, Enter, AllCredits, FilledSlots;
  }

  /** A name in a directory that no slot has goes to the slot used least recently. */
  lemma NewName(c: Cache, dp: Vnode)
    requires Inv(c) && dp != 0 && forall i :: 0 <= i < NC_SIZE ==> c.slots[i].dp != dp
    ensures c.lru[0] < |c.slots| == NC_SIZE && Enter(c, dp, "a", 1, 5).slots == c.slots[c.lru[0] := Slot(dp, "a", 1, 5)]
  {
    FoundIff(c, dp, "a", 5);
    hide Hash, ChainedOk, Search;
  }

  /** As long as a slot is free, the first one on the list by last use is. */
  lemma FirstIsFree(c: Cache)
    requires Inv(c) && |InUse(c.slots)| < NC_SIZE
    ensures c.lru[0] < NC_SIZE && !Used(c.slots[c.lru[0]])
  {
    if Used(c.slots[c.lru[0]]) {
      forall x: nat | x < NC_SIZE ensures Used(c.slots[x]) {
        assert x in c.lru;
        var k :| 0 <= k < NC_SIZE && c.lru[k] == x;
        assert k == 0 || Used(c.slots[c.lru[k]]);
      }
      AllUsed(c.slots);
    }
  }

  /** Not all slots are in use if some are left. */
  lemma AllUsed(slots: seq<Slot>)
    requires forall x: nat :: x < |slots| ==> Used(slots[x])
    ensures |InUse(slots)| == |slots|
  {
    CountNumbers(|slots|);
    assert InUse(slots) == Numbers(|slots|);
  }

  function Numbers(n: nat): set<nat> {
    if n == 0 then {} else Numbers(n - 1) + {n - 1}
  }

  lemma {:induction false} CountNumbers(n: nat)
    ensures |Numbers(n)| == n && forall x: nat :: x in Numbers(n) <==> x < n
  {
    if n > 0 { CountNumbers(n - 1); }
  }

  lemma {:induction false} RunFills(c: Cache, k: nat)
    requires Fresh(c) && k <= NC_SIZE
    ensures AllProper(Filling(k)) && Filled(Run(c, Filling(k)), k)
  {
    hide Inv, Enter, Run, Filling, Filled, AllCredits, InUse;
    if k == 0 {
      FreshFilled(c);
      RunNothing(c);
    } else {
      RunFills(c, k - 1);
      FillOne(Run(c, Filling(k - 1)), k - 1);
      OneMore(c, k - 1);
    }
  }

  lemma OneMore(c: Cache, k: nat)
    requires Inv(c)
    ensures AllProper(Filling(k)) && AllProper(Filling(k + 1))
    ensures Run(c, Filling(k + 1)) == Enter(Run(c, Filling(k)), k + 1, "a", 1, 5)
  {
    FillingProper(k);
    FillingProper(k + 1);
    assert Filling(k + 1)[..k] == Filling(k);
    hide Inv, Enter;
  }

  lemma RunNothing(c: Cache)
    requires Inv(c)
    ensures AllProper(Filling(0)) && Run(c, Filling(0)) == c
  {
    hide Inv;
  }

  lemma FreshFilled(c: Cache)
    requires Fresh(c)
    ensures Filled(c, 0)
  {
    InvLists(c);
    hide Inv;
    NoCredits(c.slots);
    forall i | 0 <= i < NC_SIZE ensures !Used(c.slots[i]) { assert i !in InUse(c.slots); }
  }

  lemma InvLists(c: Cache)
    requires Inv(c)
    ensures |c.slots| == NC_SIZE
  {
  }

  lemma {:induction false} NoCredits(slots: seq<Slot>)
    requires forall i :: 0 <= i < |slots| ==> slots[i].cred == NOCRED
    ensures AllCredits(slots) == multiset{}
  {
    if slots != [] { NoCredits(slots[1..]); }
  }

  /** One name more than there are slots: the slot that is used again loses its hold on credentials. */
  lemma RunLeaks(c: Cache)
    requires Fresh(c)
    ensures AllProper(Filling(NC_SIZE + 1))
    ensures var r := Run(c, Filling(NC_SIZE + 1)); r.crheld != AllCredits(r.slots)
  {
    hide Filling, Run;
    var k := NC_SIZE;
    RunFills(c, k);
    OneMore(c, k);
    var r := Run(c, Filling(k));
    AllInUse(r.slots);
    NewName(r, k + 1);
    EnterCredits(r, k + 1, "a", 1, 5);
    hide Inv, Enter, AllCredits, InUse, Fresh;
    assert Enter(r, k + 1, "a", 1, 5).slots[r.lru[0]].dp == k + 1;
  }

  lemma AllInUse(slots: seq<Slot>)
    requires |InUse(slots)| == |slots|
    ensures forall i: nat :: i < |slots| ==> Used(slots[i])
  {
    var all := Numbers(|slots|);
    CountNumbers(|slots|);
    assert InUse(slots) <= all;
    Smaller(InUse(slots), all);
    forall i: nat | i < |slots| ensures Used(slots[i]) { assert i in InUse(slots); }
  }

  lemma Smaller(a: set<nat>, b: set<nat>)
    requires a <= b && |a| == |b|
    ensures a == b
  {
    assert b == a + (b - a);
  }
}
