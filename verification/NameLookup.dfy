/** The directory name cache by its links. */
module NameLookup {
  import opened NameCache
  import opened NameRings
  import NameHits

  /** The head of the list by last use, and of the first hash chain. */
  const HEAD := NC_SIZE

  /** The ring of a hash chain, with its head. */
  function ChainRing(c: Cache, h: nat): seq<nat>
    requires h < |c.chains|
  {
    [HEAD + h] + c.chains[h]
  }

  /** The rings of the hash chains, and each slot not in use alone. */
  ghost predicate HashRings(l: Links, c: Cache)
    requires ListsOk(c)
  {
    && |l.next| == |l.prev| == NC_SIZE + NC_HASH_SIZE
    && (forall h :: 0 <= h < NC_HASH_SIZE ==> Ring(l, ChainRing(c, h)))
    && forall i :: 0 <= i < NC_SIZE && !Used(c.slots[i]) ==> Ring(l, [i])
  }

  ghost predicate LruRing(l: Links, lru: seq<nat>) {
    |l.next| == |l.prev| == NC_SIZE + 1 && Ring(l, [HEAD] + lru)
  }

  lemma InvParts(c: Cache, x: nat)
    requires Inv(c) && x < NC_SIZE
    ensures ListsOk(c) && ChainedOk(c, x)
  {
  }

  lemma LruDistinct(l: Links, lru: seq<nat>)
    requires LruRing(l, lru)
    ensures Distinct(lru)
  {
    assert forall i :: 0 <= i < |lru| ==> lru[i] == ([HEAD] + lru)[i + 1];
  }

  lemma RingAlone(l: Links, x: nat)
    requires |l.next| == |l.prev| && x < |l.next|
    ensures Ring(Alone(l, x), [x])
  {
  }

  lemma HashSizes(l: Links, c: Cache)
    requires ListsOk(c) && HashRings(l, c)
    ensures |l.next| == |l.prev| == NC_SIZE + NC_HASH_SIZE
  {
  }

  /** Chains have no slot in common. */
  lemma ChainsApart(c: Cache, h: nat, g: nat, y: nat)
    requires Inv(c) && h < NC_HASH_SIZE && g < NC_HASH_SIZE && h != g && y in ChainRing(c, h)
    ensures y !in ChainRing(c, g)
  {
    hide Hash;
    if y < NC_SIZE { assert ChainedOk(c, y); }
  }

  lemma OnChain(c: Cache, h: nat, y: nat)
    requires Inv(c) && h < NC_HASH_SIZE && y < NC_SIZE && y in c.chains[h]
    ensures Used(c.slots[y]) && c.slots[y].name != [] && h == Hash(c.slots[y].name, c.slots[y].dp)
  {
    hide Hash;
    assert ChainedOk(c, y);
  }

  /** `remque` of a slot takes it from its chain, or from its own ring, and leaves all other rings. */
  lemma Unhash(l: Links, c: Cache, x: nat)
    requires Inv(c) && HashRings(l, c) && x < NC_SIZE
    ensures l.next[x] < |l.next| && l.prev[x] < |l.next|
    ensures var l' := Remque(l, x); var chains := Unchained(c, x);
      && |l'.next| == |l'.prev| == NC_SIZE + NC_HASH_SIZE
      && (forall h :: 0 <= h < NC_HASH_SIZE ==> Ring(l', [HEAD + h] + chains[h]))
      && forall i :: 0 <= i < NC_SIZE && !Used(c.slots[i]) && i != x ==> Ring(l', [i])
  {
    hide Hash, Ring, Without, Inv;
    InvParts(c, x);
    if Used(c.slots[x]) {
      UnhashUsed(l, c, x);
    } else {
      assert Ring(l, [x]);
      RingNext(l, [x], 0);
      assert l.next[x := x] == l.next && l.prev[x := x] == l.prev;
      forall h | 0 <= h < NC_HASH_SIZE
        ensures Without(c.chains[h], x) == c.chains[h] && Ring(l, [HEAD + h] + c.chains[h])
      {
        NotThere(c.chains[h], x);
        assert Ring(l, ChainRing(c, h));
      }
    }
  }

  lemma {:induction false} NotThere(s: seq<nat>, x: nat)
    requires x !in s
    ensures Without(s, x) == s
  {
    if s != [] { NotThere(s[1..], x); }
  }

  lemma UnhashUsed(l: Links, c: Cache, x: nat)
    requires Inv(c) && HashRings(l, c) && x < NC_SIZE && Used(c.slots[x])
    ensures l.next[x] < |l.next| && l.prev[x] < |l.next|
    ensures var l' := Remque(l, x); var chains := Unchained(c, x);
      && (forall h :: 0 <= h < NC_HASH_SIZE ==> Ring(l', [HEAD + h] + chains[h]))
      && forall i :: 0 <= i < NC_SIZE && !Used(c.slots[i]) ==> Ring(l', [i])
  {
    hide Ring, Without, Inv, Hash, Remque;
    InvParts(c, x);
    var g := Hash(c.slots[x].name, c.slots[x].dp);
    var chain := c.chains[g];
    assert x in chain;
    var k :| 0 <= k < |chain| && chain[k] == x;
    var cyc := ChainRing(c, g);
    assert cyc[k + 1] == x && Ring(l, cyc);
    RemqueRing(l, cyc, k + 1);
    var l' := Remque(l, x);
    WithoutAt(chain, k);
    assert Removed(cyc, k + 1) == [HEAD + g] + Without(chain, x);
    forall h | 0 <= h < NC_HASH_SIZE ensures Ring(l', [HEAD + h] + Without(c.chains[h], x)) {
      if h != g {
        NotThere(c.chains[h], x);
        OtherRing(l, l', c, g, h);
      }
    }
    forall i | 0 <= i < NC_SIZE && !Used(c.slots[i]) ensures Ring(l', [i]) {
      FreeNowhere(c, i, g);
      assert SameAt(l, l', i);
      RingFrame(l, l', [i]);
    }
  }

  /** What changes only links of chain `g` leaves the ring of chain `h`. */
  lemma OtherRing(l: Links, l': Links, c: Cache, g: nat, h: nat)
    requires Inv(c) && HashRings(l, c) && g < NC_HASH_SIZE && h < NC_HASH_SIZE && g != h
    requires |l'.next| == |l'.prev| == |l.next|
    requires forall y :: 0 <= y < |l.next| && y !in ChainRing(c, g) ==> SameAt(l, l', y)
    ensures Ring(l', ChainRing(c, h))
  {
    var cyc := ChainRing(c, h);
    assert Ring(l, cyc);
    forall i | 0 <= i < |cyc| ensures SameAt(l, l', cyc[i]) {
      assert cyc[i] in cyc;
      ChainsApart(c, h, g, cyc[i]);
    }
    RingFrame(l, l', cyc);
  }

  /** `insque` of a slot that is on no chain puts it on chain `g`, behind the k-th node. */
  lemma Rehash(l: Links, chains: seq<seq<nat>>, g: nat, k: nat, x: nat)
    requires |chains| == NC_HASH_SIZE && g < NC_HASH_SIZE && k <= |chains[g]| && x < NC_SIZE
    requires |l.next| == |l.prev| == NC_SIZE + NC_HASH_SIZE
    requires forall h :: 0 <= h < NC_HASH_SIZE ==> Ring(l, [HEAD + h] + chains[h]) && x !in chains[h]
    requires forall h, y :: 0 <= h < NC_HASH_SIZE && y in chains[h] ==> y < NC_SIZE && (h != g ==> y !in chains[g])
    ensures ([HEAD + g] + chains[g])[k] < |l.next| && l.next[([HEAD + g] + chains[g])[k]] < |l.next|
    ensures var l' := Insque(l, x, ([HEAD + g] + chains[g])[k]);
      && (forall h :: 0 <= h < NC_HASH_SIZE && h != g ==> Ring(l', [HEAD + h] + chains[h]))
      && Ring(l', [HEAD + g] + (chains[g][..k] + [x] + chains[g][k..]))
      && forall i :: 0 <= i < NC_SIZE && i != x && i !in chains[g] ==> SameAt(l, l', i)
  {
    hide Ring, Insque;
    var cyc := [HEAD + g] + chains[g];
    InsqueRing(l, cyc, k, x);
    var l' := Insque(l, x, cyc[k]);
    assert Inserted(cyc, k, x) == [HEAD + g] + (chains[g][..k] + [x] + chains[g][k..]);
    forall h | 0 <= h < NC_HASH_SIZE && h != g ensures Ring(l', [HEAD + h] + chains[h]) {
      var other := [HEAD + h] + chains[h];
      forall i | 0 <= i < |other| ensures other[i] < |l.next| && SameAt(l, l', other[i]) {
        var y := other[i];
        assert if i == 0 then y == HEAD + h else y == chains[h][i - 1] && y in chains[h];
        assert y in cyc <==> y == HEAD + g || y in chains[g];
        assert y in chains[g] ==> y < NC_SIZE;
        assert i > 0 ==> y in chains[h] && y !in chains[g] && y < NC_SIZE;
        assert y != x && y !in cyc && y < |l.next|;
        assert SameAt(l, l', y);
      }
      RingFrame(l, l', other);
    }
  }

  // ----- the links after each operation -----

  lemma LruOut(l: Links, lru: seq<nat>, x: nat)
    requires LruRing(l, lru) && x in lru && x < NC_SIZE
    ensures l.next[x] < |l.next| && l.prev[x] < |l.next| && LruRing(Remque(l, x), Without(lru, x))
  {
    hide Ring, Without, Remque;
    var k :| 0 <= k < |lru| && lru[k] == x;
    var cyc := [HEAD] + lru;
    assert cyc[k + 1] == x;
    RemqueRing(l, cyc, k + 1);
    LruDistinct(l, lru);
    WithoutAt(lru, k);
    assert Removed(cyc, k + 1) == [HEAD] + Without(lru, x);
  }

  lemma LruFirst(l: Links, lru: seq<nat>, x: nat)
    requires LruRing(l, lru) && x !in lru && x < NC_SIZE
    ensures l.next[HEAD] < |l.next| && LruRing(Insque(l, x, HEAD), [x] + lru)
  {
    hide Ring, Insque;
    var cyc := [HEAD] + lru;
    InsqueRing(l, cyc, 0, x);
    assert Inserted(cyc, 0, x) == [HEAD] + ([x] + lru);
  }

  lemma LruLast(l: Links, lru: seq<nat>, x: nat)
    requires LruRing(l, lru) && x !in lru && x < NC_SIZE
    ensures l.prev[HEAD] < |l.next| && l.next[l.prev[HEAD]] < |l.next| && LruRing(Insque(l, x, l.prev[HEAD]), lru + [x])
  {
    hide Ring, Insque;
    var cyc := [HEAD] + lru;
    RingNext(l, cyc, 0);
    InsqueRing(l, cyc, |lru|, x);
    assert Inserted(cyc, |lru|, x) == [HEAD] + (lru + [x]);
  }

  lemma RmLinks(l: Links, c: Cache, x: nat)
    requires Inv(c) && HashRings(l, c) && x < NC_SIZE
    ensures l.next[x] < |l.next| && l.prev[x] < |l.next| && Inv(Rm(c, x)) && HashRings(Alone(Remque(l, x), x), Rm(c, x))
  {
    hide Ring, Without, Hash, Inv;
    InvParts(c, 0);
    Unhash(l, c, x);
    RmInv(c, x);
    InvParts(Rm(c, x), x);
    UnchainedIs(c, x);
    var m := Remque(l, x);
    var l', chains := Alone(m, x), Unchained(c, x);
    forall h | 0 <= h < NC_HASH_SIZE ensures Ring(l', [HEAD + h] + chains[h]) {
      var cyc := [HEAD + h] + chains[h];
      Untouched(m, l', cyc, x);
    }
    forall i | 0 <= i < NC_SIZE && !Used(Rm(c, x).slots[i]) ensures Ring(l', [i]) {
      if i == x {
        RingAlone(m, x);
      } else {
        Untouched(m, l', [i], x);
      }
    }
  }

  lemma Untouched(l: Links, l': Links, cyc: seq<nat>, x: nat)
    requires Ring(l, cyc) && x !in cyc && x < |l.next| && l' == Alone(l, x)
    ensures Ring(l', cyc)
  {
    RingFrame(l, l', cyc);
  }

  lemma EnterLinks(l: Links, c: Cache, dp: Vnode, name: seq<char>, vp: Vnode, cred: int)
    requires Inv(c) && HashRings(l, c) && name != [] && dp != 0 && vp != 0 && cred != ANYCRED
    requires |name| <= NC_NAMLEN && Found(c, dp, name, cred) == |Chain(c, name, dp)|
    ensures c.lru[0] < NC_SIZE && l.next[c.lru[0]] < |l.next| && l.prev[c.lru[0]] < |l.next|
    ensures Remque(l, c.lru[0]).next[HEAD + Hash(name, dp)] < |l.next| && Inv(Enter(c, dp, name, vp, cred))
    ensures HashRings(Insque(Remque(l, c.lru[0]), c.lru[0], HEAD + Hash(name, dp)), Enter(c, dp, name, vp, cred))
  {
    hide Ring, Without, Hash, Inv, Found, Remque, Insque;
    InvParts(c, 0);
    EnterInv(c, dp, name, vp, cred);
    var c' := Enter(c, dp, name, vp, cred);
    InvParts(c', 0);
    var x, h := c.lru[0], Hash(name, dp);
    Unhash(l, c, x);
    UnchainedIs(c, x);
    UnchainedApart(c, x);
    var m, chains := Remque(l, x), Unchained(c, x);
    Rehash(m, chains, h, 0, x);
    var l' := Insque(m, x, HEAD + h);
    assert chains[h][..0] + [x] + chains[h][0..] == [x] + chains[h];
    forall i | 0 <= i < NC_SIZE && !Used(c'.slots[i]) ensures Ring(l', [i]) {
      assert i != x && !Used(c.slots[i]);
      assert i !in chains[h] by { FreeNowhere(c, i, h); }
      assert SameAt(m, l', i);
      RingFrame(m, l', [i]);
    }
  }

  lemma FreeNowhere(c: Cache, i: nat, h: nat)
    requires Inv(c) && i < NC_SIZE && !Used(c.slots[i]) && h < NC_HASH_SIZE
    ensures i !in c.chains[h]
  {
    assert ChainedOk(c, i);
  }

  lemma UnchainedApart(c: Cache, x: nat)
    requires Inv(c) && x < NC_SIZE
    ensures forall g, h, y :: 0 <= g < NC_HASH_SIZE && 0 <= h < NC_HASH_SIZE && y in Unchained(c, x)[h] ==>
      y < NC_SIZE && (h != g ==> y !in Unchained(c, x)[g])
  {
    hide Hash, Without;
    UnchainedIs(c, x);
    forall g, h, y | 0 <= g < NC_HASH_SIZE && 0 <= h < NC_HASH_SIZE && y in Unchained(c, x)[h]
      ensures y < NC_SIZE && (h != g ==> y !in Unchained(c, x)[g])
    {
      assert y in c.chains[h];
      assert ChainedOk(c, y);
    }
  }

  /** Moving the k-th slot of a chain one place forward. */
  lemma LookupLinks(l: Links, c: Cache, h: nat, k: nat, lru: seq<nat>)
    requires Inv(c) && HashRings(l, c) && h < NC_HASH_SIZE && 0 < k < |c.chains[h]|
    requires ListsOk(c.(lru := lru, chains := c.chains[h := Forward(c.chains[h], k)]))
    ensures c.chains[h][k] < NC_SIZE && l.prev[c.chains[h][k]] < |l.next| && l.next[c.chains[h][k]] < |l.next|
    ensures l.prev[l.prev[c.chains[h][k]]] < |l.next| && l.prev[c.chains[h][k]] != HEAD + h
    ensures Remque(l, c.chains[h][k]).next[l.prev[l.prev[c.chains[h][k]]]] < |l.next|
    ensures var x := c.chains[h][k];
      HashRings(Insque(Remque(l, x), x, l.prev[l.prev[x]]),
        c.(lru := lru, chains := c.chains[h := Forward(c.chains[h], k)]))
  {
    hide Ring, Without, Hash, Inv, Remque, Insque;
    InvParts(c, 0);
    var chain := c.chains[h];
    var x, cyc := chain[k], ChainRing(c, h);
    assert Ring(l, cyc) && cyc[k + 1] == x && cyc[k] == chain[k - 1];
    RingNext(l, cyc, k + 1);
    RingNext(l, cyc, k);
    assert x in chain && Used(c.slots[x]) by { OnChain(c, h, x); }
    Unhash(l, c, x);
    UnchainedIs(c, x);
    UnchainedApart(c, x);
    WithoutAt(chain, k);
    var m, chains := Remque(l, x), Unchained(c, x);
    assert ([HEAD + h] + chains[h])[k - 1] == cyc[k - 1];
    Rehash(m, chains, h, k - 1, x);
    var l' := Insque(m, x, cyc[k - 1]);
    ForwardSlices(chain, k);
    var c' := c.(lru := lru, chains := c.chains[h := Forward(chain, k)]);
    forall g | 0 <= g < NC_HASH_SIZE ensures Ring(l', ChainRing(c', g)) {
      if g != h { ElsewhereNot(c, x, h, g); }
    }
    forall i | 0 <= i < NC_SIZE && !Used(c.slots[i]) ensures Ring(l', [i]) {
      assert i !in chains[h] by { FreeNowhere(c, i, h); }
      assert SameAt(m, l', i);
      RingFrame(m, l', [i]);
    }
  }

  lemma ForwardSlices(chain: seq<nat>, k: nat)
    requires 0 < k < |chain|
    ensures var w := chain[..k] + chain[k + 1..]; w[..k - 1] + [chain[k]] + w[k - 1..] == Forward(chain, k)
  {
    var w := chain[..k] + chain[k + 1..];
    assert w[..k - 1] == chain[..k - 1] && w[k - 1..] == [chain[k - 1]] + chain[k + 1..];
  }

  lemma ElsewhereNot(c: Cache, x: nat, h: nat, g: nat)
    requires Inv(c) && h < NC_HASH_SIZE && g < NC_HASH_SIZE && g != h && x < NC_SIZE && x in c.chains[h]
    ensures Unchained(c, x)[g] == c.chains[g]
  {
    hide Hash;
    assert ChainedOk(c, x);
    NotThere(c.chains[g], x);
  }

  /** From its place on the list by last use to the front, or to the end. */
  lemma LruToFirst(l: Links, c: Cache, x: nat)
    requires ListsOk(c) && LruRing(l, c.lru) && x < NC_SIZE
    ensures |l.next| == |l.prev| == NC_SIZE + 1 && l.next[x] < |l.next| && l.prev[x] < |l.next|
    ensures Remque(l, x).next[HEAD] < |l.next|
    ensures LruRing(Insque(Remque(l, x), x, HEAD), [x] + Without(c.lru, x))
  {
    hide Ring, Without, Insque, Remque;
    LruOut(l, c.lru, x);
    WithoutIs(c.lru, x);
    LruFirst(Remque(l, x), Without(c.lru, x), x);
  }

  lemma LruToLast(l: Links, c: Cache, x: nat)
    requires ListsOk(c) && LruRing(l, c.lru) && x < NC_SIZE
    ensures |l.next| == |l.prev| == NC_SIZE + 1 && l.next[x] < |l.next| && l.prev[x] < |l.next|
    ensures Remque(l, x).prev[HEAD] < |l.next| && Remque(l, x).next[Remque(l, x).prev[HEAD]] < |l.next|
    ensures LruRing(Insque(Remque(l, x), x, Remque(l, x).prev[HEAD]), Without(c.lru, x) + [x])
  {
    hide Ring, Without, Insque, Remque;
    LruOut(l, c.lru, x);
    WithoutIs(c.lru, x);
    LruLast(Remque(l, x), Without(c.lru, x), x);
  }

  lemma FirstWithout(lru: seq<nat>)
    requires lru != []
    ensures Without(lru, lru[0]) == lru[1..]
  {
  }

  lemma SameRings(l: Links, c: Cache, c': Cache)
    requires ListsOk(c) && ListsOk(c') && HashRings(l, c) && c'.slots == c.slots && c'.chains == c.chains
    ensures HashRings(l, c')
  {
    forall h | 0 <= h < NC_HASH_SIZE ensures Ring(l, ChainRing(c', h)) { assert Ring(l, ChainRing(c, h)); }
  }

  /** The slots before `n`, the last one first. */
  function Down(n: nat): (s: seq<nat>)
    ensures |s| == n && forall k :: 0 <= k < n ==> s[k] == n - 1 - k
  {
    if n == 0 then [] else [n - 1] + Down(n - 1)
  }

  function Same(n: nat, v: nat): (s: seq<nat>)
    ensures |s| == n && forall i :: 0 <= i < n ==> s[i] == v
  {
    seq(n, _ => v)
  }

  function NoSlots(): (s: seq<Slot>)
    ensures |s| == NC_SIZE && forall i :: 0 <= i < NC_SIZE ==> s[i] == Slot(0, "", 0, NOCRED)
  {
    seq(NC_SIZE, _ => Slot(0, "", 0, NOCRED))
  }

  function NoChains(): (s: seq<seq<nat>>)
    ensures |s| == NC_HASH_SIZE && forall h :: 0 <= h < NC_HASH_SIZE ==> s[h] == []
  {
    seq(NC_HASH_SIZE, _ => [])
  }

  ghost function Start(): Cache {
    Cache(NoSlots(), Down(NC_SIZE), NoChains(), multiset{}, multiset{})
  }

  lemma DownMore(n: nat)
    ensures Down(n + 1) == [n] + Down(n)
  {
  }

  lemma StartRings(l: Links)
    requires |l.next| == |l.prev| == NC_SIZE + NC_HASH_SIZE
    requires forall j :: 0 <= j < NC_SIZE + NC_HASH_SIZE ==> l.next[j] == j == l.prev[j]
    ensures ListsOk(Start()) && HashRings(l, Start())
  {
    hide Down, NoSlots, NoChains;
    StartInv();
    assert ListsOk(Start());
    hide Inv, ListsOk;
    forall h | 0 <= h < NC_HASH_SIZE ensures Ring(l, ChainRing(Start(), h)) {
      assert ChainRing(Start(), h) == [HEAD + h];
    }
    forall i | 0 <= i < NC_SIZE ensures Ring(l, [i]) {}
  }

  lemma StartInv()
    ensures Inv(Start()) && Fresh(Start())
  {
    hide Down, Hash, AllHolds, NoSlots, NoChains;
    var c := Start();
    NoHolds(c.slots);
    forall x: nat | x < NC_SIZE ensures x in c.lru { assert c.lru[NC_SIZE - 1 - x] == x; }
    forall i | 0 <= i < NC_SIZE ensures ChainedOk(c, i) {}
  }

  /** From an empty cache on: 33 names with credentials, and one hold on credentials is lost. */
  lemma CredentialsLeak()
    ensures AllProper(Filling(NC_SIZE + 1)) && Inv(Start())
    ensures var r := NameCache.Run(Start(), Filling(NC_SIZE + 1)); r.crheld != AllCredits(r.slots)
  {
    hide *;
    StartInv();
    RunLeaks(Start());
  }

  /** Following a chain from its head, or from its slot before position `k`. */
  lemma ChainNext(l: Links, c: Cache, h: nat, k: nat)
    requires h < |c.chains| && Ring(l, ChainRing(c, h)) && k <= |c.chains[h]|
    ensures var at := if k == 0 then HEAD + h else c.chains[h][k - 1];
      at < |l.next| && l.next[at] == if k < |c.chains[h]| then c.chains[h][k] else HEAD + h
  {
    RingNext(l, ChainRing(c, h), k);
  }

  lemma SearchStep(slots: seq<Slot>, chain: seq<nat>, k: nat, dp: Vnode, name: seq<char>, cred: int)
    requires k <= |chain| && forall i :: 0 <= i < |chain| ==> chain[i] < |slots|
    ensures NameCache.Search(slots, chain[k..], dp, name, cred) ==
      if k == |chain| || Matches(slots[chain[k]], dp, name, cred) then 0
      else 1 + NameCache.Search(slots, chain[k + 1..], dp, name, cred)
  {
    if k < |chain| { assert chain[k..][1..] == chain[k + 1..]; }
  }

  lemma FillSums(held: multiset<Vnode>, dp: Vnode, vp: Vnode, crheld: multiset<int>, cred: int)
    ensures held + multiset{dp} + multiset{vp} == held + multiset{dp, vp}
    ensures crheld + Credit(cred) == if cred != NOCRED then crheld + multiset{cred} else crheld
  {
  }

  class Dnlc {
    var lnext: seq<nat>             // the list by last use
    var lprev: seq<nat>
    var hnext: seq<nat>             // the hash chains
    var hprev: seq<nat>
    var slots: seq<Slot>
    var held: multiset<Vnode>       // the cache's holds on vnodes
    var crheld: multiset<int>       // the cache's holds on credentials
    ghost var c: Cache

    ghost predicate Valid()
      reads this
    {
      && Inv(c) && slots == c.slots && held == c.held && crheld == c.crheld
      && LruRing(Links(lnext, lprev), c.lru) && HashRings(Links(hnext, hprev), c)
    }

    /** `dnlc_init`: all slots on the list by last use, and none on a chain. */
    constructor ()
      ensures Valid() && c == Start() && InUse(c.slots) == {} && held == multiset{} && crheld == multiset{}
    {
      hide Inv, HashRings, LruRing, Ring, Down, InUse, Same, NoSlots, NoChains;
      lnext, lprev := Same(NC_SIZE + 1, HEAD), Same(NC_SIZE + 1, HEAD);
      hnext, hprev := Same(NC_SIZE + NC_HASH_SIZE, 0), Same(NC_SIZE + NC_HASH_SIZE, 0);
      slots := NoSlots();
      held, crheld := multiset{}, multiset{};
      c := Start();
      new;
      InitSlots();
      InitHeads();
      StartInv();
      StartRings(Links(hnext, hprev));
    }

    /** All slots on the list by last use, and each alone on a chain. */
    method InitSlots()
      requires |hnext| == |hprev| == NC_SIZE + NC_HASH_SIZE
      requires |lnext| == |lprev| == NC_SIZE + 1 && lnext[HEAD] == HEAD == lprev[HEAD]
      modifies this`lnext, this`lprev, this`hnext, this`hprev
      ensures |hnext| == |hprev| == NC_SIZE + NC_HASH_SIZE && forall j :: 0 <= j < NC_SIZE ==> hnext[j] == j == hprev[j]
      ensures LruRing(Links(lnext, lprev), Down(NC_SIZE))
    {
      hide Down, Insque;
      var i := 0;
      assert [HEAD] + Down(0) == [HEAD] && LruRing(Links(lnext, lprev), Down(0));
      hide LruRing, Ring;
      while i < NC_SIZE
        invariant 0 <= i <= NC_SIZE && |hnext| == |hprev| == NC_SIZE + NC_HASH_SIZE
        invariant |lnext| == |lprev| == NC_SIZE + 1 && LruRing(Links(lnext, lprev), Down(i))
        invariant forall j :: 0 <= j < i ==> hnext[j] == j == hprev[j]
      {
        LruFirst(Links(lnext, lprev), Down(i), i);
        DownMore(i);
        InsLru(i, HEAD);
        NullHash(i);
        i := i + 1;
      }
    }

    method InitHeads()
      requires |hnext| == |hprev| == NC_SIZE + NC_HASH_SIZE
      requires forall j :: 0 <= j < NC_SIZE ==> hnext[j] == j == hprev[j]
      modifies this`hnext, this`hprev
      ensures |hnext| == |hprev| == NC_SIZE + NC_HASH_SIZE
      ensures forall j :: 0 <= j < NC_SIZE + NC_HASH_SIZE ==> hnext[j] == j == hprev[j]
    {
      var i := 0;
      while i < NC_HASH_SIZE
        invariant 0 <= i <= NC_HASH_SIZE && |hnext| == |hprev| == NC_SIZE + NC_HASH_SIZE
        invariant forall j :: 0 <= j < NC_SIZE + i ==> hnext[j] == j == hprev[j]
      {
        NullHash(HEAD + i);
        i := i + 1;
      }
    }

    /** `insque2` on the list by last use. */
    method InsLru(x: nat, p: nat)
      requires |lnext| == |lprev| && x < |lnext| && p < |lnext| && lnext[p] < |lnext|
      modifies this`lnext, this`lprev
      ensures Links(lnext, lprev) == Insque(old(Links(lnext, lprev)), x, p)
    {
      var q := lnext[p];
      lnext := lnext[p := x];
      lnext := lnext[x := q];
      lprev := lprev[q := x];
      lprev := lprev[x := p];
    }

    /** `remque2`. */
    method RmLru(x: nat)
      requires |lnext| == |lprev| && x < |lnext| && lnext[x] < |lnext| && lprev[x] < |lnext|
      modifies this`lnext, this`lprev
      ensures Links(lnext, lprev) == Remque(old(Links(lnext, lprev)), x)
    {
      var next, prev := lnext[x], lprev[x];
      lnext := lnext[prev := next];
      lprev := lprev[next := prev];
    }

    method InsHash(x: nat, p: nat)
      requires |hnext| == |hprev| && x < |hnext| && p < |hnext| && hnext[p] < |hnext|
      modifies this`hnext, this`hprev
      ensures Links(hnext, hprev) == Insque(old(Links(hnext, hprev)), x, p)
    {
      var q := hnext[p];
      hnext := hnext[p := x];
      hnext := hnext[x := q];
      hprev := hprev[q := x];
      hprev := hprev[x := p];
    }

    method RmHash(x: nat)
      requires |hnext| == |hprev| && x < |hnext| && hnext[x] < |hnext| && hprev[x] < |hnext|
      modifies this`hnext, this`hprev
      ensures Links(hnext, hprev) == Remque(old(Links(hnext, hprev)), x)
    {
      var next, prev := hnext[x], hprev[x];
      hnext := hnext[prev := next];
      hprev := hprev[next := prev];
    }

    method NullHash(x: nat)
      requires |hnext| == |hprev| && x < |hnext|
      modifies this`hnext, this`hprev
      ensures Links(hnext, hprev) == Alone(old(Links(hnext, hprev)), x)
    {
      hnext, hprev := hnext[x := x], hprev[x := x];
    }

    /** Walks the chain of a hash value: the slot, or the head if there is no match; `k` is its place. */
    method Search(dp: Vnode, name: seq<char>, hash: nat, cred: int) returns (ncp: nat, ghost k: nat)
      requires Valid() && name != [] && hash == Hash(name, dp)
      ensures k == Found(c, dp, name, cred)
      ensures if k < |c.chains[hash]| then ncp == c.chains[hash][k] < NC_SIZE else ncp == HEAD + hash
    {
      InvParts(c, 0);
      ghost var l, chain := Links(hnext, hprev), c.chains[hash];
      assert Ring(l, ChainRing(c, hash));
      hide Ring, Inv, Hash, HashRings, LruRing, ChainRing, ChainedOk, Matches, NameCache.Search;
      k := 0;
      ChainNext(l, c, hash, 0);
      ncp := hnext[HEAD + hash];
      assert chain[0..] == chain;
      while ncp != HEAD + hash
        invariant k <= |chain| && ncp == if k < |chain| then chain[k] else HEAD + hash
        invariant NameCache.Search(slots, chain, dp, name, cred) ==
          k + NameCache.Search(slots, chain[k..], dp, name, cred)
        decreases |chain| - k
      {
        SearchStep(slots, chain, k, dp, name, cred);
        if Matches(slots[ncp], dp, name, cred) {
          return;
        }
        ChainNext(l, c, hash, k + 1);
        ncp := hnext[ncp];
        k := k + 1;
      }
      SearchStep(slots, chain, k, dp, name, cred);
    }

    /** `VN_HOLD` and `VN_RELE`. */
    method VnHold(v: Vnode)
      modifies this`held
      ensures held == old(held) + multiset{v}
    {
      held := held + multiset{v};
    }

    method VnRele(v: Vnode)
      requires v in held
      modifies this`held
      ensures held == old(held) - multiset{v}
    {
      held := held - multiset{v};
    }

    /** Gives up what a slot in use holds, and clears it. */
    method Clear(ncp: nat)
      requires ncp < |slots| && Used(slots[ncp]) && Holds(slots[ncp]) <= held
      modifies this`slots, this`held, this`crheld
      ensures slots == old(slots)[ncp := old(slots)[ncp].(dp := 0, vp := 0, cred := NOCRED)]
      ensures held == old(held) - Holds(old(slots)[ncp]) && crheld == old(crheld) - Credit(old(slots)[ncp].cred)
    {
      ghost var s := slots[ncp];
      assert held == held - multiset{s.dp, s.vp} + multiset{s.dp} + multiset{s.vp};
      VnRele(slots[ncp].dp);
      slots := slots[ncp := slots[ncp].(dp := 0)];
      VnRele(slots[ncp].vp);
      slots := slots[ncp := slots[ncp].(vp := 0)];
      if slots[ncp].cred != NOCRED {
        crheld := crheld - multiset{slots[ncp].cred};
        slots := slots[ncp := slots[ncp].(cred := NOCRED)];
      }
    }

    /** Gives up the vnodes that a slot holds, if any. */
    method Release(ncp: nat)
      requires ncp < |slots| && SlotOk(slots[ncp]) && Holds(slots[ncp]) <= held
      modifies this`held
      ensures held == old(held) - Holds(slots[ncp])
    {
      ghost var s := slots[ncp];
      if Used(s) { assert held == held - multiset{s.dp, s.vp} + multiset{s.dp} + multiset{s.vp}; }
      if slots[ncp].dp != 0 {
        VnRele(slots[ncp].dp);
      }
      if slots[ncp].vp != 0 {
        VnRele(slots[ncp].vp);
      }
    }

    /** Fills a slot. */
    method Fill(ncp: nat, dp: Vnode, name: seq<char>, vp: Vnode, cred: int)
      requires ncp < |slots|
      modifies this`slots, this`held, this`crheld
      ensures slots == old(slots)[ncp := Slot(dp, name, vp, cred)]
      ensures held == old(held) + multiset{dp, vp} && crheld == old(crheld) + Credit(cred)
    {
      FillSums(held, dp, vp, crheld, cred);
      hide Credit;
      slots := slots[ncp := slots[ncp].(dp := dp)];
      VnHold(dp);
      slots := slots[ncp := slots[ncp].(vp := vp)];
      VnHold(vp);
      slots := slots[ncp := slots[ncp].(name := name)];
      slots := slots[ncp := slots[ncp].(cred := cred)];
      if cred != NOCRED {
        crheld := crheld + multiset{cred};
      }
    }

    /** Obliterates the entry in a slot in use. */
    method Rm(ncp: nat)
      requires Valid() && ncp < NC_SIZE && Used(slots[ncp])
      modifies this
      ensures Valid() && c == NameCache.Rm(old(c), ncp)
    {
      hide Ring, Inv, Without, Insque, Remque, Alone, HashRings, LruRing, Holds, Unchained, ChainedOk, Distinct,
        Credit, SlotOk;
      InvParts(c, 0);
      RmLinks(Links(hnext, hprev), c, ncp);
      LruToFirst(Links(lnext, lprev), c, ncp);
      HeldBySlot(c, ncp);
      HashSizes(Links(hnext, hprev), c);
      RmLru(ncp);
      RmHash(ncp);
      Clear(ncp);
      InsLru(ncp, HEAD);
      NullHash(ncp);
      c := NameCache.Rm(c, ncp);
    }

    /** Enters a name in the slot used least recently. */
    method Recycle(dp: Vnode, name: seq<char>, vp: Vnode, cred: int, hash: nat)
      requires Valid() && dp != 0 && name != [] && vp != 0 && cred != ANYCRED && hash == Hash(name, dp)
      requires |name| <= NC_NAMLEN && Found(c, dp, name, cred) == |Chain(c, name, dp)|
      modifies this
      ensures Valid() && c == NameCache.Enter(old(c), dp, name, vp, cred)
    {
      hide Ring, Inv, Hash, Insque, Remque, HashRings, LruRing, Unchained, Holds, Found, SlotOk, Without, Credit;
      hide Chain, Matches;
      InvParts(c, 0);
      ghost var x := c.lru[0];
      FirstLru(Links(lnext, lprev), c.lru);
      EnterLinks(Links(hnext, hprev), c, dp, name, vp, cred);
      LruToLast(Links(lnext, lprev), c, x);
      FirstWithout(c.lru);
      HeldBySlot(c, x);
      HashSizes(Links(hnext, hprev), c);
      var ncp := lnext[HEAD];
      RmLru(ncp);
      RmHash(ncp);
      Release(ncp);
      Fill(ncp, dp, name, vp, cred);
      InsLru(ncp, lprev[HEAD]);
      InsHash(ncp, HEAD + hash);
      c := NameCache.Enter(c, dp, name, vp, cred);
    }

    /** Adds a name to the cache, unless it is long or there already. */
    method Enter(dp: Vnode, name: seq<char>, vp: Vnode, cred: int)
      requires Valid() && dp != 0 && name != [] && vp != 0 && cred != ANYCRED
      modifies this
      ensures Valid() && c == NameCache.Enter(old(c), dp, name, vp, cred)
    {
      hide Ring, Hash, HashRings, LruRing, Found, Inv;
      InvParts(c, 0);
      var namlen := |name|;
      if namlen > NC_NAMLEN {
        return;
      }
      var hash := Hash(name, dp);
      var ncp;
      ghost var k;
      ncp, k := Search(dp, name, hash, cred);
      if ncp != HEAD + hash {
        return;
      }
      Recycle(dp, name, vp, cred, hash);
    }

    /** Looks a name up: the vnode, or 0. */
    method Lookup(dp: Vnode, name: seq<char>, cred: int) returns (vp: Vnode)
      requires Valid() && name != []
      modifies this
      ensures Valid() && (c, vp) == NameCache.Lookup(old(c), dp, name, cred)
      ensures dp != 0 ==> NameHits.Answers(old(c).slots, dp, name, cred, vp)
    {
      hide Found, SlotOk, ChainRing, Ring, Inv, Hash, Without, Insque, Remque, HashRings, LruRing, NameHits.Answers;
      InvParts(c, 0);
      if dp != 0 { NameHits.LookupExact(c, dp, name, cred); }
      if |name| > NC_NAMLEN {
        return 0;
      }
      var hash := Hash(name, dp);
      var ncp;
      ghost var k;
      ncp, k := Search(dp, name, hash, cred);
      if ncp == HEAD + hash {
        return 0;
      }
      LookupInv(c, dp, name, cred);
      ghost var c' := NameCache.Lookup(c, dp, name, cred).0;
      InvParts(c', 0);
      LruToLast(Links(lnext, lprev), c, ncp);
      RmLru(ncp);
      InsLru(ncp, lprev[HEAD]);
      HashSizes(Links(hnext, hprev), c);
      AtFront(Links(hnext, hprev), c, hash, k);
      if k == 0 { SameRings(Links(hnext, hprev), c, c'); }
      if k > 0 { LookupLinks(Links(hnext, hprev), c, hash, k, c'.lru); }
      if hprev[ncp] != HEAD + hash {
        var prev := hprev[hprev[ncp]];
        RmHash(ncp);
        InsHash(ncp, prev);
      }
      vp := slots[ncp].vp;
      c := c';
    }

    /** Removes a name, for all credentials. */
    method Remove(dp: Vnode, name: seq<char>)
      requires Valid() && name != [] && dp != 0
      modifies this
      ensures Valid() && c == NameCache.Remove(old(c), dp, name)
    {
      hide Ring, Hash, HashRings, NameCache.Rm, ChainedOk, KeysUnique, FreeFirst, SlotOk, Distinct;
      if |name| > NC_NAMLEN {
        return;
      }
      var hash := Hash(name, dp);
      var ncp;
      ghost var k;
      ncp, k := Search(dp, name, hash, ANYCRED);
      while ncp != HEAD + hash
        invariant Valid() && k == Found(c, dp, name, ANYCRED)
        invariant if k < |c.chains[hash]| then ncp == c.chains[hash][k] < NC_SIZE else ncp == HEAD + hash
        invariant NameCache.Remove(c, dp, name) == NameCache.Remove(old(c), dp, name)
        decreases InUse(c.slots)
      {
        InvParts(c, 0);
        OnChain(c, hash, ncp);
        RmLess(c, ncp);
        Rm(ncp);
        ncp, k := Search(dp, name, hash, ANYCRED);
      }
    }

    /** Purges the whole cache, from the first chain on again and again. */
    method Purge()
      requires Valid()
      modifies this
      ensures Valid() && c == NameCache.Purge(old(c))
    {
      hide Ring, Hash, NameCache.Rm, ChainedOk, KeysUnique, FreeFirst, SlotOk, Distinct;
      var h := 0;
      while h < NC_HASH_SIZE
        invariant 0 <= h <= NC_HASH_SIZE && Valid() && FirstChain(c.chains, 0) == FirstChain(c.chains, h)
        invariant NameCache.Purge(c) == NameCache.Purge(old(c))
        decreases InUse(c.slots), NC_HASH_SIZE - h
      {
        InvParts(c, 0);
        assert Ring(Links(hnext, hprev), ChainRing(c, h));
        RingNext(Links(hnext, hprev), ChainRing(c, h), 0);
        var ncp := hnext[HEAD + h];
        if ncp != HEAD + h {
          assert ncp == c.chains[h][0];
          OnChain(c, h, ncp);
          RmLess(c, ncp);
          Rm(ncp);
          h := 0;
        } else {
          h := h + 1;
        }
      }
    }
  }

  lemma HeldBySlot(c: Cache, x: nat)
    requires Inv(c) && x < NC_SIZE
    ensures SlotOk(c.slots[x]) && Holds(c.slots[x]) <= c.held
  {
    assert ChainedOk(c, x);
    HoldsUpdate(c.slots, x, c.slots[x]);
  }

  lemma FirstLru(l: Links, lru: seq<nat>)
    requires LruRing(l, lru) && lru != []
    ensures |l.next| == NC_SIZE + 1 && l.next[HEAD] == lru[0] && lru[0] in lru
  {
    RingNext(l, [HEAD] + lru, 0);
  }

  /** The first slot of a chain is behind its head. */
  lemma AtFront(l: Links, c: Cache, h: nat, k: nat)
    requires Inv(c) && HashRings(l, c) && h < NC_HASH_SIZE && k < |c.chains[h]|
    ensures c.chains[h][k] < |l.prev| && (k == 0 ==> l.prev[c.chains[h][k]] == HEAD + h)
  {
    assert Ring(l, ChainRing(c, h));
    RingNext(l, ChainRing(c, h), k + 1);
  }
}
