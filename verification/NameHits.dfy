/** What the name cache finds: a name that is in it is hit, and a name that is in use stays in it. */
module NameHits {
  import opened NameCache

  /** `vp` is 0 exactly when no slot has the name, and otherwise the vnode of a slot that has it. */
  ghost predicate Answers(slots: seq<Slot>, dp: Vnode, name: seq<char>, cred: int, vp: Vnode) {
    if vp == 0 then forall s :: s in slots ==> !Matches(s, dp, name, cred)
    else exists s :: s in slots && Matches(s, dp, name, cred) && s.vp == vp
  }

  /** A lookup hits exactly when some slot has the name, and then gives the vnode of such a slot. */
  lemma LookupExact(c: Cache, dp: Vnode, name: seq<char>, cred: int)
    requires Inv(c) && name != [] && dp != 0
    ensures Answers(c.slots, dp, name, cred, Lookup(c, dp, name, cred).1)
  {
    hide AllHolds, Hash, Without;
    FoundIff(c, dp, name, cred);
    var k := Found(c, dp, name, cred);
    if k < |Chain(c, name, dp)| {
      var x := Chain(c, name, dp)[k];
      assert Matches(c.slots[x], dp, name, cred) && ChainedOk(c, x);
    }
  }

  /** With given credentials there is one such slot at most. */
  lemma LookupOne(c: Cache, i: nat)
    requires Inv(c) && i < NC_SIZE && Used(c.slots[i])
    ensures var s := c.slots[i]; s.name != [] && Lookup(c, s.dp, s.name, s.cred).1 == s.vp
  {
    hide AllHolds, Hash, Without;
    assert ChainedOk(c, i);
    var s := c.slots[i];
    assert Matches(s, s.dp, s.name, s.cred);
    LookupExact(c, s.dp, s.name, s.cred);
    assert s in c.slots && Answers(c.slots, s.dp, s.name, s.cred, Lookup(c, s.dp, s.name, s.cred).1);
    var t :| t in c.slots && Matches(t, s.dp, s.name, s.cred) && t.vp == Lookup(c, s.dp, s.name, s.cred).1;
    var j :| 0 <= j < NC_SIZE && c.slots[j] == t;
    assert SameKey(c.slots[j], s) && SameKey(s, c.slots[j]);
  }

  // ----- how long ago a slot was used -----

  datatype Key = Key(dp: Vnode, name: seq<char>, cred: int)

  function KeyOf(s: Slot): Key {
    Key(s.dp, s.name, s.cred)
  }

  /** The slots by last use. */
  ghost function Line(c: Cache): (l: seq<Slot>)
    requires ListsOk(c)
    ensures |l| == NC_SIZE && forall j :: 0 <= j < NC_SIZE ==> l[j] == c.slots[c.lru[j]]
  {
    seq(NC_SIZE, j requires 0 <= j < NC_SIZE => c.slots[c.lru[j]])
  }

  /** Slot `s` is in use, and all slots used since then have names among `others`. */
  ghost predicate Recent(line: seq<Slot>, s: Slot, others: set<Key>) {
    Used(s) && exists p :: RecentAt(line, s, others, p)
  }

  predicate RecentAt(line: seq<Slot>, s: Slot, others: set<Key>, p: int) {
    0 <= p < |line| && line[p] == s && forall j :: p < j < |line| ==> KeyOf(line[j]) in others
  }

  /** The name that a call enters, or hits. */
  ghost function Touched(c: Cache, e: Event): set<Key>
    requires Inv(c) && Proper(e)
  {
    match e
    case EnterEvent(dp, name, vp, cred) => if |name| <= NC_NAMLEN then {Key(dp, name, cred)} else {}
    case LookupEvent(dp, name, cred) =>
      var k := Found(c, dp, name, cred);
      if k == |Chain(c, name, dp)| then {} else {KeyOf(c.slots[Chain(c, name, dp)[k]])}
    case RemoveEvent(_, _) => {}
    case PurgeEvent => {}
  }

  /** The call gives up what is known of a name. */
  predicate Drops(e: Event, s: Slot) {
    e.PurgeEvent? || (e.RemoveEvent? && Named(s, e.dp, e.name))
  }

  // ----- the slots by last use -----

  /** No two slots have the same name. */
  ghost predicate NamesDiffer(line: seq<Slot>) {
    forall i, j :: 0 <= i < j < |line| && Used(line[i]) ==> KeyOf(line[i]) != KeyOf(line[j])
  }

  lemma LineDiffers(c: Cache)
    requires ListsOk(c) && KeysUnique(c.slots)
    ensures NamesDiffer(Line(c))
  {
    var line := Line(c);
    forall i, j | 0 <= i < j < |line| && Used(line[i]) ensures KeyOf(line[i]) != KeyOf(line[j]) {
      var x, y := c.lru[i], c.lru[j];
      assert x != y;
      assert x < y ==> !SameKey(c.slots[x], c.slots[y]);
      assert y < x && Used(c.slots[y]) ==> !SameKey(c.slots[y], c.slots[x]);
    }
  }

  ghost function Keys(line: seq<Slot>): set<Key> {
    if line == [] then {} else {KeyOf(line[0])} + Keys(line[1..])
  }

  lemma {:induction false} CountKeys(line: seq<Slot>)
    requires NamesDiffer(line) && forall j :: 0 <= j < |line| ==> Used(line[j])
    ensures |Keys(line)| == |line|
    ensures forall k :: k in Keys(line) <==> exists j :: 0 <= j < |line| && KeyOf(line[j]) == k
  {
    hide Used;
    if line != [] {
      var rest := line[1..];
      forall i, j | 0 <= i < j < |rest| ensures KeyOf(rest[i]) != KeyOf(rest[j]) {
        assert rest[i] == line[i + 1] && rest[j] == line[j + 1];
      }
      CountKeys(rest);
      forall j | 0 <= j < |rest| ensures KeyOf(rest[j]) != KeyOf(line[0]) { assert rest[j] == line[j + 1]; }
      assert KeyOf(line[0]) !in Keys(rest);
      forall k ensures k in Keys(line) <==> exists j :: 0 <= j < |line| && KeyOf(line[j]) == k {
        if j :| 0 <= j < |line| && KeyOf(line[j]) == k { assert j > 0 ==> rest[j - 1] == line[j]; }
        if j :| 0 <= j < |rest| && KeyOf(rest[j]) == k { assert line[j + 1] == rest[j]; }
      }
    }
  }

  /** The slot that is used again is not a recent one, unless as many other names came since. */
  lemma NotTheFirst(line: seq<Slot>, s: Slot, others: set<Key>, p: int, key: Key)
    requires NamesDiffer(line) && Used(s) && RecentAt(line, s, others, p) && key in others && KeyOf(s) !in others
    requires forall i, j :: 0 <= i < j < |line| && Used(line[i]) ==> Used(line[j])
    requires forall i :: 0 <= i < |line| ==> KeyOf(line[i]) != key
    requires |others| < |line|
    ensures p > 0
  {
    if p == 0 {
      var rest := line[1..];
      forall i, j | 0 <= i < j < |rest| && Used(rest[i]) ensures KeyOf(rest[i]) != KeyOf(rest[j]) {
        assert rest[i] == line[i + 1] && rest[j] == line[j + 1];
      }
      CountKeys(rest);
      forall k | k in Keys(rest) ensures k in others && k != key {
        var j :| 0 <= j < |rest| && KeyOf(rest[j]) == k;
        assert rest[j] == line[j + 1];
      }
      Larger(Keys(rest) + {key}, others);
    }
  }

  lemma Larger<T>(a: set<T>, b: set<T>)
    requires a <= b
    ensures |a| <= |b|
  {
    assert b == a + (b - a);
  }

  /** The first slot is used again, for `t`. */
  lemma FirstReused(line: seq<Slot>, s: Slot, others: set<Key>, t: Slot)
    requires line != [] && Recent(line, s, others) && KeyOf(t) in others && !RecentAt(line, s, others, 0)
    ensures Recent(line[1..] + [t], s, others)
  {
    var p :| RecentAt(line, s, others, p);
    var line' := line[1..] + [t];
    forall j | p - 1 < j < |line'| ensures KeyOf(line'[j]) in others {
      if j < |line| - 1 { assert line'[j] == line[j + 1]; }
    }
    assert line'[p - 1] == line[p];
    assert RecentAt(line', s, others, p - 1);
  }

  /** The slot at `q` is moved to the end. */
  lemma MovedBack(line: seq<Slot>, s: Slot, others: set<Key>, q: nat)
    requires q < |line| && Recent(line, s, others) && (line[q] == s || KeyOf(line[q]) in others)
    ensures Recent(line[..q] + line[q + 1..] + [line[q]], s, others)
  {
    var p :| RecentAt(line, s, others, p);
    var line' := line[..q] + line[q + 1..] + [line[q]];
    if line[q] == s {
      assert RecentAt(line', s, others, |line| - 1);
    } else {
      var p' := if q < p then p - 1 else p;
      assert line'[p'] == line[p];
      forall j | p' < j < |line'| ensures KeyOf(line'[j]) in others {
        if j < |line| - 1 { assert line'[j] == line[if j < q then j else j + 1]; }
      }
      assert RecentAt(line', s, others, p');
    }
  }

  /** The slot at `q` is given up and moved to the front, as `t`. */
  lemma MovedUp(line: seq<Slot>, s: Slot, others: set<Key>, q: nat, t: Slot)
    requires q < |line| && Recent(line, s, others) && line[q] != s
    ensures Recent([t] + line[..q] + line[q + 1..], s, others)
  {
    var p :| RecentAt(line, s, others, p);
    var line' := [t] + line[..q] + line[q + 1..];
    var p' := if q < p then p else p + 1;
    assert line'[p'] == line[p];
    forall j | p' < j < |line'| ensures KeyOf(line'[j]) in others {
      assert line'[j] == line[if j <= q then j - 1 else j];
    }
    assert RecentAt(line', s, others, p');
  }

  // ----- one call -----

  lemma EnterLine(c: Cache, dp: Vnode, name: seq<char>, vp: Vnode, cred: int)
    requires Inv(c) && name != [] && Takes(c, dp, name, cred) && ListsOk(Enter(c, dp, name, vp, cred))
    ensures Line(Enter(c, dp, name, vp, cred)) == Line(c)[1..] + [Slot(dp, name, vp, cred)]
  {
    hide AllHolds, Hash, Without, ChainedOk, KeysUnique, FreeFirst, Found;
    var c', line := Enter(c, dp, name, vp, cred), Line(c);
    forall j | 0 <= j < NC_SIZE - 1 ensures Line(c')[j] == line[j + 1] { assert c'.lru[j] == c.lru[j + 1]; }
    assert c'.lru[NC_SIZE - 1] == c.lru[0];
  }

  lemma EnterStays(c: Cache, s: Slot, others: set<Key>, e: Event)
    requires Inv(c) && e.EnterEvent? && Proper(e) && Recent(Line(c), s, others - {KeyOf(s)})
    requires Touched(c, e) <= others && |others - {KeyOf(s)}| < NC_SIZE
    ensures Inv(Step(c, e)) && Recent(Line(Step(c, e)), s, others - {KeyOf(s)})
  {
    hide AllHolds, Hash, Without, ChainedOk, Found;
    var EnterEvent(dp, name, vp, cred) := e;
    EnterInv(c, dp, name, vp, cred);
    FoundIff(c, dp, name, cred);
    if Takes(c, dp, name, cred) {
      var key, rest, line := Key(dp, name, cred), others - {KeyOf(s)}, Line(c);
      forall i | 0 <= i < NC_SIZE ensures KeyOf(line[i]) != key { assert !Matches(c.slots[c.lru[i]], dp, name, cred); }
      EnterLine(c, dp, name, vp, cred);
      LineDiffers(c);
      assert forall i, j :: 0 <= i < j < NC_SIZE && Used(line[i]) ==> Used(line[j]);
      hide Inv, Enter, Line;
      if RecentAt(line, s, rest, 0) { NotTheFirst(line, s, rest, 0, key); }
      FirstReused(line, s, rest, Slot(dp, name, vp, cred));
    }
  }

  /** A hit moves the slot to the end. */
  lemma LookupLine(c: Cache, dp: Vnode, name: seq<char>, cred: int) returns (q: nat)
    requires Inv(c) && name != [] && |name| <= NC_NAMLEN && Found(c, dp, name, cred) < |Chain(c, name, dp)|
    requires ListsOk(Lookup(c, dp, name, cred).0)
    ensures q < NC_SIZE && c.lru[q] == Chain(c, name, dp)[Found(c, dp, name, cred)]
    ensures Line(Lookup(c, dp, name, cred).0) == Line(c)[..q] + Line(c)[q + 1..] + [Line(c)[q]]
  {
    hide AllHolds, Hash, Without, ChainedOk, KeysUnique, FreeFirst, Found;
    var x := Chain(c, name, dp)[Found(c, dp, name, cred)];
    assert x in c.lru;
    q :| 0 <= q < NC_SIZE && c.lru[q] == x;
    WithoutAt(c.lru, q);
    var c', line := Lookup(c, dp, name, cred).0, Line(c);
    forall j | 0 <= j < NC_SIZE - 1 ensures Line(c')[j] == line[if j < q then j else j + 1] {}
  }

  lemma LookupStays(c: Cache, s: Slot, others: set<Key>, e: Event)
    requires Inv(c) && e.LookupEvent? && Proper(e) && Recent(Line(c), s, others - {KeyOf(s)}) && Touched(c, e) <= others
    ensures Inv(Step(c, e)) && Recent(Line(Step(c, e)), s, others - {KeyOf(s)})
  {
    hide AllHolds, Hash, Without, ChainedOk, FreeFirst, Found;
    var LookupEvent(dp, name, cred) := e;
    LookupInv(c, dp, name, cred);
    if Found(c, dp, name, cred) < |Chain(c, name, dp)| && |name| <= NC_NAMLEN {
      var q := LookupLine(c, dp, name, cred);
      LineDiffers(c);
      var line := Line(c);
      hide Inv, Lookup, Line;
      var p :| RecentAt(line, s, others - {KeyOf(s)}, p);
      assert p < q ==> KeyOf(line[p]) != KeyOf(line[q]);
      MovedBack(line, s, others - {KeyOf(s)}, q);
    }
  }

  /** A slot that is given up goes to the front. */
  lemma RmStays(c: Cache, s: Slot, rest: set<Key>, x: nat)
    requires Inv(c) && x < NC_SIZE && Recent(Line(c), s, rest) && c.slots[x] != s
    ensures Inv(Rm(c, x)) && Recent(Line(Rm(c, x)), s, rest)
  {
    hide AllHolds, Hash, Without, ChainedOk, KeysUnique, FreeFirst;
    RmInv(c, x);
    var c', line := Rm(c, x), Line(c);
    assert x in c.lru;
    var q :| 0 <= q < NC_SIZE && c.lru[q] == x;
    WithoutAt(c.lru, q);
    assert Line(c') == [c'.slots[x]] + line[..q] + line[q + 1..] by {
      forall j | 0 < j < NC_SIZE ensures Line(c')[j] == line[if j <= q then j - 1 else j] {}
    }
    hide Inv, Rm, Line;
    MovedUp(line, s, rest, q, c'.slots[x]);
  }

  lemma {:induction false} RemoveStays(c: Cache, s: Slot, rest: set<Key>, dp: Vnode, name: seq<char>)
    requires Inv(c) && name != [] && dp != 0 && Recent(Line(c), s, rest) && !Named(s, dp, name)
    ensures Inv(Remove(c, dp, name)) && Recent(Line(Remove(c, dp, name)), s, rest)
    decreases InUse(c.slots)
  {
    hide AllHolds, Hash, Without, ChainedOk, KeysUnique, FreeFirst, InUse, Rm, Search, Recent, Line;
    RemoveCorrect(c, dp, name);
    var k := Found(c, dp, name, ANYCRED);
    if |name| <= NC_NAMLEN && k < |Chain(c, name, dp)| {
      var x := Chain(c, name, dp)[k];
      RmStays(c, s, rest, x);
      RmLess(c, x);
      RemoveStays(Rm(c, x), s, rest, dp, name);
    }
  }

  /** As long as fewer other names are entered or hit than there are slots, a slot in use stays. */
  lemma StepStays(c: Cache, s: Slot, others: set<Key>, e: Event)
    requires Inv(c) && Proper(e) && !Drops(e, s) && Recent(Line(c), s, others - {KeyOf(s)})
    requires Touched(c, e) <= others && |others - {KeyOf(s)}| < NC_SIZE
    ensures Inv(Step(c, e)) && Recent(Line(Step(c, e)), s, others - {KeyOf(s)})
  {
    hide ListsOk, ChainedOk, KeysUnique, FreeFirst, AllHolds, Enter, Lookup, Remove, Purge, Recent, Touched, Line;
    match e
    case EnterEvent(_, _, _, _) => EnterStays(c, s, others, e);
    case LookupEvent(_, _, _) => LookupStays(c, s, others, e);
    case RemoveEvent(dp, name) => RemoveStays(c, s, others - {KeyOf(s)}, dp, name);
  }

  // ----- whole runs -----

  /** All names that are entered or hit. */
  ghost function TouchedBy(c: Cache, events: seq<Event>): set<Key>
    requires Inv(c) && AllProper(events)
    decreases |events|
  {
    if events == [] then {}
    else
      var front := events[..|events| - 1];
      TouchedBy(c, front) + Touched(Run(c, front), events[|events| - 1])
  }

  predicate NoneDrops(events: seq<Event>, s: Slot) {
    forall i :: 0 <= i < |events| ==> !Drops(events[i], s)
  }

  lemma {:induction false} RunStays(c: Cache, s: Slot, events: seq<Event>, others: set<Key>)
    requires Inv(c) && AllProper(events) && NoneDrops(events, s) && Recent(Line(c), s, {})
    requires TouchedBy(c, events) <= others && |others - {KeyOf(s)}| < NC_SIZE
    ensures Inv(Run(c, events)) && Recent(Line(Run(c, events)), s, others - {KeyOf(s)})
    decreases |events|
  {
    hide ListsOk, ChainedOk, KeysUnique, FreeFirst, AllHolds, Step, Drops, Touched, Line;
    if events == [] {
      var p :| RecentAt(Line(c), s, {}, p);
      assert RecentAt(Line(c), s, others - {KeyOf(s)}, p);
    } else {
      hide Recent;
      var front := events[..|events| - 1];
      RunStays(c, s, front, others);
      StepStays(Run(c, front), s, others, events[|events| - 1]);
    }
  }

  /** The call uses slot `s`: it enters a name that is not there, or looks one up that is. */
  ghost predicate Uses(c: Cache, e: Event, s: Slot) {
    match e
    case EnterEvent(dp, name, vp, cred) =>
      && |name| <= NC_NAMLEN && s == Slot(dp, name, vp, cred)
      && forall t :: t in c.slots ==> !Matches(t, dp, name, cred)
    case LookupEvent(dp, name, cred) => s in c.slots && s.dp == dp && s.name == name && s.cred == cred
    case RemoveEvent(_, _) => false
    case PurgeEvent => false
  }

  lemma UsedIsRecent(c: Cache, e: Event, s: Slot)
    requires Inv(c) && Proper(e) && Uses(c, e, s)
    ensures Inv(Step(c, e)) && Recent(Line(Step(c, e)), s, {})
  {
    hide AllHolds, Hash, Without, ChainedOk, FreeFirst;
    StepInv(c, e);
    FoundIff(c, e.dp, e.name, e.cred);
    var c' := Step(c, e);
    if e.EnterEvent? {
      assert forall i :: 0 <= i < NC_SIZE ==> c.slots[i] in c.slots;
    } else {
      var i :| 0 <= i < NC_SIZE && c.slots[i] == s;
      assert ChainedOk(c, i) && Matches(c.slots[i], e.dp, e.name, e.cred);
      InUseNamed(c, i);
      var x := Chain(c, e.name, e.dp)[Found(c, e.dp, e.name, e.cred)];
      assert SameKey(c.slots[x], s) && SameKey(s, c.slots[x]);
      assert x in c.lru;
      WithoutIs(c.lru, x);
    }
    assert RecentAt(Line(c'), s, {}, NC_SIZE - 1);
  }

  lemma InUseNamed(c: Cache, i: nat)
    requires Inv(c) && i < NC_SIZE && Used(c.slots[i])
    ensures SlotOk(c.slots[i])
  {
    assert ChainedOk(c, i);
  }

  /** A name that was entered or hit, and neither removed nor purged since, is hit as long as fewer
      other names than there are slots have been entered or hit since. */
  lemma RecentIsHit(c: Cache, e: Event, s: Slot, events: seq<Event>)
    requires Inv(c) && Proper(e) && Uses(c, e, s) && AllProper(events) && NoneDrops(events, s) && Inv(Step(c, e))
    requires |TouchedBy(Step(c, e), events) - {KeyOf(s)}| < NC_SIZE
    ensures s.name != [] && Lookup(Run(Step(c, e), events), s.dp, s.name, s.cred).1 == s.vp
  {
    hide Inv, Step, Uses, Touched, Drops, Lookup;
    UsedIsRecent(c, e, s);
    RunStays(Step(c, e), s, events, TouchedBy(Step(c, e), events));
    IsHit(Run(Step(c, e), events), s, TouchedBy(Step(c, e), events) - {KeyOf(s)});
  }

  lemma IsHit(c: Cache, s: Slot, others: set<Key>)
    requires Inv(c) && Recent(Line(c), s, others)
    ensures s.name != [] && Lookup(c, s.dp, s.name, s.cred).1 == s.vp
  {
    hide AllHolds, Hash, Without, ChainedOk, FreeFirst, Lookup;
    var p :| RecentAt(Line(c), s, others, p);
    LookupOne(c, c.lru[p]);
  }
}
