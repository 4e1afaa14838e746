/** The matcher: a backtracking interpreter of byte code. */
module RegexMatcher {
  import Octets
  import opened RegexSyntax
  import opened RegexProgram

  /** The byte code `code` starts with that of `items`. */
  predicate Starts(items: seq<Item>, code: seq<bv8>) {
    AllEncodable(items) && Encode(items) <= code
  }

  function Modifier(r: Rep): bv8 {
    match r
    case Once => 0
    case Star => STAR
    case Range(_, _) => RNGE
  }

  function Trailer(r: Rep): nat {
    if r.Range? then 2 else 0
  }

  function OperandLength(a: Atom): nat {
    match a
    case Lit(_) => 1
    case Any => 0
    case Class(_, _) => 16
  }

  lemma StartsEmpty(code: seq<bv8>)
    requires Starts([], code)
    ensures |code| > 0 && code[0] == CCEOF
  {
    assert Encode([]) == [CCEOF];
  }

  lemma StartsEol(items: seq<Item>, code: seq<bv8>)
    requires items != [] && items[0].Eol? && Starts(items, code)
    ensures |code| > 0 && code[0] == CDOL && Starts(items[1..], code[1..])
  {
    assert Encode(items) == [CDOL] + Encode(items[1..]);
    PrefixDrop([CDOL], Encode(items[1..]), code);
  }

  lemma PrefixDrop(u: seq<bv8>, v: seq<bv8>, code: seq<bv8>)
    requires u + v <= code
    ensures |u| <= |code| && code[..|u|] == u && v <= code[|u|..]
  {
    assert forall i :: 0 <= i < |u| ==> u[i] == (u + v)[i];
    assert forall i :: 0 <= i < |v| ==> v[i] == (u + v)[|u| + i];
  }

  /** The first item's code: operation, operand, and for a range its two bounds. */
  lemma StartsItem(items: seq<Item>, code: seq<bv8>)
    requires items != [] && items[0].Item? && Starts(items, code)
    ensures var Item(a, r) := items[0]; var n := OperandLength(a);
      && 1 + n + Trailer(r) <= |code|
      && code[0] == OpCode(a) | Modifier(r)
      && code[1..1 + n] == Operand(a)
      && (r.Range? ==> code[1 + n] == r.low as bv8 && code[2 + n] == HighByte(r.low, r.high))
      && Starts(items[1..], code[1 + n + Trailer(r)..])
  {
    var u := EncodeItem(items[0]);
    ItemLayout(items[0]);
    assert AllEncodable(items[1..]) && Encode(items) == u + Encode(items[1..]);
    hide *;
    PrefixDrop(u, Encode(items[1..]), code);
    SameSlice(u, code, 1, 1 + OperandLength(items[0].atom));
  }

  lemma SameSlice(u: seq<bv8>, code: seq<bv8>, i: nat, j: nat)
    requires |u| <= |code| && code[..|u|] == u && i <= j <= |u|
    ensures u[i..j] == code[i..j] && forall k :: 0 <= k < |u| ==> code[k] == u[k]
  {
    assert forall k :: 0 <= k < |u| ==> code[k] == code[..|u|][k];
  }

  lemma ItemLayout(it: Item)
    requires Encodable(it) && it.Item?
    ensures var u := EncodeItem(it); var n := OperandLength(it.atom);
      && |u| == 1 + n + Trailer(it.rep) && u[0] == OpCode(it.atom) | Modifier(it.rep) && u[1..1 + n] == Operand(it.atom)
      && (it.rep.Range? ==> u[1 + n] == it.rep.low as bv8 && u[2 + n] == HighByte(it.rep.low, it.rep.high))
  {
    EncodingIs(it);
    var x, v, w := OpCode(it.atom) | Modifier(it.rep), Operand(it.atom), RangeBytes(it.rep);
    Layout(x, v, w);
    assert |w| == Trailer(it.rep);
    hide Operand, OpCode, EncodeItem;
  }

  /** The bounds of a range. */
  function RangeBytes(r: Rep): seq<bv8>
    requires r.Range? ==> Bounded(r.low, r.high)
  {
    if r.Range? then [r.low as bv8, HighByte(r.low, r.high)] else []
  }

  lemma EncodingIs(it: Item)
    requires Encodable(it) && it.Item?
    ensures it.rep.Range? ==> Bounded(it.rep.low, it.rep.high)
    ensures |Operand(it.atom)| == OperandLength(it.atom)
    ensures EncodeItem(it) == [OpCode(it.atom) | Modifier(it.rep)] + Operand(it.atom) + RangeBytes(it.rep)
  {
    hide ClassMap;
    var a := it.atom;
    match it.rep
    case Once =>
      assert OpCode(a) | 0 == OpCode(a);
      assert [OpCode(a)] + Operand(a) + [] == [OpCode(a)] + Operand(a);
    case Star => assert [OpCode(a) | STAR] + Operand(a) + [] == [OpCode(a) | STAR] + Operand(a);
    case Range(low, high) =>
  }

  lemma Layout(x: bv8, v: seq<bv8>, w: seq<bv8>)
    ensures var u := [x] + v + w;
      |u| == 1 + |v| + |w| && u[0] == x && u[1..1 + |v|] == v && forall k :: 0 <= k < |w| ==> u[1 + |v| + k] == w[k]
  {
  }

  /** The reach is where the run stops. */
  lemma ReachIs(a: Atom, s: seq<Char>, i: nat, max: nat, k: nat)
    requires i <= |s| && k <= max && AcceptsRun(a, s, i, k)
    requires k == max || i + k == |s| || !Accepts(a, s[i + k])
    ensures Reach(a, s, i, max) == k
  {
    ReachMost(a, s, i, max, k);
  }

  class Matcher {
    const prog: seq<bv8>    // the program
    const s: seq<Char>      // the subject
    var loc1: nat
    var loc2: nat
    var low: int
    var size: int

    constructor (prog: seq<bv8>, s: seq<Char>)
      ensures this.prog == prog && this.s == s
    {
      this.prog, this.s := prog, s;
      loc1, loc2, low, size := 0, 0, 0, 0;
    }

    /** The character at position `i`; 0 at the end. */
    function Ch(i: nat): Char
      requires i <= |s|
    {
      if i < |s| then s[i] else 0
    }

    /** The test of an operation (without modifier) whose operand is at `ep`. */
    predicate Hit(op: bv8, ep: nat, c: Char)
      requires op == CCHR ==> ep < |prog|
      requires op == CCL ==> ep + 16 <= |prog|
    {
      if op == CCHR then prog[ep] == c
      else if op == CDOT then c != 0
      else if op == CCL then c & 127 < 128 && IsThere(prog[ep..ep + 16], c & 127)
      else false
    }

    /** The operand at `ep` is that of atom `a`. */
    predicate OperandAt(a: Atom, ep: nat) {
      WellFormedAtom(a) && ep + OperandLength(a) <= |prog| && prog[ep..ep + OperandLength(a)] == Operand(a)
    }

    lemma HitAccepts(a: Atom, ep: nat, i: nat)
      requires OperandAt(a, ep) && Subject(s) && i <= |s|
      ensures Hit(OpCode(a), ep, Ch(i)) <==> i < |s| && Accepts(a, s[i])
    {
      var c := Ch(i);
      assert c < 128 && (c == 0 <==> i == |s|) by { assert i < |s| ==> s[i] in s; }
      match a
      case Lit(d) => assert prog[ep..ep + 1] == [d];
      case Any =>
      case Class(neg, ps) =>
        SevenBitMask(c);
        ClassMapCorrect(neg, ps, c);
    }

    /** The bounds of a range. */
    method Getrnge(str: nat)
      requires str + 2 <= |prog|
      modifies this`low, this`size
      ensures low == prog[str] as int
      ensures size == Spread(prog[str], prog[str + 1])
    {
      low := prog[str] as int;
      size := if prog[str + 1] == 255 then 20000 else prog[str + 1] as int - low;
    }

    /** `while(low--) if(!...*lp++...) return(0)`. */
    method TakeLow(op: bv8, ep: nat, lp0: nat, ghost a: Atom) returns (ok: bool, lp: nat)
      requires lp0 <= |s| && Subject(s) && OperandAt(a, ep) && op == OpCode(a) && 0 <= low
      modifies this`low
      ensures ok <==> Reach(a, s, lp0, old(low)) == old(low)
      ensures ok ==> lp == lp0 + old(low) && lp <= |s|
    {
      lp := lp0;
      while low > 0
        invariant 0 <= low <= old(low) && lp == lp0 + (old(low) - low) && AcceptsRun(a, s, lp0, lp - lp0)
        decreases low
      {
        low := low - 1;
        HitAccepts(a, ep, lp);
        if !Hit(op, ep, Ch(lp)) {
          ReachIs(a, s, lp0, old(low), lp - lp0);
          return false, lp;
        }
        lp := lp + 1;
      }
      low := low - 1;
      ReachIs(a, s, lp0, old(low), old(low));
      ok := true;
    }

    /** `while(size--) if(!...*lp++...) break; if(size < 0) lp++`: leaves `lp` one behind the last
        position that may be tried. */
    method TakeSize(op: bv8, ep: nat, lp0: nat, ghost a: Atom) returns (lp: nat)
      requires lp0 <= |s| && Subject(s) && OperandAt(a, ep) && op == OpCode(a) && 0 <= size
      modifies this`size
      ensures lp == lp0 + Reach(a, s, lp0, old(size)) + 1 && lp <= |s| + 1
    {
      lp := lp0;
      var more := true;
      while more && size > 0
        invariant 0 <= size <= old(size)
        invariant more ==> lp == lp0 + (old(size) - size) && AcceptsRun(a, s, lp0, lp - lp0)
        invariant !more ==> lp == lp0 + Reach(a, s, lp0, old(size)) + 1
        decreases more, size
      {
        size := size - 1;
        HitAccepts(a, ep, lp);
        if !Hit(op, ep, Ch(lp)) {
          ReachIs(a, s, lp0, old(size), lp - lp0);
          more := false;
        }
        lp := lp + 1;
      }
      if more {
        size := size - 1;
        ReachIs(a, s, lp0, old(size), old(size));
        lp := lp + 1;
      }
    }

    /** The loops of the starred operations: `lp` ends one behind the first character refused. */
    method TakeAll(op: bv8, ep: nat, lp0: nat, ghost a: Atom) returns (lp: nat)
      requires lp0 <= |s| && Subject(s) && OperandAt(a, ep) && op == OpCode(a)
      ensures lp == lp0 + Reach(a, s, lp0, |s| - lp0) + 1
    {
      lp := lp0;
      HitAccepts(a, ep, lp);
      while Hit(op, ep, Ch(lp))
        invariant lp0 <= lp <= |s| && AcceptsRun(a, s, lp0, lp - lp0)
        invariant Hit(op, ep, Ch(lp)) <==> lp < |s| && Accepts(a, s[lp])
        decreases |s| - lp
      {
        lp := lp + 1;
        HitAccepts(a, ep, lp);
      }
      ReachIs(a, s, lp0, |s| - lp0, lp - lp0);
      lp := lp + 1;
    }

    /** Tries the rest of the program from one before `lp0` down to `curlp`. */
    method TryDown(lp0: nat, curlp: nat, ep: nat, ghost items: seq<Item>) returns (ok: bool)
      requires curlp < lp0 <= |s| + 1 && items != [] && ep <= |prog|
      requires Subject(s) && WellFormed(items[1..]) && Starts(items[1..], prog[ep..])
      modifies this`loc2, this`low, this`size
      ensures ok <==> Backtrack(items, s, curlp, lp0 - 1).End?
      ensures ok ==> loc2 == Backtrack(items, s, curlp, lp0 - 1).e
      decreases |items|, 0
    {
      hide Starts, Reach;
      var lp := lp0;
      while true
        invariant curlp < lp <= |s| + 1
        invariant Backtrack(items, s, curlp, lp0 - 1) == Backtrack(items, s, curlp, lp - 1)
        decreases lp
      {
        lp := lp - 1;
        ok := Advance(lp, ep, items[1..]);
        if ok || lp == curlp {
          return;
        }
      }
    }

    /** Runs the program from `ep0` on against the subject from position `lp0` on. */
    method Advance(lp0: nat, ep0: nat, ghost items: seq<Item>) returns (ok: bool)
      requires lp0 <= |s| && ep0 <= |prog| && Subject(s) && WellFormed(items) && Starts(items, prog[ep0..])
      modifies this`loc2, this`low, this`size
      ensures ok <==> Greedy(items, s, lp0).End?
      ensures ok ==> loc2 == Greedy(items, s, lp0).e
      decreases |items|, 2
    {
      hide Starts, WellFormed, ItemAt, BaseOp, Accepts;
      var lp: nat, ep: nat := lp0, ep0;
      ghost var rest := items;
      while true
        invariant lp <= |s| && ep <= |prog| && WellFormed(rest) && Starts(rest, prog[ep..]) && |rest| <= |items|
        invariant Greedy(items, s, lp0) == Greedy(rest, s, lp)
        decreases |rest|
      {
        Decode(rest, ep);
        var op := prog[ep];
        ep := ep + 1;
        if op == CCEOF {
          loc2 := lp;
          return true;
        } else if op == CDOL {
          if Ch(lp) != 0 { CharNonZero(lp); return false; }
          CharZero(lp);
          rest := rest[1..];
        } else {
          OpFacts(rest[0], ep - 1);
          var code := BaseOp(op);
          if op == code {
            // one character
            HitAccepts(rest[0].atom, ep, lp);
            if !Hit(code, ep, Ch(lp)) { return false; }
            lp := lp + 1;
            ep := ep + OperandSize(code);
            rest := rest[1..];
          } else if op == code | STAR {
            ok := AdvanceStar(code, lp, ep, rest);
            return;
          } else {
            ok := AdvanceRange(code, lp, ep, rest);
            return;
          }
        }
      }
    }

    /** A starred item whose operand is at `ep`, and the rest of the program. */
    method AdvanceStar(code: bv8, curlp: nat, ep: nat, ghost items: seq<Item>) returns (ok: bool)
      requires curlp <= |s| && 0 < ep <= |prog| && Subject(s) && WellFormed(items)
      requires items != [] && items[0].Item? && items[0].rep.Star? && ItemAt(items[0], ep - 1)
      requires code == OpCode(items[0].atom) && Starts(items[1..], prog[ep - 1 + ItemLength(items[0])..])
      modifies this`loc2, this`low, this`size
      ensures ok <==> Greedy(items, s, curlp).End?
      ensures ok ==> loc2 == Greedy(items, s, curlp).e
      decreases |items|, 1
    {
      OpFacts(items[0], ep - 1);
      var lp := TakeAll(code, ep, curlp, items[0].atom);
      ok := TryDown(lp, curlp, ep + OperandSize(code), items);
    }

    /** An item with a range, and the rest of the program. */
    method AdvanceRange(code: bv8, lp0: nat, ep: nat, ghost items: seq<Item>) returns (ok: bool)
      requires lp0 <= |s| && 0 < ep <= |prog| && Subject(s) && WellFormed(items)
      requires items != [] && items[0].Item? && items[0].rep.Range? && ItemAt(items[0], ep - 1)
      requires code == OpCode(items[0].atom) && Starts(items[1..], prog[ep - 1 + ItemLength(items[0])..])
      modifies this`loc2, this`low, this`size
      ensures ok <==> Greedy(items, s, lp0).End?
      ensures ok ==> loc2 == Greedy(items, s, lp0).e
      decreases |items|, 1
    {
      hide Starts, ItemAt, OperandAt, Accepts, Reach, AcceptsRun, Backtrack, Subject, OperandSize, WellFormed;
      OpFacts(items[0], ep - 1);
      assert WellFormed(items[1..]) by { Tail(items); }
      Getrnge(ep + OperandSize(code));
      var can, curlp := TakeLow(code, ep, lp0, items[0].atom);
      if !can {
        return false;
      }
      var lp := TakeSize(code, ep, curlp, items[0].atom);
      ok := TryDown(lp, curlp, ep + OperandSize(code) + 2, items);
    }

    /** Looks for a match: at position `p1` only if the expression is anchored (`circf`), otherwise
        from `p1` on. */
    method Step(p1: nat, p2: nat, circf: bool, ghost items: seq<Item>) returns (ok: bool)
      requires p1 <= |s| && p2 <= |prog| && Subject(s) && WellFormed(items) && Starts(items, prog[p2..])
      modifies this
      ensures ok <==> exists k :: Start(p1, circf, k) && Greedy(items, s, k).End?
      ensures ok ==> Start(p1, circf, loc1) && Greedy(items, s, loc1) == End(loc2)
      ensures ok ==> forall k :: p1 <= k < loc1 ==> Greedy(items, s, k) == NoMatch
    {
      hide Starts, WellFormed, Greedy;
      if circf {
        loc1 := p1;
        ok := Advance(p1, p2, items);
        return;
      }
      Decode(items, p2);
      var p: nat := p1;
      if prog[p2] == CCHR {
        // fast check for the first character
        FirstLiteral(items, p2);
        var c := prog[p2 + 1];
        while true
          invariant p1 <= p <= |s| && forall k :: p1 <= k < p ==> Greedy(items, s, k) == NoMatch
          decreases |s| - p
        {
          if Ch(p) == c {
            ok := Advance(p, p2, items);
            if ok {
              loc1 := p;
              return;
            }
          } else {
            OtherCharacter(items, p2, p);
          }
          if Ch(p) == 0 {
            CharZero(p);
            return false;
          }
          CharNonZero(p);
          p := p + 1;
        }
      }
      while true
        invariant p1 <= p <= |s| && forall k :: p1 <= k < p ==> Greedy(items, s, k) == NoMatch
        decreases |s| - p
      {
        ok := Advance(p, p2, items);
        if ok {
          loc1 := p;
          return;
        }
        if Ch(p) == 0 {
          CharZero(p);
          return false;
        }
        CharNonZero(p);
        p := p + 1;
      }
    }

    /** A match may start at `k`. */
    predicate Start(p1: nat, circf: bool, k: int) {
      p1 <= k <= |s| && (circf ==> k == p1)
    }

    lemma FirstLiteral(items: seq<Item>, ep: nat)
      requires ep < |prog| && WellFormed(items) && Starts(items, prog[ep..]) && prog[ep] == CCHR
      ensures items != [] && items[0].Item? && items[0].atom.Lit? && items[0].rep.Once?
      ensures ep + 1 < |prog| && prog[ep + 1] == items[0].atom.c
    {
      Decode(items, ep);
      OpFacts(items[0], ep);
      assert prog[ep + 1] == prog[ep + 1..ep + 2][0];
    }

    /** Where the first literal is not there, nothing matches. */
    lemma OtherCharacter(items: seq<Item>, ep: nat, i: nat)
      requires ep < |prog| && WellFormed(items) && Starts(items, prog[ep..]) && prog[ep] == CCHR
      requires ep + 1 < |prog| && i <= |s| && Ch(i) != prog[ep + 1]
      ensures Greedy(items, s, i) == NoMatch
    {
      FirstLiteral(items, ep);
    }

    /** What the byte at `ep` says about the items that follow. */
    lemma Decode(items: seq<Item>, ep: nat)
      requires ep <= |prog| && WellFormed(items) && Starts(items, prog[ep..])
      ensures ep < |prog|
      ensures prog[ep] == CCEOF <==> items == []
      ensures prog[ep] == CDOL <==> items != [] && items[0].Eol?
      ensures items != [] ==> WellFormed(items[1..])
      ensures items != [] && items[0].Eol? ==> Starts(items[1..], prog[ep + 1..])
      ensures items != [] && items[0].Item? ==>
        ItemAt(items[0], ep) && Starts(items[1..], prog[ep + ItemLength(items[0])..])
    {
      hide Starts, ItemLength;
      if items == [] {
        StartsEmpty(prog[ep..]);
      } else if items[0].Eol? {
        StartsEol(items, prog[ep..]);
        assert prog[ep..][1..] == prog[ep + 1..];
      } else {
        DecodeItem(items, ep);
      }
    }

    /** The code of item `it` stands at `ep`. */
    predicate ItemAt(it: Item, ep: nat)
      requires it.Item?
    {
      var n := OperandLength(it.atom);
      && ep + ItemLength(it) <= |prog| && OperandAt(it.atom, ep + 1)
      && prog[ep] == OpCode(it.atom) | Modifier(it.rep)
      && (it.rep.Range? ==> it.rep.low <= it.rep.high && prog[ep + 1 + n] as int == it.rep.low
                            && Spread(prog[ep + 1 + n], prog[ep + 2 + n]) == it.rep.high - it.rep.low)
    }

    lemma DecodeItem(items: seq<Item>, ep: nat)
      requires ep <= |prog| && WellFormed(items) && items != [] && items[0].Item? && Starts(items, prog[ep..])
      ensures ItemAt(items[0], ep) && Starts(items[1..], prog[ep + ItemLength(items[0])..])
      ensures prog[ep] != CCEOF && prog[ep] != CDOL
    {
      hide Starts, Operand;
      var code := prog[ep..];
      assert WellFormedItem(items[0]);
      StartsItem(items, code);
      var Item(a, r) := items[0];
      var n := OperandLength(a);
      assert code[1..1 + n] == prog[ep + 1..ep + 1 + n];
      assert code[1 + n + Trailer(r)..] == prog[ep + 1 + n + Trailer(r)..];
      Octets.ByteBack(if r.Range? then r.low else 0);
      Octets.ByteBack(if r.Range? && r.high < 255 then r.high else 0);
    }

    lemma OpFacts(it: Item, ep: nat)
      requires it.Item? && ItemAt(it, ep)
      ensures BaseOp(prog[ep]) == OpCode(it.atom) && OperandSize(OpCode(it.atom)) == OperandLength(it.atom)
      ensures it.rep.Once? <==> prog[ep] == OpCode(it.atom)
      ensures it.rep.Star? <==> prog[ep] == OpCode(it.atom) | STAR
      ensures OperandAt(it.atom, ep + 1) && ep + ItemLength(it) <= |prog|
      ensures it.rep.Range? ==> var str := ep + 1 + OperandLength(it.atom);
        it.rep.low <= it.rep.high && prog[str] as int == it.rep.low
          && Spread(prog[str], prog[str + 1]) == it.rep.high - it.rep.low
    {
    }

    lemma CharNonZero(i: nat)
      requires i <= |s| && Ch(i) != 0
      ensures i < |s|
    {
    }

    lemma CharZero(i: nat)
      requires i <= |s| && Ch(i) == 0 && Subject(s)
      ensures i == |s|
    {
      forall j | 0 <= j < |s| ensures s[j] != 0 { assert s[j] in s; }
    }
  }

  lemma Tail(items: seq<Item>)
    requires WellFormed(items) && items != []
    ensures WellFormed(items[1..])
  {
  }

  /** How many characters more than the lower bound a range may take, by its two bytes. */
  function Spread(low: bv8, high: bv8): int {
    if high == 255 then MORE else high as int - low as int
  }

  /** The operation without its modifier. */
  function BaseOp(op: bv8): bv8 {
    op & 0xFC
  }

  function ItemLength(it: Item): nat {
    if it.Eol? then 1 else 1 + OperandLength(it.atom) + Trailer(it.rep)
  }

  function OperandSize(code: bv8): nat {
    if code == CCHR then 1 else if code == CCL then 16 else 0
  }

  lemma SevenBitMask(c: Char)
    requires c < 128
    ensures c & 127 == c
  {
  }

  /** What `step` promises of a program compiled from `items`, in terms of the meaning of `items`
      alone: success exactly when some allowed start has a match; `loc1` is the leftmost such start,
      and `loc2` ends the match whose items take as much as they can, first things first. */
  ghost predicate Meaning(items: seq<Item>, s: seq<Char>, p1: nat, circf: bool, ok: bool, loc1: nat, loc2: nat) {
    && (ok <==> exists k: nat, ks, e :: p1 <= k <= |s| && (circf ==> k == p1) && Matches(items, s, k, ks, e))
    && (ok ==>
      && p1 <= loc1 <= |s| && (circf ==> loc1 == p1)
      && (forall k: nat, ks, e :: p1 <= k < loc1 ==> !Matches(items, s, k, ks, e))
      && exists ks :: Matches(items, s, loc1, ks, loc2) && Top(items, s, loc1, ks))
  }

  lemma StepMeaning(m: Matcher, items: seq<Item>, p1: nat, circf: bool, ok: bool, loc1: nat, loc2: nat)
    requires p1 <= |m.s|
    requires ok <==> exists k :: m.Start(p1, circf, k) && Greedy(items, m.s, k).End?
    requires ok ==> m.Start(p1, circf, loc1) && Greedy(items, m.s, loc1) == End(loc2)
    requires ok ==> forall k :: p1 <= k < loc1 ==> Greedy(items, m.s, k) == NoMatch
    ensures Meaning(items, m.s, p1, circf, ok, loc1, loc2)
  {
    hide Greedy, Matches;
    forall k: nat | k <= |m.s| ensures Best(items, m.s, k, Greedy(items, m.s, k)) { GreedyCorrect(items, m.s, k); }
    if ok {
      assert Best(items, m.s, loc1, End(loc2));
      var ks :| Matches(items, m.s, loc1, ks, loc2) && Top(items, m.s, loc1, ks);
      forall k: nat, ks', e | p1 <= k < loc1 ensures !Matches(items, m.s, k, ks', e) {
        assert Best(items, m.s, k, Greedy(items, m.s, k));
      }
    } else {
      forall k: nat, ks, e | p1 <= k <= |m.s| && (circf ==> k == p1) ensures !Matches(items, m.s, k, ks, e) {
        assert m.Start(p1, circf, k);
        assert Best(items, m.s, k, Greedy(items, m.s, k)) && Greedy(items, m.s, k) == NoMatch;
      }
    }
  }
}
