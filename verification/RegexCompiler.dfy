/** The compiler: from the text of an expression to byte code in a buffer. */
module RegexCompiler {
  import Octets
  import opened RegexSyntax
  import opened RegexProgram
  import opened RegexMatcher

  const NEWLINE: Char := 10
  const DOLLAR: Char := 36
  const OPEN: Char := 40
  const CLOSE: Char := 41
  const ASTERISK: Char := 42
  const COMMA: Char := 44
  const DASH: Char := 45
  const DOT: Char := 46
  const BRACKET: Char := 91
  const BACKSLASH: Char := 92
  const TEKCARB: Char := 93
  const CARET: Char := 94
  const LETTER_N: Char := 110
  const BRACE: Char := 123
  const ECARB: Char := 125

  /** What the `Getc` of a program that includes the compiler yields: the characters of the text,
      and after its end always 0. */
  function Get(pat: seq<Char>, pos: nat): Char {
    if pos < |pat| then pat[pos] else 0
  }

  predicate Digit(c: Char) {
    48 <= c <= 57
  }

  function Left(pat: seq<Char>, pos: nat): nat {
    if pos <= |pat| then |pat| - pos + 1 else 0
  }

  // ----- the language: texts as items -----

  datatype Parsed = Done(items: seq<Item>, pos: nat) | Failed(code: nat) | Outside

  datatype Parts = Parts(parts: seq<Part>, pos: nat) | NoParts

  datatype ClassStep = More(part: Part, lc: Char) | Final | Bad

  /** The part of a class that begins with `c`, which was just read; `lc` is the character before
      it, or 0. Final is a dash before the closing bracket. */
  function NextPart(pat: seq<Char>, pos: nat, lc: Char, c: Char): (r: ClassStep)
    requires Subject(pat) && c < 128 && lc < 128
    ensures r.More? ==> SevenBit(r.part) && r.lc < 128
  {
    if c == 0 || c == NEWLINE then Bad
    else if c == DASH && lc != 0 then
      var d := Seven(pat, pos);
      if d == TEKCARB then Final else if d == 0 then Bad else More(Span(lc, d), d)
    else More(One(c), c)
  }

  function PartEnd(pos: nat, part: Part): nat {
    if part.Span? then pos + 1 else pos
  }

  /** A class, whose next character `c` was just read, with `parts` before it; `lc` is the last of
      them, or 0. */
  function ClassRest(pat: seq<Char>, pos: nat, parts: seq<Part>, lc: Char, c: Char): (r: Parts)
    requires Subject(pat) && SevenBits(parts) && c < 128 && lc < 128 && (pos > |pat| ==> c == 0)
    ensures r.Parts? ==> SevenBits(r.parts) && pos < r.pos
    decreases Left(pat, pos)
  {
    match NextPart(pat, pos, lc, c)
    case Bad => NoParts
    case Final => Parts(parts + [One(DASH)], pos + 1)
    case More(part, lc') =>
      var p := PartEnd(pos, part);
      var e := Seven(pat, p);
      if e == TEKCARB then Parts(parts + [part], p + 1) else ClassRest(pat, p + 1, parts + [part], lc', e)
  }

  function Seven(pat: seq<Char>, pos: nat): (c: Char)
    requires Subject(pat)
    ensures c == Get(pat, pos) && c < 128 && (c == 0 <==> pos >= |pat|)
  {
    assert pos < |pat| ==> pat[pos] in pat;
    Get(pat, pos)
  }

  datatype Number = Number(n: nat, last: Char, pos: nat) | NoNumber

  /** The number whose digits go on at `pos`, up to a backslash or a comma. */
  function Digits(pat: seq<Char>, pos: nat, n: nat): (r: Number)
    ensures r.Number? ==> pos < r.pos && r.last in {BACKSLASH, COMMA}
    decreases Left(pat, pos)
  {
    var c := Get(pat, pos);
    if !Digit(c) then NoNumber
    else
      var n' := 10 * n + (c - 48) as int;
      var d := Get(pat, pos + 1);
      if d == BACKSLASH || d == COMMA then Number(n', d, pos + 2) else Digits(pat, pos + 1, n')
  }

  datatype Bounds = Bounds(low: nat, high: nat, pos: nat) | NoBounds(code: nat)

  /** The bounds of a range, after its opening brace: `n`, `n,` or `n,m`, and a backslash. */
  function Limits(pat: seq<Char>, pos: nat): (r: Bounds)
    ensures r.Bounds? ==> pos < r.pos && r.low < 256 && r.high < 256
  {
    match Digits(pat, pos, 0)
    case NoNumber => NoBounds(16)
    case Number(low, last, p) =>
      if low > 255 then NoBounds(11)
      else if last == BACKSLASH then Bounds(low, low, p)
      else if Get(pat, p) == BACKSLASH then Bounds(low, 255, p + 1)
      else match Digits(pat, p, 0)
        case NoNumber => NoBounds(16)
        case Number(high, last', q) =>
          if high > 255 then NoBounds(11) else if last' == COMMA then NoBounds(44) else Bounds(low, high, q)
  }

  /** The upper bound that a byte stands for. */
  function Upper(low: nat, high: nat): nat {
    if high == 255 then low + MORE else high
  }

  /** The bounds of a range up to its closing brace. */
  function Interval(pat: seq<Char>, pos: nat): (r: Bounds)
    ensures r.Bounds? ==> pos < r.pos && r.low <= r.high && Bounded(r.low, r.high)
  {
    match Limits(pat, pos)
    case NoBounds(code) => NoBounds(code)
    case Bounds(low, high, p) =>
      if Get(pat, p) != ECARB then NoBounds(45) else if high < low then NoBounds(46)
      else Bounds(low, Upper(low, high), p + 1)
  }

  lemma UpperByte(low: nat, high: nat)
    requires low <= high < 256
    ensures Bounded(low, Upper(low, high)) && HighByte(low, Upper(low, high)) == high as bv8
  {
  }

  function Starred(r: Rep): Rep {
    if r.Range? then r else Star
  }

  function Plus(n: int): nat {
    if n > 0 then n else 0
  }

  /** The item for the character `d` after a backslash, where that is neither an opening brace nor
      a group. */
  function Escaped(d: Char): Item {
    Item(Lit(if d == LETTER_N then NEWLINE else d), Once)
  }

  datatype Next = Stop(result: Parsed) | Push(item: Item, pos: nat) | Change(rep: Rep, pos: nat)

  /** What follows a backslash. */
  function AfterBackslash(pat: seq<Char>, pos: nat, acc: seq<Item>): (r: Next)
    requires Subject(pat)
    ensures r.Push? ==> Encodable(r.item) && pos < r.pos && ItemLength(r.item) == 2
    ensures r.Change? ==> acc != [] && acc[|acc| - 1].Item? && !acc[|acc| - 1].rep.Range? && pos < r.pos && pos < |pat|
    ensures r.Change? ==> r.rep.Range? && r.rep.low <= r.rep.high && Bounded(r.rep.low, r.rep.high)
    ensures r.Stop? ==> !r.result.Done?
  {
    var d := Seven(pat, pos);
    if d == OPEN then Stop(Outside)
    else if d == CLOSE then Stop(Failed(42))
    else if d == BRACE && acc != [] then
      var it := acc[|acc| - 1];
      if it.Eol? || it.rep.Range? then Stop(Outside)
      else match Interval(pat, pos + 1)
        case NoBounds(code) => Stop(Failed(code))
        case Bounds(low, high, q) => Change(Range(low, high), q)
    else if d == NEWLINE then Stop(Failed(36))
    else if 49 <= d <= 57 then Stop(Failed(25))
    else Push(Escaped(d), pos + 1)
  }

  /** One more element of the expression whose text goes on at `pos`, after the items `acc`, with
      `room` bytes left: the end, a new item, or a repetition for the last one. */
  function Element(pat: seq<Char>, pos: nat, acc: seq<Item>, room: int, eof: Char, sed: bool): (r: Next)
    requires Subject(pat)
    ensures r.Push? ==> Encodable(r.item) && pos < r.pos && 0 < room
    ensures r.Change? ==> acc != [] && acc[|acc| - 1].Item? && 0 < room && pos < r.pos && pos < |pat|
    ensures r.Change? && r.rep.Range? && r.rep != acc[|acc| - 1].rep ==>
      r.rep.low <= r.rep.high && Bounded(r.rep.low, r.rep.high)
    ensures r.Stop? && r.result.Done? ==> r.result.items == acc
  {
    var c := Seven(pat, pos);
    if room <= 0 then Stop(Failed(50))
    else if c == eof then Stop(Done(acc, pos + 1))
    else if c == DOT then Push(Item(Any, Once), pos + 1)
    else if c == NEWLINE then Stop(if sed then Failed(36) else Done(acc, pos))
    else if c == ASTERISK && acc != [] && acc[|acc| - 1].Item? then Change(Starred(acc[|acc| - 1].rep), pos + 1)
    else if c == DOLLAR && Get(pat, pos + 1) in {eof, NEWLINE} then Push(Eol, pos + 1)
    else if c == BRACKET then
      if room <= 17 then Stop(Failed(50)) else Bracket(pat, pos + 1)
    else if c == BACKSLASH then AfterBackslash(pat, pos + 1, acc)
    else Push(Item(Lit(c), Once), pos + 1)
  }

  /** A class, after its opening bracket. */
  function Bracket(pat: seq<Char>, pos: nat): (r: Next)
    requires Subject(pat)
    ensures !r.Change? && (r.Push? ==> Encodable(r.item) && pos < r.pos) && (r.Stop? ==> r.result == Failed(49))
  {
    var neg := Get(pat, pos) == CARET;
    var p := if neg then pos + 1 else pos;
    match ClassRest(pat, p + 1, [], 0, Seven(pat, p))
    case NoParts => Stop(Failed(49))
    case Parts(ps, q) => Push(Item(Class(neg, ps), Once), q)
  }

  /** `acc` with another repetition for its last item. */
  function Repeated(acc: seq<Item>, r: Rep): (acc': seq<Item>)
    requires acc != [] && acc[|acc| - 1].Item?
    ensures AllEncodable(acc) && Encodable(acc[|acc| - 1].(rep := r)) ==> AllEncodable(acc')
  {
    acc[..|acc| - 1] + [acc[|acc| - 1].(rep := r)]
  }

  /** The bytes that repetition `r` adds to the code of item `it`. */
  function Extra(it: Item, r: Rep): nat
    requires it.Item?
  {
    if r.Range? && !it.rep.Range? then 2 else 0
  }

  /** The expression whose text goes on at `pos`, after the items `acc`; `room` bytes are left. */
  function Rest(pat: seq<Char>, pos: nat, acc: seq<Item>, room: int, eof: Char, sed: bool): (r: Parsed)
    requires Subject(pat) && AllEncodable(acc)
    ensures r.Done? ==> AllEncodable(r.items)
    decreases Plus(room) + Left(pat, pos)
  {
    match Element(pat, pos, acc, room, eof, sed)
    case Stop(result) => result
    case Push(it, p) => Rest(pat, p, acc + [it], room - ItemLength(it), eof, sed)
    case Change(rep, p) => Rest(pat, p, Repeated(acc, rep), room - Extra(acc[|acc| - 1], rep), eof, sed)
  }

  // ----- the byte code of the last item -----

  /** Or-ing a modifier into the last item's operation, and appending `tail`, changes that item's
      repetition. */
  lemma Modified(it: Item, r: Rep)
    requires Encodable(it) && it.Item? && !it.rep.Range? && Encodable(it.(rep := r)) && !r.Once?
    ensures var b := EncodeItem(it);
      EncodeItem(it.(rep := r)) == b[0 := b[0] | Modifier(r)] + RangeBytes(r)
    ensures |EncodeItem(it)| == ItemLength(it)
  {
    EncodingIs(it);
    EncodingIs(it.(rep := r));
    var a, v := OpCode(it.atom), Operand(it.atom);
    OnceOrStar(a, it.rep, r);
    hide *;
    FirstChanged(a | Modifier(it.rep), v, a | Modifier(it.rep) | Modifier(r), RangeBytes(r));
  }

  lemma OnceOrStar(a: bv8, rep: Rep, r: Rep)
    requires !rep.Range? && !r.Once?
    ensures a | Modifier(rep) | Modifier(r) == a | Modifier(r)
  {
  }

  lemma FirstChanged(x: bv8, v: seq<bv8>, y: bv8, w: seq<bv8>)
    ensures ([x] + v + [])[0] == x && ([x] + v + [])[0 := y] + w == [y] + v + w
  {
  }

  lemma StarCode(it: Item)
    requires Encodable(it) && it.Item?
    ensures Encodable(it.(rep := Starred(it.rep)))
    ensures var b := EncodeItem(it); EncodeItem(it.(rep := Starred(it.rep))) == b[0 := b[0] | STAR]
  {
    if it.rep.Range? {
      RangeOp(it);
    } else {
      Modified(it, Star);
    }
  }

  lemma RangeOp(it: Item)
    requires Encodable(it) && it.Item? && it.rep.Range?
    ensures var b := EncodeItem(it); b[0] | STAR == b[0]
  {
    hide ClassMap;
  }

  datatype Outcome = Compiled(end: nat) | Error(code: nat) | NotModelled

  class Compiler {
    const instring: seq<Char>
    const expbuf: array<bv8>
    var sp: nat             // where the next character is read
    var circf: bool

    constructor (instring: seq<Char>, expbuf: array<bv8>)
      ensures this.instring == instring && this.expbuf == expbuf && sp == 0
    {
      this.instring, this.expbuf, sp, circf := instring, expbuf, 0, false;
    }

    method Getc() returns (c: Char)
      requires Subject(instring)
      modifies this`sp
      ensures c == Get(instring, old(sp)) && c < 128 && sp == old(sp) + 1
    {
      c := Seven(instring, sp);
      sp := sp + 1;
    }

    function PEEKC(): Char
      reads this
    {
      Get(instring, sp)
    }

    method Ungetc()
      requires sp > 0
      modifies this`sp
      ensures sp == old(sp) - 1
    {
      sp := sp - 1;
    }

    /** `PlaceOne(c)` in the bitmap at `ep`. */
    method PlaceOne(ep: nat, c: Char)
      requires ep + 16 <= expbuf.Length && c < 128
      modifies expbuf
      ensures expbuf[ep..ep + 16] == Place(old(expbuf[ep..ep + 16]), c)
      ensures forall i :: 0 <= i < ep || ep + 16 <= i < expbuf.Length ==> expbuf[i] == old(expbuf[i])
    {
      SlotFacts(c);
      var k := ep + Cell(c);
      assert expbuf[ep..ep + 16][Cell(c)] == expbuf[k];
      expbuf[k] := expbuf[k] | BitTab(Slot(c));
    }

    /** `while(lc < c) { PlaceOne(lc); lc++; }`. */
    method PlaceAll(ep: nat, lc0: Char, c: Char)
      requires ep + 16 <= expbuf.Length && c < 128
      modifies expbuf
      ensures expbuf[ep..ep + 16] == PlaceSpan(old(expbuf[ep..ep + 16]), lc0, c)
      ensures forall i :: 0 <= i < ep || ep + 16 <= i < expbuf.Length ==> expbuf[i] == old(expbuf[i])
    {
      var lc := lc0;
      while lc < c
        invariant PlaceSpan(expbuf[ep..ep + 16], lc, c) == PlaceSpan(old(expbuf[ep..ep + 16]), lc0, c)
        invariant forall i :: 0 <= i < ep || ep + 16 <= i < expbuf.Length ==> expbuf[i] == old(expbuf[i])
        decreases (c as int) - (lc as int)
      {
        PlaceOne(ep, lc);
        lc := lc + 1;
      }
    }

    /** One turn of the loop over a class, up to `PlaceOne(c)`: tells whether the class ended with a
        dash. */
    method PlaceNext(ep: nat, lc: Char, c0: Char) returns (closed: bool, c: Char)
      requires Subject(instring) && ep + 16 <= expbuf.Length && c0 < 128 && lc < 128 && c0 != 0 && c0 != NEWLINE
      modifies this`sp, expbuf
      ensures forall i :: 0 <= i < ep || ep + 16 <= i < expbuf.Length ==> expbuf[i] == old(expbuf[i])
      ensures var old_map := old(expbuf[ep..ep + 16]); var new_map := expbuf[ep..ep + 16];
        match NextPart(instring, old(sp), lc, c0)
        case Bad => !closed && c == 0 && sp > |instring|
        case Final => closed && sp == old(sp) + 1 && new_map == PlacePart(old_map, One(DASH))
        case More(part, lc') =>
          !closed && c == lc' && sp == PartEnd(old(sp), part) && new_map == PlacePart(old_map, part)
    {
      hide Place, PlaceSpan, Subject;
      c := c0;
      if c == DASH && lc != 0 {
        c := Getc();
        if c == TEKCARB {
          PlaceOne(ep, DASH);
          return true, c;
        }
        PlaceAll(ep, lc, c);
      }
      PlaceOne(ep, c);
      closed := false;
    }

    /** The characters of a class up to its closing bracket; `c0` is the first one. */
    method ClassBody(ep: nat, c0: Char) returns (ok: bool, ghost parts: seq<Part>)
      requires Subject(instring) && ep + 16 <= expbuf.Length && c0 < 128
      requires (sp > |instring| ==> c0 == 0) && expbuf[ep..ep + 16] == PlaceParts([])
      modifies this`sp, expbuf
      ensures forall i :: 0 <= i < ep || ep + 16 <= i < expbuf.Length ==> expbuf[i] == old(expbuf[i])
      ensures SevenBits(parts)
      ensures var r := ClassRest(instring, old(sp), [], 0, c0);
        if ok then r == Parts(parts, sp) && expbuf[ep..ep + 16] == PlaceParts(parts) else r == NoParts
    {
      hide PlaceParts, PlacePart, SevenBits, SevenBit, Subject, NextPart;
      var c, lc: Char := c0, 0;
      parts := [];
      SevenNone();
      while true
        invariant c < 128 && lc < 128 && (sp > |instring| ==> c == 0)
        invariant forall i :: 0 <= i < ep || ep + 16 <= i < expbuf.Length ==> expbuf[i] == old(expbuf[i])
        invariant SevenBits(parts) && (c != 0 ==> expbuf[ep..ep + 16] == PlaceParts(parts))
        invariant ClassRest(instring, old(sp), [], 0, c0) == ClassRest(instring, sp, parts, lc, c)
        decreases Left(instring, sp)
      {
        if c == 0 || c == NEWLINE {
          BadStart(instring, sp, lc, c);
          return false, parts;
        }
        ghost var step := NextPart(instring, sp, lc, c);
        var closed;
        closed, lc := PlaceNext(ep, lc, c);
        if closed {
          PartsPlus(parts, One(DASH));
          return true, parts + [One(DASH)];
        }
        c := Getc();
        if step.More? {
          PartsPlus(parts, step.part);
          parts := parts + [step.part];
        } else {
          BadStart(instring, sp, lc, c);
        }
        if c == TEKCARB {
          return true, parts;
        }
      }
    }

    /** `do { i = 10 * i + c - '0' ... } while(...)`: the digits of a bound. */
    method ReadNumber() returns (ok: bool, i: nat, c: Char)
      requires Subject(instring)
      modifies this`sp
      ensures match Digits(instring, old(sp), 0)
        case NoNumber => !ok
        case Number(n, last, p) => ok && i == n && c == last && sp == p
    {
      c := Getc();
      i := 0;
      while true
        invariant sp > 0 && c == Get(instring, sp - 1) && Digits(instring, old(sp), 0) == Digits(instring, sp - 1, i)
        decreases Left(instring, sp - 1)
      {
        if !Digit(c) {
          return false, i, c;
        }
        i := 10 * i + (c - 48) as int;
        c := Getc();
        if c == BACKSLASH || c == COMMA {
          return true, i, c;
        }
      }
    }

    /** Stores one bound at `ep` when there is no comma, otherwise both; tells which. */
    method ReadLimits(ep0: nat) returns (code: nat, cflg: bool, i: nat)
      requires Subject(instring) && ep0 + 1 < expbuf.Length
      modifies this`sp, expbuf
      ensures forall i :: 0 <= i < ep0 || ep0 + 2 <= i < expbuf.Length ==> expbuf[i] == old(expbuf[i])
      ensures match Limits(instring, old(sp))
        case NoBounds(error) => code == error != 0
        case Bounds(low, high, p) =>
          && code == 0 && sp == p && expbuf[ep0] == low as bv8
          && if cflg then expbuf[ep0 + 1] == high as bv8 else i == low == high
    {
      hide Digits, Subject;
      ghost var first := Digits(instring, sp, 0);
      cflg, i := false, 0;
      var c: Char, ep := 0, ep0;
      while true
        invariant ep == if cflg then ep0 + 1 else ep0
        invariant forall i :: 0 <= i < ep0 || ep0 + 2 <= i < expbuf.Length ==> expbuf[i] == old(expbuf[i])
        invariant if cflg then first.Number? && sp == first.pos && first.n < 256 && expbuf[ep0] == first.n as bv8
                               && first.last != BACKSLASH && Get(instring, sp) != BACKSLASH
                  else sp == old(sp)
        decreases if cflg then 0 else 1
      {
        var ok;
        ok, i, c := ReadNumber();
        if !ok {
          return 16, cflg, i;
        }
        if i > 255 {
          return 11, cflg, i;
        }
        expbuf[ep] := i as bv8;
        ep := ep + 1;
        if c == COMMA {
          if cflg {
            return 44, cflg, i;
          }
          cflg := true;
          c := Getc();
          if c == BACKSLASH {
            expbuf[ep] := 255;
          } else {
            Ungetc();
            continue;
          }
        }
        return 0, cflg, i;
      }
    }

    /** The closing brace, and the second bound `i` if only one was stored at `ep`. */
    method CloseBounds(ep: nat, cflg: bool, i: nat, ghost low: nat, ghost high: nat) returns (code: nat)
      requires Subject(instring) && ep + 1 < expbuf.Length && low < 256 && high < 256
      requires expbuf[ep] == low as bv8 && if cflg then expbuf[ep + 1] == high as bv8 else i == low == high
      modifies this`sp, expbuf
      ensures forall i :: 0 <= i <= ep || ep + 2 <= i < expbuf.Length ==> expbuf[i] == old(expbuf[i])
      ensures sp == old(sp) + 1
      ensures code == if Get(instring, old(sp)) != ECARB then 45 else if high < low then 46 else 0
      ensures code == 0 ==> expbuf[ep + 1] == high as bv8
    {
      hide Subject, Seven;
      Octets.ByteOrder(high, low);
      code := 0;
      var c := Getc();
      if c != ECARB {
        code := 45;
      } else if !cflg {
        expbuf[ep + 1] := i as bv8;
      } else if expbuf[ep + 1] < expbuf[ep] {
        code := 46;
      }
    }

    /** The bounds of a range, stored at `ep`; `code` is 0 or the error. */
    method ReadBounds(ep: nat) returns (code: nat)
      requires Subject(instring) && ep + 1 < expbuf.Length
      modifies this`sp, expbuf
      ensures forall i :: 0 <= i < ep || ep + 2 <= i < expbuf.Length ==> expbuf[i] == old(expbuf[i])
      ensures match Interval(instring, old(sp))
        case NoBounds(error) => code == error != 0
        case Bounds(low, high, p) =>
          code == 0 && sp == p && expbuf[ep] == low as bv8 && expbuf[ep + 1] == HighByte(low, high)
    {
      hide Limits, Subject, Upper, HighByte, Bounded;
      ghost var limits := Limits(instring, sp);
      var cflg, i;
      code, cflg, i := ReadLimits(ep);
      if code == 0 {
        if limits.low <= limits.high { UpperByte(limits.low, limits.high); }
        code := CloseBounds(ep, cflg, i, limits.low, limits.high);
      }
    }

    // ----- the buffer holds the code of the items so far -----

    ghost predicate Holds(start: nat, ep: nat, acc: seq<Item>)
      reads expbuf
    {
      start <= ep <= expbuf.Length && AllEncodable(acc) && expbuf[start..ep] == EncodeItems(acc)
    }

    /** `lastep` is where the code of the last item begins, or -1. */
    ghost predicate LastAt(start: nat, lastep: int, ep: nat, acc: seq<Item>) {
      AllEncodable(acc) && if acc == [] then lastep == -1 else start <= lastep == ep - |EncodeItem(acc[|acc| - 1])|
    }

    lemma Grown(start: nat, mid: nat, ep: nat, acc: seq<Item>, it: Item)
      requires Holds(start, mid, acc) && mid <= ep <= expbuf.Length && Encodable(it)
      requires expbuf[mid..ep] == EncodeItem(it)
      ensures Holds(start, ep, acc + [it]) && LastAt(start, mid, ep, acc + [it])
    {
      hide EncodeItems, EncodeItem;
      EncodeAppend(acc, it);
      assert expbuf[start..ep] == expbuf[start..mid] + expbuf[mid..ep];
      assert |expbuf[mid..ep]| == ep - mid;
    }

    lemma Shrunk(start: nat, lastep: int, ep: nat, acc: seq<Item>)
      requires Holds(start, ep, acc) && LastAt(start, lastep, ep, acc) && acc != []
      ensures start <= lastep < ep && Holds(start, lastep, acc[..|acc| - 1])
      ensures Encodable(acc[|acc| - 1]) && expbuf[lastep..ep] == EncodeItem(acc[|acc| - 1])
    {
      hide EncodeItems, EncodeItem;
      var front, it := acc[..|acc| - 1], acc[|acc| - 1];
      assert acc == front + [it];
      EncodeAppend(front, it);
      ghost var u, v := EncodeItems(front), EncodeItem(it);
      assert expbuf[start..ep] == u + v;
      assert |expbuf[start..ep]| == ep - start;
      assert expbuf[start..lastep] == (u + v)[..|u|] == u;
      assert expbuf[lastep..ep] == (u + v)[|u|..] == v;
    }

    /** One byte. */
    method PutByte(start: nat, ep: nat, b: bv8, ghost acc: seq<Item>, ghost it: Item)
      requires ep < expbuf.Length && Holds(start, ep, acc) && Encodable(it) && EncodeItem(it) == [b]
      modifies expbuf
      ensures Holds(start, ep + 1, acc + [it]) && LastAt(start, ep, ep + 1, acc + [it])
      ensures forall i :: 0 <= i < start || ep + 1 <= i < expbuf.Length ==> expbuf[i] == old(expbuf[i])
    {
      hide EncodeItems, EncodeItem;
      expbuf[ep] := b;
      assert expbuf[start..ep] == old(expbuf[start..ep]);
      Grown(start, ep, ep + 1, acc, it);
    }

    /** A literal. */
    method PutChar(start: nat, ep: nat, c: Char, ghost acc: seq<Item>)
      requires ep + 1 < expbuf.Length && Holds(start, ep, acc)
      modifies expbuf
      ensures Holds(start, ep + 2, acc + [Item(Lit(c), Once)]) && LastAt(start, ep, ep + 2, acc + [Item(Lit(c), Once)])
      ensures forall i :: 0 <= i < start || ep + 2 <= i < expbuf.Length ==> expbuf[i] == old(expbuf[i])
    {
      hide EncodeItems;
      expbuf[ep] := CCHR;
      expbuf[ep + 1] := c;
      assert expbuf[start..ep] == old(expbuf[start..ep]);
      assert expbuf[ep..ep + 2] == EncodeItem(Item(Lit(c), Once));
      Grown(start, ep, ep + 2, acc, Item(Lit(c), Once));
    }

    /** A class, after its opening bracket. */
    method PutClass(start: nat, ep: nat, ghost acc: seq<Item>) returns (ok: bool, ghost it: Item)
      requires Subject(instring) && ep + 17 <= expbuf.Length && Holds(start, ep, acc)
      modifies this`sp, expbuf
      ensures forall i :: 0 <= i < start || ep + 17 <= i < expbuf.Length ==> expbuf[i] == old(expbuf[i])
      ensures match Bracket(instring, old(sp))
        case Stop(_) => !ok
        case Push(it', q) => ok && sp == q && it == it'
      ensures ok ==> Holds(start, ep + 17, acc + [it]) && LastAt(start, ep, ep + 17, acc + [it])
    {
      hide EncodeItems, ClassRest, Negate, Place, Subject, SevenBits;
      expbuf[ep] := CCL;
      forall i | 0 <= i < 16 { expbuf[ep + 1 + i] := 0; }
      assert SevenBits([]) by { SevenNone(); }
      assert expbuf[ep + 1..ep + 17] == PlaceParts([]);
      var neg := false;
      var c := Getc();
      if c == CARET {
        neg := true;
        c := Getc();
      }
      ghost var parts;
      ok, parts := ClassBody(ep + 1, c);
      it := Item(Class(neg, parts), Once);
      if !ok {
        return;
      }
      if neg {
        Flip(ep + 1);
      }
      assert expbuf[start..ep] == old(expbuf[start..ep]);
      assert expbuf[ep..ep + 17] == [CCL] + expbuf[ep + 1..ep + 17];
      Grown(start, ep, ep + 17, acc, it);
    }

    /** The complement of the bitmap at `ep`. */
    method Flip(ep: nat)
      requires ep + 16 <= expbuf.Length
      modifies expbuf
      ensures expbuf[ep..ep + 16] == Negate(old(expbuf[ep..ep + 16]))
      ensures forall i :: 0 <= i < ep || ep + 16 <= i < expbuf.Length ==> expbuf[i] == old(expbuf[i])
    {
      var cclcnt := 0;
      while cclcnt < 16
        invariant 0 <= cclcnt <= 16
        invariant forall k :: ep <= k < ep + cclcnt ==> expbuf[k] == old(expbuf[k]) ^ 255
        invariant forall k :: ep + cclcnt <= k < ep + 16 ==> expbuf[k] == old(expbuf[k])
        invariant forall i :: 0 <= i < ep || ep + 16 <= i < expbuf.Length ==> expbuf[i] == old(expbuf[i])
      {
        expbuf[ep + cclcnt] := expbuf[ep + cclcnt] ^ 255;
        cclcnt := cclcnt + 1;
      }
      expbuf[ep] := expbuf[ep] & 254;
      ghost var was := old(expbuf[ep..ep + 16]);
      forall i | 0 <= i < 16 ensures expbuf[ep..ep + 16][i] == Negate(was)[i] {
        assert was[i] == old(expbuf[ep + i]);
      }
    }

    /** `*lastep |= STAR`. */
    method PutStar(start: nat, lastep: nat, ep: nat, ghost acc: seq<Item>) returns (ghost rep: Rep)
      requires Holds(start, ep, acc) && LastAt(start, lastep, ep, acc) && acc != [] && acc[|acc| - 1].Item?
      modifies expbuf
      ensures rep == Starred(acc[|acc| - 1].rep)
      ensures var acc' := Repeated(acc, rep); Holds(start, ep, acc') && LastAt(start, lastep, ep, acc')
      ensures forall i :: 0 <= i < start || ep <= i < expbuf.Length ==> expbuf[i] == old(expbuf[i])
    {
      hide EncodeItems, EncodeItem, Encodable, AllEncodable, Starred;
      ghost var front, last := acc[..|acc| - 1], acc[|acc| - 1];
      Shrunk(start, lastep, ep, acc);
      StarCode(last);
      rep := Starred(last.rep);
      expbuf[lastep] := expbuf[lastep] | STAR;
      assert expbuf[start..lastep] == old(expbuf[start..lastep]);
      ghost var b := EncodeItem(last);
      assert expbuf[lastep..ep] == b[0 := b[0] | STAR];
      Grown(start, lastep, ep, front, last.(rep := rep));
    }

    /** `*lastep |= RNGE`, and the bounds. */
    method PutBounds(start: nat, lastep: nat, ep: nat, ghost acc: seq<Item>) returns (code: nat, ghost rep: Rep)
      requires Subject(instring) && ep + 1 < expbuf.Length
      requires Holds(start, ep, acc) && LastAt(start, lastep, ep, acc) && acc != []
      requires acc[|acc| - 1].Item? && !acc[|acc| - 1].rep.Range?
      modifies this`sp, expbuf
      ensures match Interval(instring, old(sp))
        case NoBounds(error) => code == error != 0
        case Bounds(low, high, p) => code == 0 && sp == p && rep == Range(low, high)
      ensures code == 0 ==> var acc' := Repeated(acc, rep);
        Holds(start, ep + 2, acc') && LastAt(start, lastep, ep + 2, acc')
      ensures forall i :: 0 <= i < start || ep + 2 <= i < expbuf.Length ==> expbuf[i] == old(expbuf[i])
    {
      hide EncodeItems, EncodeItem, Encodable, AllEncodable, Interval, Subject, Repeated;
      ghost var front, last := acc[..|acc| - 1], acc[|acc| - 1];
      Shrunk(start, lastep, ep, acc);
      ghost var bounds := Interval(instring, sp);
      rep := last.rep;
      ghost var b := EncodeItem(last);
      assert b == expbuf[lastep..ep] && b[0] == expbuf[lastep];
      expbuf[lastep] := expbuf[lastep] | RNGE;
      assert expbuf[lastep..ep] == b[0 := b[0] | RNGE];
      ghost var was := expbuf[lastep..ep];
      code := ReadBounds(ep);
      if code == 0 {
        assert expbuf[start..lastep] == old(expbuf[start..lastep]);
        assert expbuf[lastep..ep] == was;
        rep := Range(bounds.low, bounds.high);
        Ranged(start, lastep, ep, acc, bounds.low, bounds.high);
      }
    }

    /** The operation marked and the bounds behind it: the last item has become a range. */
    lemma Ranged(start: nat, lastep: nat, ep: nat, acc: seq<Item>, low: nat, high: nat)
      requires acc != [] && acc[|acc| - 1].Item? && !acc[|acc| - 1].rep.Range? && Encodable(acc[|acc| - 1])
      requires Holds(start, lastep, acc[..|acc| - 1]) && lastep <= ep && ep + 2 <= expbuf.Length
      requires Bounded(low, high) && expbuf[ep] == low as bv8 && expbuf[ep + 1] == HighByte(low, high)
      requires var b := EncodeItem(acc[|acc| - 1]); |b| > 0 && expbuf[lastep..ep] == b[0 := b[0] | RNGE]
      ensures var acc' := Repeated(acc, Range(low, high));
        Holds(start, ep + 2, acc') && LastAt(start, lastep, ep + 2, acc')
    {
      hide EncodeItems, EncodeItem, AllEncodable;
      var front, last, rep := acc[..|acc| - 1], acc[|acc| - 1], Range(low, high);
      assert expbuf[lastep..ep + 2] == expbuf[lastep..ep] + RangeBytes(rep);
      Modified(last, rep);
      Grown(start, lastep, ep + 2, front, last.(rep := rep));
    }

    /** What follows a backslash. */
    method Backslash(start: nat, lastep0: int, ep0: nat, ghost acc0: seq<Item>)
      returns (r: Outcome, more: bool, lastep: int, ep: nat, ghost acc: seq<Item>)
      requires Subject(instring) && ep0 + 1 < expbuf.Length && Holds(start, ep0, acc0)
      requires Get(instring, sp) == BRACE ==>
        LastAt(start, lastep0, ep0, acc0) && (acc0 != [] ==> acc0[|acc0| - 1].Item?)
      modifies this`sp, expbuf
      ensures forall i :: 0 <= i < start || ep0 + 2 <= i < expbuf.Length ==> expbuf[i] == old(expbuf[i])
      ensures match AfterBackslash(instring, old(sp), acc0)
        case Stop(Outside) => !more && r == NotModelled
        case Stop(Failed(code)) => !more && r == Error(code)
        case Push(it, p) => more && sp == p && acc == acc0 + [it] && it.Item? && ep == ep0 + 2
        case Change(rep, p) => more && sp == p && acc == Repeated(acc0, rep) && ep == ep0 + 2
      ensures more ==> Holds(start, ep, acc) && LastAt(start, lastep, ep, acc)
    {
      hide Holds, EncodeItem, Interval, Subject;
      r, more, lastep, ep, acc := NotModelled, false, lastep0, ep0, acc0;
      var c := Getc();
      if c == OPEN {
        return;
      } else if c == CLOSE {
        r := Error(42);
      } else if c == BRACE && lastep != -1 {
        LastIsRange(start, lastep, ep, acc);
        if expbuf[lastep] & RNGE == RNGE {
          r := NotModelled;
        } else {
          var code;
          ghost var rep;
          code, rep := PutBounds(start, lastep, ep, acc);
          if code != 0 {
            r := Error(code);
          } else {
            more, ep, acc := true, ep + 2, Repeated(acc, rep);
          }
        }
      } else if c == NEWLINE {
        r := Error(36);
      } else if 49 <= c <= 57 {
        r := Error(25);
      } else {
        if c == LETTER_N {
          c := NEWLINE;
        }
        lastep := ep;
        PutChar(start, ep, c, acc);
        more, ep, acc := true, ep + 2, acc + [Item(Lit(c), Once)];
      }
    }

    /** What one turn of the main loop starts with: the items `acc` so far. */
    ghost predicate Compiling(start: nat, lastep: int, ep: nat, acc: seq<Item>, eof: Char)
      reads this, expbuf
    {
      && Holds(start, ep, acc) && LastAt(start, lastep, ep, acc)
      && (acc != [] && acc[|acc| - 1].Eol? ==> Get(instring, sp) in {eof, NEWLINE})
    }

    /** The outcome that belongs to what the text is. */
    ghost predicate Outcomes(start: nat, p: Parsed, r: Outcome)
      reads this, expbuf
    {
      match p
      case Done(items, pos) =>
        && AllEncodable(items) && r.Compiled? && start < r.end <= expbuf.Length && expbuf[start..r.end] == Encode(items)
        && sp == pos
      case Failed(code) => r == Error(code)
      case Outside => r == NotModelled
    }

    /** One turn of the main loop. */
    method Turn(start: nat, endbuf: nat, lastep0: int, ep0: nat, eof: Char, sed: bool, ghost acc0: seq<Item>)
      returns (r: Outcome, more: bool, lastep: int, ep: nat, ghost acc: seq<Item>)
      requires Subject(instring) && endbuf < expbuf.Length && Compiling(start, lastep0, ep0, acc0, eof)
      modifies this`sp, expbuf
      ensures forall i :: 0 <= i < start || endbuf < i < expbuf.Length ==> expbuf[i] == old(expbuf[i])
      ensures match Element(instring, old(sp), acc0, endbuf - ep0, eof, sed)
        case Stop(result) => !more && Outcomes(start, result, r)
        case Push(it, p) => more && sp == p && acc == acc0 + [it] && ep == ep0 + ItemLength(it)
        case Change(rep, p) =>
          more && sp == p && acc == Repeated(acc0, rep) && ep == ep0 + Extra(acc0[|acc0| - 1], rep)
      ensures more ==> Compiling(start, lastep, ep, acc, eof) && ep <= endbuf + 1
    {
      hide Holds, EncodeItem, Encodable, Subject, AllEncodable, Interval, ClassRest, Encode;
      r, more, lastep, ep, acc := NotModelled, false, lastep0, ep0, acc0;
      Latest(start, lastep, ep, acc);
      if ep >= endbuf {
        r := Error(50);
        return;
      }
      var c := Getc();
      if c != ASTERISK && (c != BACKSLASH || PEEKC() != BRACE) {
        lastep := ep;
      }
      if c == eof {
        r := PutEnd(start, ep, acc);
        return;
      }
      more := true;
      if c == DOT {
        PutByte(start, ep, CDOT, acc, Item(Any, Once));
        acc, ep := acc + [Item(Any, Once)], ep + 1;
      } else if c == NEWLINE {
        more := false;
        if sed {
          r := Error(36);
        } else {
          Ungetc();
          r := PutEnd(start, ep, acc);
        }
      } else if c == ASTERISK && lastep != -1 {
        ghost var rep := PutStar(start, lastep, ep, acc);
        acc := Repeated(acc, rep);
      } else if c == DOLLAR && (PEEKC() == eof || PEEKC() == NEWLINE) {
        PutByte(start, ep, CDOL, acc, Eol);
        acc, ep := acc + [Eol], ep + 1;
      } else if c == BRACKET {
        if ep + 17 >= endbuf {
          more := false;
          r := Error(50);
        } else {
          ghost var it;
          more, it := PutClass(start, ep, acc);
          if more {
            acc, ep := acc + [it], ep + 17;
          } else {
            r := Error(49);
          }
        }
      } else if c == BACKSLASH {
        r, more, lastep, ep, acc := Backslash(start, lastep, ep, acc);
      } else {
        lastep := ep;
        PutChar(start, ep, c, acc);
        acc, ep := acc + [Item(Lit(c), Once)], ep + 2;
      }
    }

    /** Compiles the expression whose text goes on at `sp`, to the end or to the first error. */
    method CompileItems(start: nat, endbuf: nat, eof: Char, sed: bool) returns (r: Outcome)
      requires start <= endbuf < expbuf.Length && Subject(instring)
      modifies this`sp, expbuf
      ensures forall i :: 0 <= i < start || endbuf < i < expbuf.Length ==> expbuf[i] == old(expbuf[i])
      ensures Outcomes(start, Rest(instring, old(sp), [], endbuf - start, eof, sed), r)
    {
      hide Holds, EncodeItem, Element, AllEncodable;
      var ep: nat, lastep: int := start, -1;
      ghost var acc: seq<Item> := [];
      Nothing(start, eof);
      while true
        invariant ep <= endbuf + 1 && AllEncodable(acc) && Compiling(start, lastep, ep, acc, eof)
        invariant forall i :: 0 <= i < start || endbuf < i < expbuf.Length ==> expbuf[i] == old(expbuf[i])
        invariant Rest(instring, old(sp), [], endbuf - start, eof, sed) ==
          Rest(instring, sp, acc, endbuf - ep, eof, sed)
        decreases Plus(endbuf - ep) + Left(instring, sp)
      {
        var more;
        r, more, lastep, ep, acc := Turn(start, endbuf, lastep, ep, eof, sed, acc);
        if !more {
          return;
        }
      }
    }

    lemma Nothing(start: nat, eof: Char)
      requires start <= expbuf.Length
      ensures Compiling(start, -1, start, [], eof) && AllEncodable([])
    {
    }

    /** Compiles a whole expression, unless it is empty: then the program already in the buffer
        is used again. */
    method Compile(start: nat, endbuf: nat, eof: Char, sed: bool) returns (r: Outcome)
      requires start <= endbuf < expbuf.Length && Subject(instring)
      modifies this`sp, this`circf, expbuf
      ensures forall i :: 0 <= i < start || endbuf < i < expbuf.Length ==> expbuf[i] == old(expbuf[i])
      ensures var c := Get(instring, old(sp));
        if c == eof || c == NEWLINE then
          && r == (if old(expbuf[start]) == 0 && !sed then Error(41) else Compiled(start))
          && expbuf[..] == old(expbuf[..]) && circf == old(circf)
        else
          && circf == (c == CARET)
          && Outcomes(start, Rest(instring, if circf then old(sp) + 1 else old(sp), [], endbuf - start, eof, sed), r)
    {
      hide Rest, Subject;
      var c := Getc();
      if c == eof || c == NEWLINE {
        if c == NEWLINE {
          Ungetc();
        }
        if expbuf[start] == 0 && !sed {
          return Error(41);
        }
        return Compiled(start);
      }
      circf := false;
      if c == CARET {
        circf := true;
      } else {
        Ungetc();
      }
      r := CompileItems(start, endbuf, eof, sed);
    }

    lemma Latest(start: nat, lastep: int, ep: nat, acc: seq<Item>)
      requires Holds(start, ep, acc) && LastAt(start, lastep, ep, acc)
      ensures start <= ep && (if acc == [] then lastep == -1 else start <= lastep)
      ensures Encodable(Item(Any, Once)) && EncodeItem(Item(Any, Once)) == [CDOT] && Encodable(Eol)
      ensures EncodeItem(Eol) == [CDOL]
    {
    }

    lemma LastIsRange(start: nat, lastep: nat, ep: nat, acc: seq<Item>)
      requires Holds(start, ep, acc) && LastAt(start, lastep, ep, acc) && acc != []
      ensures lastep < ep && (expbuf[lastep] & RNGE == RNGE <==> acc[|acc| - 1].Item? && acc[|acc| - 1].rep.Range?)
    {
      Shrunk(start, lastep, ep, acc);
      LastByte(acc[|acc| - 1]);
      assert expbuf[lastep] == expbuf[lastep..ep][0];
    }

    /** The end of the program. */
    method PutEnd(start: nat, ep: nat, ghost acc: seq<Item>) returns (r: Outcome)
      requires Holds(start, ep, acc) && ep < expbuf.Length
      modifies expbuf
      ensures r == Compiled(ep + 1) && expbuf[start..ep + 1] == Encode(acc)
      ensures forall i :: 0 <= i < start || ep < i < expbuf.Length ==> expbuf[i] == old(expbuf[i])
    {
      expbuf[ep] := CCEOF;
      r := Compiled(ep + 1);
      assert expbuf[start..ep] == old(expbuf[start..ep]);
      assert expbuf[start..ep + 1] == expbuf[start..ep] + [CCEOF];
    }
  }

  lemma LastByte(it: Item)
    requires Encodable(it)
    ensures EncodeItem(it)[0] & RNGE == RNGE <==> it.Item? && it.rep.Range?
  {
    hide ClassMap;
  }

  lemma BadStart(pat: seq<Char>, pos: nat, lc: Char, c: Char)
    requires Subject(pat) && lc < 128 && c in {0, NEWLINE}
    ensures NextPart(pat, pos, lc, c) == Bad
  {
  }

  lemma PartsPlus(ps: seq<Part>, p: Part)
    requires SevenBits(ps) && SevenBit(p)
    ensures SevenBits(ps + [p]) && PlaceParts(ps + [p]) == PlacePart(PlaceParts(ps), p)
  {
    assert (ps + [p])[..|ps|] == ps;
  }
}
