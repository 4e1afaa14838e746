/** Compiled regular expressions: the byte code of each item, and character classes as bitmaps. */
module RegexProgram {
  import opened RegexSyntax

  const CCHR: bv8 := 4
  const CDOT: bv8 := 8
  const CCL: bv8 := 12
  const CDOL: bv8 := 20
  const CCEOF: bv8 := 22

  /** Or-ed to the operation of a starred item, or of one with a range. */
  const STAR: bv8 := 1
  const RNGE: bv8 := 3

  // ----- bitmaps -----

  function BitTab(k: int): bv8
    requires 0 <= k < 8
  {
    if k == 0 then 1 else if k == 1 then 2 else if k == 2 then 4 else if k == 3 then 8
    else if k == 4 then 16 else if k == 5 then 32 else if k == 6 then 64 else 128
  }

  function Cell(c: Char): int { (c >> 3) as int }

  function Slot(c: Char): int { (c & 7) as int }

  predicate Bitmap(m: seq<bv8>) {
    |m| == 16
  }

  predicate IsThere(m: seq<bv8>, c: Char)
    requires Bitmap(m) && c < 128
  {
    SlotFacts(c);
    m[Cell(c)] & BitTab(Slot(c)) != 0
  }

  function Place(m: seq<bv8>, c: Char): (m': seq<bv8>)
    requires Bitmap(m) && c < 128
    ensures Bitmap(m')
  {
    SlotFacts(c);
    m[Cell(c) := m[Cell(c)] | BitTab(Slot(c))]
  }

  lemma SlotFacts(c: Char)
    requires c < 128
    ensures 0 <= Cell(c) < 16 && 0 <= Slot(c) < 8
  {
  }

  lemma SlotsDiffer(c: Char, d: Char)
    requires c < 128 && d < 128 && Cell(c) == Cell(d) && Slot(c) == Slot(d)
    ensures c == d
  {
  }

  lemma OrBit(b: bv8, k: int, j: int)
    requires 0 <= k < 8 && 0 <= j < 8
    ensures (b | BitTab(k)) & BitTab(j) != 0 <==> j == k || b & BitTab(j) != 0
  {
  }

  lemma PlaceCorrect(m: seq<bv8>, c: Char, d: Char)
    requires Bitmap(m) && c < 128 && d < 128
    ensures IsThere(Place(m, c), d) <==> d == c || IsThere(m, d)
  {
    hide BitTab, Cell, Slot;
    SlotFacts(c);
    SlotFacts(d);
    if Cell(c) == Cell(d) {
      OrBit(m[Cell(c)], Slot(c), Slot(d));
      if Slot(c) == Slot(d) { SlotsDiffer(c, d); }
    }
  }

  /** All characters from `lo` up to, but not including, `hi`. */
  function PlaceSpan(m: seq<bv8>, lo: Char, hi: Char): (m': seq<bv8>)
    requires Bitmap(m) && hi < 128
    ensures Bitmap(m')
    decreases (hi as int) - (lo as int)
  {
    if lo < hi then PlaceSpan(Place(m, lo), lo + 1, hi) else m
  }

  lemma {:induction false} PlaceSpanCorrect(m: seq<bv8>, lo: Char, hi: Char, d: Char)
    requires Bitmap(m) && hi < 128 && d < 128
    ensures IsThere(PlaceSpan(m, lo, hi), d) <==> lo <= d < hi || IsThere(m, d)
    decreases (hi as int) - (lo as int)
  {
    hide IsThere, Place;
    if lo < hi {
      PlaceCorrect(m, lo, d);
      PlaceSpanCorrect(Place(m, lo), lo + 1, hi, d);
    }
  }

  predicate SevenBit(p: Part) {
    match p
    case One(c) => 0 < c < 128
    case Span(lo, hi) => 0 < lo < 128 && 0 < hi < 128
  }

  predicate SevenBits(ps: seq<Part>) {
    forall i :: 0 <= i < |ps| ==> SevenBit(ps[i])
  }

  lemma SevenNone()
    ensures SevenBits([])
  {
  }

  function PlacePart(m: seq<bv8>, p: Part): (m': seq<bv8>)
    requires Bitmap(m) && SevenBit(p)
    ensures Bitmap(m')
  {
    match p
    case One(c) => Place(m, c)
    case Span(lo, hi) => Place(PlaceSpan(m, lo, hi), hi)
  }

  function PlaceParts(ps: seq<Part>): (m: seq<bv8>)
    requires SevenBits(ps)
    ensures Bitmap(m)
  {
    if ps == [] then seq(16, _ => 0) else PlacePart(PlaceParts(ps[..|ps| - 1]), ps[|ps| - 1])
  }

  lemma {:induction false} PlacePartsCorrect(ps: seq<Part>, d: Char)
    requires SevenBits(ps) && d < 128
    ensures IsThere(PlaceParts(ps), d) <==> InParts(ps, d)
  {
    SlotFacts(d);
    if ps != [] {
      var n := |ps| - 1;
      PlacePartsCorrect(ps[..n], d);
      PlacePartCorrect(PlaceParts(ps[..n]), ps[n], d);
      assert InParts(ps, d) <==> InParts(ps[..n], d) || InPart(ps[n], d) by {
        if InParts(ps, d) {
          var i :| 0 <= i < |ps| && InPart(ps[i], d);
          assert i < n ==> ps[..n][i] == ps[i];
        }
        if InParts(ps[..n], d) {
          var i :| 0 <= i < n && InPart(ps[..n][i], d);
          assert ps[i] == ps[..n][i];
        }
      }
    }
  }

  lemma PlacePartCorrect(m: seq<bv8>, p: Part, d: Char)
    requires Bitmap(m) && SevenBit(p) && d < 128
    ensures IsThere(PlacePart(m, p), d) <==> InPart(p, d) || IsThere(m, d)
  {
    hide IsThere, Place, PlaceSpan;
    match p
    case One(c) => PlaceCorrect(m, c, d);
    case Span(lo, hi) =>
      PlaceSpanCorrect(m, lo, hi, d);
      PlaceCorrect(PlaceSpan(m, lo, hi), hi, d);
  }

  /** The complement, without the end of the subject. */
  function Negate(m: seq<bv8>): (m': seq<bv8>)
    requires Bitmap(m)
    ensures Bitmap(m')
  {
    seq(16, i requires 0 <= i < 16 => if i == 0 then (m[i] ^ 255) & 254 else m[i] ^ 255)
  }

  lemma FlipBit(b: bv8, k: int)
    requires 0 <= k < 8
    ensures (b ^ 255) & BitTab(k) != 0 <==> b & BitTab(k) == 0
    ensures (b ^ 255) & 254 & BitTab(k) != 0 <==> k != 0 && b & BitTab(k) == 0
  {
  }

  lemma ZeroSlot()
    ensures Cell(0) == 0 && Slot(0) == 0
  {
  }

  lemma NegateCorrect(m: seq<bv8>, d: Char)
    requires Bitmap(m) && d < 128
    ensures IsThere(Negate(m), d) <==> d != 0 && !IsThere(m, d)
  {
    hide BitTab, Cell, Slot;
    SlotFacts(d);
    ZeroSlot();
    FlipBit(m[Cell(d)], Slot(d));
    if Cell(d) == 0 && Slot(d) == 0 { SlotsDiffer(d, 0); }
  }

  /** The bitmap compiled for a class. */
  function ClassMap(neg: bool, ps: seq<Part>): (m: seq<bv8>)
    requires SevenBits(ps)
    ensures Bitmap(m)
  {
    if neg then Negate(PlaceParts(ps)) else PlaceParts(ps)
  }

  /** A bitmap answers for its class, and never accepts the end of the subject. */
  lemma ClassMapCorrect(neg: bool, ps: seq<Part>, d: Char)
    requires SevenBits(ps) && d < 128
    ensures IsThere(ClassMap(neg, ps), d) <==> Accepts(Class(neg, ps), d)
  {
    PlacePartsCorrect(ps, d);
    NegateCorrect(PlaceParts(ps), d);
    if d == 0 {
      forall i | 0 <= i < |ps| ensures !InPart(ps[i], 0) { assert SevenBit(ps[i]); }
    }
  }

  // ----- byte code -----

  /** Literals are characters, classes are made of characters, and ranges fit a byte. */
  predicate WellFormedAtom(a: Atom) {
    match a
    case Lit(c) => 0 < c < 128
    case Any => true
    case Class(_, ps) => SevenBits(ps)
  }

  /** The most characters behind the first `low` that an open range takes. */
  const MORE := 20000

  /** The bounds that a range can have: the byte 255 stands for an upper bound `MORE` above the lower. */
  predicate Bounded(low: nat, high: nat) {
    low < 256 && (high < 255 || high == low + MORE)
  }

  function HighByte(low: nat, high: nat): bv8
    requires Bounded(low, high)
  {
    if high < 255 then high as bv8 else 255
  }

  predicate WellFormedItem(it: Item) {
    it.Item? ==>
      WellFormedAtom(it.atom) && (it.rep.Range? ==> it.rep.low <= it.rep.high && Bounded(it.rep.low, it.rep.high))
  }

  predicate WellFormed(items: seq<Item>) {
    forall i :: 0 <= i < |items| ==> WellFormedItem(items[i])
  }

  /** A class has seven-bit parts; nothing else is needed for it to have byte code. */
  predicate Encodable(it: Item) {
    it.Item? ==>
      (it.atom.Class? ==> SevenBits(it.atom.parts)) && (it.rep.Range? ==> Bounded(it.rep.low, it.rep.high))
  }

  predicate AllEncodable(items: seq<Item>) {
    forall i :: 0 <= i < |items| ==> Encodable(items[i])
  }

  function OpCode(a: Atom): bv8 {
    match a
    case Lit(_) => CCHR
    case Any => CDOT
    case Class(_, _) => CCL
  }

  /** What follows the operation: the character, or the bitmap. */
  function Operand(a: Atom): seq<bv8>
    requires a.Class? ==> SevenBits(a.parts)
  {
    match a
    case Lit(c) => [c]
    case Any => []
    case Class(neg, ps) => ClassMap(neg, ps)
  }

  function EncodeItem(it: Item): (b: seq<bv8>)
    requires Encodable(it)
    ensures |b| > 0
  {
    match it
    case Eol => [CDOL]
    case Item(a, Once) => [OpCode(a)] + Operand(a)
    case Item(a, Star) => [OpCode(a) | STAR] + Operand(a)
    case Item(a, Range(low, high)) => [OpCode(a) | RNGE] + Operand(a) + [low as bv8, HighByte(low, high)]
  }

  function EncodeItems(items: seq<Item>): seq<bv8>
    requires AllEncodable(items)
  {
    if items == [] then [] else EncodeItem(items[0]) + EncodeItems(items[1..])
  }

  function Encode(items: seq<Item>): seq<bv8>
    requires AllEncodable(items)
  {
    EncodeItems(items) + [CCEOF]
  }

  lemma {:induction false} EncodeAppend(items: seq<Item>, it: Item)
    requires AllEncodable(items) && Encodable(it)
    ensures AllEncodable(items + [it]) && EncodeItems(items + [it]) == EncodeItems(items) + EncodeItem(it)
  {
    if items == [] {
      assert EncodeItems([it]) == EncodeItem(it) + EncodeItems([]);
    } else {
      EncodeAppend(items[1..], it);
      assert (items + [it])[1..] == items[1..] + [it];
    }
  }
}
