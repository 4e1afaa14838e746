/** All the ways to write an expression, and all the mistakes that can be made: what the compiler takes a
    text for. */
module RegexSpelling {
  import opened RegexSyntax
  import opened RegexProgram
  import opened RegexMatcher
  import opened RegexCompiler

  // ----- texts -----

  /** `text` stands at position `pos` of `pat`. */
  predicate At(pat: seq<Char>, pos: nat, text: seq<Char>) {
    pos + |text| <= |pat| && pat[pos..pos + |text|] == text
  }

  lemma AtSplit(pat: seq<Char>, pos: nat, u: seq<Char>, v: seq<Char>)
    requires At(pat, pos, u + v)
    ensures At(pat, pos, u) && At(pat, pos + |u|, v)
    ensures u != [] ==> Get(pat, pos) == u[0]
    ensures |u| > 1 ==> Get(pat, pos + 1) == u[1]
  {
    assert pat[pos..pos + |u|] == (u + v)[..|u|];
    assert pat[pos + |u|..pos + |u| + |v|] == (u + v)[|u|..];
    assert forall i :: 0 <= i < |u| ==> pat[pos + i] == u[i];
  }

  // ----- atoms -----

  /** The parts of a class after the character `lc` (0 at its beginning) can be written down: a span
      goes on from the character before it, a dash comes first or last, and a closing bracket first. */
  predicate Spelled(parts: seq<Part>, lc: Char) {
    parts != [] ==>
      match parts[0]
      case One(c) =>
        && 0 < c < 128 && c != NEWLINE && (c == TEKCARB ==> lc == 0) && (c == DASH && lc != 0 ==> |parts| == 1)
        && Spelled(parts[1..], c)
      case Span(lo, hi) => lc != 0 && lo == lc && 0 < hi < 128 && hi != TEKCARB && Spelled(parts[1..], hi)
  }

  function PartText(p: Part): seq<Char> {
    match p
    case One(c) => [c]
    case Span(_, hi) => [DASH, hi]
  }

  function PartsText(parts: seq<Part>): seq<Char> {
    if parts == [] then [] else PartText(parts[0]) + PartsText(parts[1..])
  }

  function ClassText(neg: bool, parts: seq<Part>): seq<Char> {
    [BRACKET] + (if neg then [CARET] else []) + PartsText(parts) + [TEKCARB]
  }

  /** Classes that can be written down. */
  predicate Writable(a: Atom) {
    WellFormedAtom(a) && (a.Class? ==> a.parts != [] && Spelled(a.parts, 0) && (!a.neg ==> a.parts[0] != One(CARET)))
  }

  /** Character `c` stands for itself behind a backslash; an opening brace only if nothing is before it. */
  predicate Quotable(c: Char, first: bool) {
    0 < c < 128 && c !in {OPEN, CLOSE, NEWLINE, LETTER_N} && !(49 <= c <= 57) && (c == BRACE ==> first)
  }

  /** Character `c` stands for itself as it is: an asterisk only at the beginning, and a dollar sign only
      with something behind it. */
  predicate Bare(c: Char, first: bool, last: bool, eof: Char) {
    && 0 < c < 128 && c !in {eof, NEWLINE, DOT, BRACKET, BACKSLASH}
    && (c == ASTERISK ==> first) && (c == DOLLAR ==> !last)
  }

  /** `text` is a way to write atom `a`, first in the expression or not, and last or not. */
  predicate AtomSpelled(a: Atom, text: seq<Char>, first: bool, last: bool, eof: Char) {
    text != [] && text[0] != eof &&
    match a
    case Any => text == [DOT]
    case Class(neg, parts) => Writable(a) && text == ClassText(neg, parts)
    case Lit(c) =>
      || (text == [c] && Bare(c, first, last, eof))
      || (text == [BACKSLASH, c] && Quotable(c, first))
      || (text == [BACKSLASH, LETTER_N] && c == NEWLINE)
  }

  // ----- repetitions -----

  /** The bounds of a range: one number, one with a comma, or two. */
  datatype Limit = NoLimit | Exactly(ds: seq<Char>) | AtLeast(ds: seq<Char>) | Between(ds: seq<Char>, es: seq<Char>)

  predicate AllDigits(ds: seq<Char>) {
    forall c :: c in ds ==> Digit(c)
  }

  /** The number whose first digits are `n` and whose others are `ds`. */
  function ValueFrom(n: nat, ds: seq<Char>): nat
    requires AllDigits(ds)
    decreases |ds|
  {
    if ds == [] then n
    else
      assert ds[0] in ds;
      ValueFrom(10 * n + (ds[0] - 48) as int, ds[1..])
  }

  /** A number that fits a byte. */
  predicate Number8(ds: seq<Char>) {
    ds != [] && AllDigits(ds) && ValueFrom(0, ds) < 256
  }

  predicate LimitOk(l: Limit) {
    match l
    case NoLimit => true
    case Exactly(ds) => Number8(ds)
    case AtLeast(ds) => Number8(ds)
    case Between(ds, es) => Number8(ds) && Number8(es) && ValueFrom(0, ds) <= ValueFrom(0, es)
  }

  /** 255 stands for no upper bound, which the program takes for `MORE` characters more. */
  function Top(low: nat, high: nat): nat {
    if high == 255 then low + MORE else high
  }

  function LimitRep(l: Limit): Rep
    requires LimitOk(l) && !l.NoLimit?
  {
    var low := ValueFrom(0, l.ds);
    match l
    case Exactly(_) => Range(low, Top(low, low))
    case AtLeast(_) => Range(low, low + MORE)
    case Between(_, es) => Range(low, Top(low, ValueFrom(0, es)))
  }

  function LimitText(l: Limit): seq<Char> {
    match l
    case NoLimit => []
    case Exactly(ds) => [BACKSLASH, BRACE] + (ds + [BACKSLASH, ECARB])
    case AtLeast(ds) => [BACKSLASH, BRACE] + (ds + [COMMA, BACKSLASH, ECARB])
    case Between(ds, es) => [BACKSLASH, BRACE] + (ds + ([COMMA] + (es + [BACKSLASH, ECARB])))
  }

  function Stars(k: nat): seq<Char> {
    if k == 0 then [] else [ASTERISK] + Stars(k - 1)
  }

  // ----- expressions -----

  /** A way to write an item: its atom, and behind it asterisks, a range, and more asterisks. */
  datatype Way = Way(atom: Atom, text: seq<Char>, stars: nat, limit: Limit, more: nat)

  function WayItem(w: Way): Item
    requires LimitOk(w.limit)
  {
    Item(w.atom, if !w.limit.NoLimit? then LimitRep(w.limit) else if w.stars > 0 then Star else Once)
  }

  function WayText(w: Way): seq<Char> {
    w.text + (Stars(w.stars) + (LimitText(w.limit) + Stars(w.more)))
  }

  predicate Ending(c: Char, eof: Char) {
    c == eof || c == NEWLINE
  }

  /** Way `w` is good in its place; `next` is the character behind it. */
  predicate WayOk(w: Way, first: bool, next: Char, eof: Char) {
    && AtomSpelled(w.atom, w.text, first, w.stars == 0 && w.limit.NoLimit? && Ending(next, eof), eof)
    && WellFormedAtom(w.atom) && LimitOk(w.limit) && (w.limit.NoLimit? ==> w.more == 0)
    && (w.stars + w.more > 0 ==> eof != ASTERISK) && (!w.limit.NoLimit? ==> eof != BACKSLASH)
  }

  function Text(ws: seq<Way>): seq<Char> {
    if ws == [] then [] else WayText(ws[0]) + Text(ws[1..])
  }

  /** The character behind the first of the ways `ws`, when `next` is behind all of them. */
  function Behind(ws: seq<Way>, next: Char): Char {
    if ws != [] && Text(ws) != [] then Text(ws)[0] else next
  }

  predicate WaysOk(ws: seq<Way>, first: bool, next: Char, eof: Char) {
    ws != [] ==> WayOk(ws[0], first, Behind(ws[1..], next), eof) && WaysOk(ws[1..], false, next, eof)
  }

  function Items(ws: seq<Way>): seq<Item>
    requires forall w :: w in ws ==> LimitOk(w.limit)
  {
    if ws == [] then [] else [WayItem(ws[0])] + Items(ws[1..])
  }

  /** The bytes of program that items take. */
  function Length(items: seq<Item>): nat {
    if items == [] then 0 else ItemLength(items[0]) + Length(items[1..])
  }

  /** What a limit promises of the number of characters taken. */
  predicate Promised(l: Limit, k: nat)
    requires LimitOk(l)
  {
    match l
    case NoLimit => true
    case Exactly(ds) => k == ValueFrom(0, ds)
    case AtLeast(ds) => k >= ValueFrom(0, ds)
    case Between(ds, es) => ValueFrom(0, ds) <= k <= ValueFrom(0, es)
  }

  /** The first number of characters that a range takes against its promise, or does not take. */
  function Broken(l: Limit): (k: nat)
    requires LimitOk(l) && !l.NoLimit?
    ensures LimitRep(l).low <= k
  {
    if l.AtLeast? || LimitRep(l).high < 255 then LimitRep(l).high + 1 else 256
  }

  /** At a given place a range takes exactly the numbers of characters that it promises if and only if its
      bounds are below 255, or there are not as many characters as its promise is broken at: an open range ends
      20000 characters behind its lower bound, and an upper bound of 255 does not bound. */
  lemma LimitExact(a: Atom, l: Limit, s: seq<Char>, i: nat)
    requires LimitOk(l) && !l.NoLimit?
    ensures (forall k: nat :: Takes(Item(a, LimitRep(l)), s, i, k) <==> Promised(l, k) && AcceptsRun(a, s, i, k)) <==>
      (!l.AtLeast? && LimitRep(l).high < 255) || !AcceptsRun(a, s, i, Broken(l))
  {
    hide ValueFrom;
    var b := Broken(l);
    assert Takes(Item(a, LimitRep(l)), s, i, b) <==> Allowed(LimitRep(l), b) && AcceptsRun(a, s, i, b);
    forall k: nat | k >= b && AcceptsRun(a, s, i, k) ensures AcceptsRun(a, s, i, b) { AcceptsPrefix(a, s, i, k, b); }
  }

  // ----- atoms are read back -----

  /** The character before the rest of a class. */
  function LastOf(p: Part): Char {
    if p.One? then p.c else p.hi
  }

  /** Inside a class, what follows a part is not taken for the closing bracket. */
  lemma NotClosed(pat: seq<Char>, pos: nat, parts: seq<Part>, lc: Char)
    requires lc != 0 && Spelled(parts, lc) && parts != [] && At(pat, pos, PartsText(parts) + [TEKCARB])
    ensures Get(pat, pos) != TEKCARB
  {
    var u := PartText(parts[0]);
    assert PartsText(parts) + [TEKCARB] == u + (PartsText(parts[1..]) + [TEKCARB]);
    AtSplit(pat, pos, u, PartsText(parts[1..]) + [TEKCARB]);
  }

  /** The part that stands at `pos` is read back, or it is the dash that ends a class. */
  lemma PartParsed(pat: seq<Char>, pos: nat, lc: Char, parts: seq<Part>)
    requires Subject(pat) && lc < 128 && Spelled(parts, lc) && parts != [] && At(pat, pos, PartsText(parts) + [TEKCARB])
    ensures var part := parts[0]; var p := pos + |PartText(part)|;
      && SevenBit(part) && Spelled(parts[1..], LastOf(part)) && 0 < LastOf(part) < 128
      && At(pat, p, PartsText(parts[1..]) + [TEKCARB]) && PartEnd(pos + 1, part) == p
      && match NextPart(pat, pos + 1, lc, Seven(pat, pos))
         case Bad => false
         case Final => parts == [One(DASH)]
         case More(part', lc') => part' == part && lc' == LastOf(part)
  {
    hide Subject, At;
    var u, v := PartText(parts[0]), PartsText(parts[1..]) + [TEKCARB];
    assert PartsText(parts) + [TEKCARB] == u + v;
    AtSplit(pat, pos, u, v);
    if parts[1..] == [] {
      assert v == [TEKCARB];
      AtSplit(pat, pos + |u|, [TEKCARB], []);
    } else {
      NotClosed(pat, pos + |u|, parts[1..], LastOf(parts[0]));
    }
  }

  lemma PartsTextIs(parts: seq<Part>)
    requires parts != []
    ensures PartsText(parts) == PartText(parts[0]) + PartsText(parts[1..]) && PartsText([]) == []
  {
    hide PartText;
  }

  lemma {:induction false} ClassParsed(pat: seq<Char>, pos: nat, before: seq<Part>, lc: Char, parts: seq<Part>)
    requires Subject(pat) && SevenBits(before) && lc < 128 && Spelled(parts, lc) && parts != []
    requires At(pat, pos, PartsText(parts) + [TEKCARB])
    ensures ClassRest(pat, pos + 1, before, lc, Seven(pat, pos)) == Parts(before + parts, pos + |PartsText(parts)| + 1)
    decreases |parts|
  {
    hide Subject, SevenBits, SevenBit, NextPart, Spelled, At, PartsText, PartText, Get;
    var part, rest := parts[0], parts[1..];
    PartsTextIs(parts);
    PartParsed(pat, pos, lc, parts);
    var p := pos + |PartText(part)|;
    PartsPlus(before, part);
    assert before + parts == before + [part] + rest;
    if rest == [] {
      assert PartsText(rest) + [TEKCARB] == [TEKCARB] + [];
      AtSplit(pat, p, [TEKCARB], []);
    } else {
      ClassParsed(pat, p, before + [part], LastOf(part), rest);
      NotClosed(pat, p, rest, LastOf(part));
    }
  }

  lemma BracketIs(pat: seq<Char>, pos: nat, a: Atom, q: nat)
    requires Subject(pat) && a.Class? && (Get(pat, pos) == CARET <==> a.neg)
    requires SevenBits([])
      && var p := if a.neg then pos + 1 else pos; ClassRest(pat, p + 1, [], 0, Seven(pat, p)) == Parts(a.parts, q)
    ensures Bracket(pat, pos) == Push(Item(a, Once), q)
  {
    hide ClassRest, Subject, SevenBits;
  }

  /** What stands at the beginning of a class. */
  lemma ClassHead(pat: seq<Char>, pos: nat, a: Atom)
    requires Writable(a) && a.Class? && At(pat, pos, ClassText(a.neg, a.parts))
    ensures Get(pat, pos) == BRACKET && (Get(pat, pos + 1) == CARET <==> a.neg)
    ensures var p := if a.neg then pos + 2 else pos + 1;
      && At(pat, p, PartsText(a.parts) + [TEKCARB]) && p + |PartsText(a.parts)| + 1 == pos + |ClassText(a.neg, a.parts)|
  {
    hide At, SevenBits, PartsText;
    var head := [BRACKET] + if a.neg then [CARET] else [];
    var tail := PartsText(a.parts) + [TEKCARB];
    assert ClassText(a.neg, a.parts) == head + tail;
    AtSplit(pat, pos, head, tail);
    PartsTextIs(a.parts);
    FirstIsOne(a);
    hide Spelled;
    var u, v := PartText(a.parts[0]), PartsText(a.parts[1..]) + [TEKCARB];
    assert tail == u + v;
    AtSplit(pat, pos + |head|, u, v);
  }

  lemma BracketParsed(pat: seq<Char>, pos: nat, a: Atom)
    requires Subject(pat) && Writable(a) && a.Class? && At(pat, pos, ClassText(a.neg, a.parts))
    ensures Get(pat, pos) == BRACKET && Bracket(pat, pos + 1) == Push(Item(a, Once), pos + |ClassText(a.neg, a.parts)|)
  {
    hide Subject, At, SevenBits, ClassRest, Bracket, Spelled, PartsText, ClassText, Get, Seven;
    ClassHead(pat, pos, a);
    SevenNone();
    ClassParsed(pat, if a.neg then pos + 2 else pos + 1, [], 0, a.parts);
    assert [] + a.parts == a.parts;
    BracketIs(pat, pos + 1, a, pos + |ClassText(a.neg, a.parts)|);
  }

  lemma FirstIsOne(a: Atom)
    requires Writable(a) && a.Class?
    ensures a.parts != [] && a.parts[0].One?
  {
  }

  lemma NoRoom(pat: seq<Char>, pos: nat, acc: seq<Item>, room: int, eof: Char, sed: bool)
    requires Subject(pat) && AllEncodable(acc) && room <= 0
    ensures Rest(pat, pos, acc, room, eof, sed) == Failed(50)
  {
  }

  /** The text of an atom reads back as that atom. */
  lemma AtomElement(pat: seq<Char>, pos: nat, acc: seq<Item>, a: Atom, text: seq<Char>, last: bool, room: int,
        eof: Char, sed: bool)
    requires Subject(pat) && AtomSpelled(a, text, acc == [], last, eof) && At(pat, pos, text)
    requires last || !Ending(Get(pat, pos + |text|), eof)
    ensures Element(pat, pos, acc, room, eof, sed) ==
      if room <= 0 || (a.Class? && room <= 17) then Stop(Failed(50)) else Push(Item(a, Once), pos + |text|)
  {
    hide Subject;
    assert text + [] == text;
    AtSplit(pat, pos, text, []);
    if a.Class? { BracketParsed(pat, pos, a); }
  }

  lemma AtomParsed(pat: seq<Char>, pos: nat, acc: seq<Item>, a: Atom, text: seq<Char>, last: bool, room: int,
        eof: Char, sed: bool)
    requires Subject(pat) && AllEncodable(acc) && WellFormedAtom(a)
    requires AtomSpelled(a, text, acc == [], last, eof) && At(pat, pos, text)
    requires last || !Ending(Get(pat, pos + |text|), eof)
    ensures AllEncodable(acc + [Item(a, Once)])
    ensures Rest(pat, pos, acc, room, eof, sed) ==
      Rest(pat, pos + |text|, acc + [Item(a, Once)], room - ItemLength(Item(a, Once)), eof, sed)
  {
    AtomElement(pat, pos, acc, a, text, last, room, eof, sed);
    hide Subject, Element, AtomSpelled, At;
    if room <= 17 && room - ItemLength(Item(a, Once)) <= 0 {
      NoRoom(pat, pos + |text|, acc + [Item(a, Once)], room - ItemLength(Item(a, Once)), eof, sed);
    }
  }

  // ----- repetitions are read back -----

  lemma Again(front: seq<Item>, it: Item, r: Rep)
    requires it.Item?
    ensures Repeated(front + [it], r) == front + [it.(rep := r)]
  {
  }

  lemma StarParsed(pat: seq<Char>, pos: nat, front: seq<Item>, it: Item, room: int, eof: Char, sed: bool)
    requires Subject(pat) && AllEncodable(front + [it]) && it.Item? && Get(pat, pos) == ASTERISK && eof != ASTERISK
    ensures AllEncodable(front + [it.(rep := Starred(it.rep))])
    ensures Rest(pat, pos, front + [it], room, eof, sed) ==
      Rest(pat, pos + 1, front + [it.(rep := Starred(it.rep))], room, eof, sed)
  {
    hide Subject;
    var acc := front + [it];
    Again(front, it, Starred(it.rep));
    assert acc[|acc| - 1] == it;
    assert Encodable(it) && Encodable(it.(rep := Starred(it.rep)));
    assert AllEncodable(Repeated(acc, Starred(it.rep)));
    hide Repeated, AllEncodable, Encodable;
    if room <= 0 {
      NoRoom(pat, pos, acc, room, eof, sed);
      NoRoom(pat, pos + 1, front + [it.(rep := Starred(it.rep))], room, eof, sed);
    } else {
      assert Element(pat, pos, acc, room, eof, sed) == Change(Starred(it.rep), pos + 1);
    }
  }

  function Starry(r: Rep, k: nat): Rep {
    if k == 0 then r else Starred(r)
  }

  lemma {:induction false} StarsParsed(pat: seq<Char>, pos: nat, front: seq<Item>, it: Item, k: nat, room: int,
        eof: Char, sed: bool)
    requires Subject(pat) && AllEncodable(front + [it]) && it.Item? && At(pat, pos, Stars(k))
    requires k > 0 ==> eof != ASTERISK
    ensures AllEncodable(front + [it.(rep := Starry(it.rep, k))])
    ensures Rest(pat, pos, front + [it], room, eof, sed) ==
      Rest(pat, pos + |Stars(k)|, front + [it.(rep := Starry(it.rep, k))], room, eof, sed)
    decreases k
  {
    hide Subject, Rest, AllEncodable, At;
    if k > 0 {
      AtSplit(pat, pos, [ASTERISK], Stars(k - 1));
      StarParsed(pat, pos, front, it, room, eof, sed);
      StarsParsed(pat, pos + 1, front, it.(rep := Starred(it.rep)), k - 1, room, eof, sed);
    }
  }

  lemma AtRest(pat: seq<Char>, pos: nat, u: seq<Char>)
    requires At(pat, pos, u) && u != []
    ensures Get(pat, pos) == u[0] && At(pat, pos + 1, u[1..])
  {
    assert u == [u[0]] + u[1..];
    AtSplit(pat, pos, [u[0]], u[1..]);
  }

  lemma DigitsTail(ds: seq<Char>)
    requires AllDigits(ds) && ds != []
    ensures Digit(ds[0]) && AllDigits(ds[1..])
  {
  }

  /** Digits with a backslash or a comma behind them are a number. */
  lemma {:induction false} DigitsRead(pat: seq<Char>, pos: nat, n: nat, ds: seq<Char>)
    requires ds != [] && AllDigits(ds) && At(pat, pos, ds) && Get(pat, pos + |ds|) in {BACKSLASH, COMMA}
    ensures Digits(pat, pos, n) == Number(ValueFrom(n, ds), Get(pat, pos + |ds|), pos + |ds| + 1)
    decreases |ds|
  {
    DigitsTail(ds);
    AtRest(pat, pos, ds);
    hide At;
    if |ds| > 1 {
      DigitsTail(ds[1..]);
      AtRest(pat, pos + 1, ds[1..]);
      DigitsRead(pat, pos + 1, 10 * n + (ds[0] - 48) as int, ds[1..]);
    } else {
      assert ds[1..] == [];
    }
  }

  /** Digits with anything else behind them, or no digits, are none. */
  lemma {:induction false} DigitsMissing(pat: seq<Char>, pos: nat, n: nat, ds: seq<Char>)
    requires AllDigits(ds) && At(pat, pos, ds) && !Digit(Get(pat, pos + |ds|))
    requires ds == [] || Get(pat, pos + |ds|) !in {BACKSLASH, COMMA}
    ensures Digits(pat, pos, n) == NoNumber
    decreases |ds|
  {
    if ds != [] {
      DigitsTail(ds);
      AtRest(pat, pos, ds);
      hide At;
      if |ds| > 1 {
        DigitsTail(ds[1..]);
        AtRest(pat, pos + 1, ds[1..]);
      } else {
        assert ds[1..] == [];
      }
      DigitsMissing(pat, pos + 1, 10 * n + (ds[0] - 48) as int, ds[1..]);
    }
  }

  /** A number, its delimiter, and what is behind that. */
  lemma NumberRead(pat: seq<Char>, pos: nat, ds: seq<Char>, c: Char, more: seq<Char>)
    requires ds != [] && AllDigits(ds) && c in {BACKSLASH, COMMA} && At(pat, pos, ds + ([c] + more))
    ensures At(pat, pos + |ds| + 1, more) && Digits(pat, pos, 0) == Number(ValueFrom(0, ds), c, pos + |ds| + 1)
    ensures Get(pat, pos) == ds[0] && ds[0] != BACKSLASH
  {
    DigitsTail(ds);
    AtSplit(pat, pos, ds, [c] + more);
    AtSplit(pat, pos + |ds|, [c], more);
    hide At;
    DigitsRead(pat, pos, 0, ds);
  }

  lemma ExactlyParsed(pat: seq<Char>, pos: nat, ds: seq<Char>)
    requires Number8(ds) && At(pat, pos, ds + [BACKSLASH, ECARB])
    ensures Interval(pat, pos) ==
      Bounds(ValueFrom(0, ds), Upper(ValueFrom(0, ds), ValueFrom(0, ds)), pos + |ds + [BACKSLASH, ECARB]|)
  {
    assert [BACKSLASH] + [ECARB] == [BACKSLASH, ECARB];
    NumberRead(pat, pos, ds, BACKSLASH, [ECARB]);
    AtRest(pat, pos + |ds| + 1, [ECARB]);
    hide At, Digits, ValueFrom, Upper, Get;
  }

  lemma AtLeastParsed(pat: seq<Char>, pos: nat, ds: seq<Char>)
    requires Number8(ds) && At(pat, pos, ds + [COMMA, BACKSLASH, ECARB])
    ensures Interval(pat, pos) ==
      Bounds(ValueFrom(0, ds), Upper(ValueFrom(0, ds), 255), pos + |ds + [COMMA, BACKSLASH, ECARB]|)
  {
    var more := [BACKSLASH, ECARB];
    assert [COMMA] + more == [COMMA, BACKSLASH, ECARB];
    NumberRead(pat, pos, ds, COMMA, more);
    AtRest(pat, pos + |ds| + 1, more);
    AtRest(pat, pos + |ds| + 2, more[1..]);
    hide At, Digits, ValueFrom, Upper, Get;
  }

  lemma BetweenParsed(pat: seq<Char>, pos: nat, ds: seq<Char>, es: seq<Char>)
    requires Number8(ds) && Number8(es) && ValueFrom(0, ds) <= ValueFrom(0, es)
    requires At(pat, pos, ds + ([COMMA] + (es + [BACKSLASH, ECARB])))
    ensures Interval(pat, pos) ==
      Bounds(ValueFrom(0, ds), Upper(ValueFrom(0, ds), ValueFrom(0, es)),
             pos + |ds + ([COMMA] + (es + [BACKSLASH, ECARB]))|)
  {
    hide Digits, ValueFrom;
    assert [BACKSLASH] + [ECARB] == [BACKSLASH, ECARB];
    NumberRead(pat, pos, ds, COMMA, es + [BACKSLASH, ECARB]);
    NumberRead(pat, pos + |ds| + 1, es, BACKSLASH, [ECARB]);
    AtRest(pat, pos + |ds| + 1 + |es| + 1, [ECARB]);
    hide At, Upper, Get;
  }

  lemma IntervalParsed(pat: seq<Char>, pos: nat, l: Limit)
    requires !l.NoLimit? && LimitOk(l) && At(pat, pos, LimitText(l))
    ensures Get(pat, pos) == BACKSLASH && Get(pat, pos + 1) == BRACE
    ensures Interval(pat, pos + 2) == Bounds(LimitRep(l).low, LimitRep(l).high, pos + |LimitText(l)|)
  {
    hide At, Digits, ValueFrom, Get, Interval;
    var body := match l
      case Exactly(ds) => ds + [BACKSLASH, ECARB]
      case AtLeast(ds) => ds + [COMMA, BACKSLASH, ECARB]
      case Between(ds, es) => ds + ([COMMA] + (es + [BACKSLASH, ECARB]));
    AtSplit(pat, pos, [BACKSLASH, BRACE], body);
    match l
    case Exactly(ds) => ExactlyParsed(pat, pos + 2, ds);
    case AtLeast(ds) => AtLeastParsed(pat, pos + 2, ds);
    case Between(ds, es) => BetweenParsed(pat, pos + 2, ds, es);
  }

  lemma LimitWide(l: Limit)
    requires !l.NoLimit? && LimitOk(l)
    ensures LimitRep(l).Range? && LimitRep(l).low <= LimitRep(l).high && Bounded(LimitRep(l).low, LimitRep(l).high)
  {
    hide ValueFrom;
  }

  lemma LimitParsed(pat: seq<Char>, pos: nat, front: seq<Item>, it: Item, l: Limit, room: int, eof: Char, sed: bool)
    requires Subject(pat) && AllEncodable(front + [it]) && it.Item? && !it.rep.Range?
    requires !l.NoLimit? && LimitOk(l) && At(pat, pos, LimitText(l)) && eof != BACKSLASH
    ensures AllEncodable(front + [it.(rep := LimitRep(l))])
    ensures Rest(pat, pos, front + [it], room, eof, sed) ==
      Rest(pat, pos + |LimitText(l)|, front + [it.(rep := LimitRep(l))], room - 2, eof, sed)
  {
    hide At;
    var acc, rep := front + [it], LimitRep(l);
    Again(front, it, rep);
    LimitWide(l);
    IntervalParsed(pat, pos, l);
    assert acc[|acc| - 1] == it;
    assert Encodable(it) && Encodable(it.(rep := rep));
    assert AllEncodable(Repeated(acc, rep));
    hide Subject, Repeated, AllEncodable, Encodable, Interval, LimitRep, LimitText, LimitOk;
    if room <= 0 {
      NoRoom(pat, pos, acc, room, eof, sed);
      NoRoom(pat, pos + |LimitText(l)|, front + [it.(rep := rep)], room - 2, eof, sed);
    } else {
      assert Element(pat, pos, acc, room, eof, sed) == Change(rep, pos + |LimitText(l)|);
    }
  }

  // ----- expressions are read back -----

  lemma StarsText(k: nat)
    ensures k > 0 ==> Stars(k) != [] && Stars(k)[0] == ASTERISK
    ensures k == 0 ==> Stars(k) == []
  {
  }

  /** What is behind the atom of a way. */
  lemma BehindAtom(pat: seq<Char>, pos: nat, w: Way, next: Char, eof: Char)
    requires At(pat, pos, WayText(w)) && Get(pat, pos + |WayText(w)|) == next
    requires (w.limit.NoLimit? ==> w.more == 0) && (w.stars + w.more > 0 ==> eof != ASTERISK)
    requires !w.limit.NoLimit? ==> eof != BACKSLASH
    ensures At(pat, pos, w.text)
    ensures At(pat, pos + |w.text|, Stars(w.stars) + (LimitText(w.limit) + Stars(w.more)))
    ensures (w.stars == 0 && w.limit.NoLimit? && Ending(next, eof)) || !Ending(Get(pat, pos + |w.text|), eof)
  {
    hide At;
    var tail := Stars(w.stars) + (LimitText(w.limit) + Stars(w.more));
    AtSplit(pat, pos, w.text, tail);
    StarsText(w.stars);
    StarsText(w.more);
    if tail != [] {
      AtRest(pat, pos + |w.text|, tail);
    }
  }

  /** What is behind the atom reads back as the repetition. */
  lemma RepParsed(pat: seq<Char>, pos: nat, front: seq<Item>, w: Way, room: int, eof: Char, sed: bool)
    requires Subject(pat) && AllEncodable(front + [Item(w.atom, Once)]) && LimitOk(w.limit)
    requires At(pat, pos, Stars(w.stars) + (LimitText(w.limit) + Stars(w.more)))
    requires (w.limit.NoLimit? ==> w.more == 0) && (w.stars + w.more > 0 ==> eof != ASTERISK)
    requires !w.limit.NoLimit? ==> eof != BACKSLASH
    ensures AllEncodable(front + [WayItem(w)])
    ensures Rest(pat, pos, front + [Item(w.atom, Once)], room, eof, sed) ==
      Rest(pat, pos + |Stars(w.stars) + (LimitText(w.limit) + Stars(w.more))|, front + [WayItem(w)],
           room - if w.limit.NoLimit? then 0 else 2, eof, sed)
  {
    hide Subject, Rest, AllEncodable, At, LimitOk, LimitText, LimitRep, Stars;
    AtSplit(pat, pos, Stars(w.stars), LimitText(w.limit) + Stars(w.more));
    var q := pos + |Stars(w.stars)|;
    AtSplit(pat, q, LimitText(w.limit), Stars(w.more));
    var it0 := Item(w.atom, Once);
    StarsParsed(pat, pos, front, it0, w.stars, room, eof, sed);
    if w.limit.NoLimit? {
      NothingBehind(w);
    } else {
      LimitWide(w.limit);
      LimitParsed(pat, q, front, it0.(rep := Starry(Once, w.stars)), w.limit, room, eof, sed);
      StarsParsed(pat, q + |LimitText(w.limit)|, front, it0.(rep := LimitRep(w.limit)), w.more, room - 2, eof, sed);
    }
  }

  lemma WayLength(w: Way)
    requires LimitOk(w.limit)
    ensures ItemLength(WayItem(w)) == ItemLength(Item(w.atom, Once)) + if w.limit.NoLimit? then 0 else 2
  {
    hide ValueFrom;
  }

  lemma WayParts(w: Way, first: bool, next: Char, eof: Char)
    requires WayOk(w, first, next, eof)
    ensures AtomSpelled(w.atom, w.text, first, w.stars == 0 && w.limit.NoLimit? && Ending(next, eof), eof)
    ensures WellFormedAtom(w.atom) && LimitOk(w.limit) && (w.limit.NoLimit? ==> w.more == 0)
    ensures (w.stars + w.more > 0 ==> eof != ASTERISK) && (!w.limit.NoLimit? ==> eof != BACKSLASH)
    ensures |WayText(w)| == |w.text| + |Stars(w.stars) + (LimitText(w.limit) + Stars(w.more))|
  {
  }

  lemma WayParsed(pat: seq<Char>, pos: nat, acc: seq<Item>, w: Way, room: int, eof: Char, sed: bool)
    requires Subject(pat) && AllEncodable(acc) && At(pat, pos, WayText(w))
    requires WayOk(w, acc == [], Get(pat, pos + |WayText(w)|), eof)
    ensures AllEncodable(acc + [WayItem(w)])
    ensures Rest(pat, pos, acc, room, eof, sed) ==
      Rest(pat, pos + |WayText(w)|, acc + [WayItem(w)], room - ItemLength(WayItem(w)), eof, sed)
  {
    hide *;
    var next := Get(pat, pos + |WayText(w)|);
    WayParts(w, acc == [], next, eof);
    BehindAtom(pat, pos, w, next, eof);
    WayLength(w);
    var last := w.stars == 0 && w.limit.NoLimit? && Ending(next, eof);
    AtomParsed(pat, pos, acc, w.atom, w.text, last, room, eof, sed);
    RepParsed(pat, pos + |w.text|, acc, w, room - ItemLength(Item(w.atom, Once)), eof, sed);
  }

  lemma NothingBehind(w: Way)
    requires w.limit.NoLimit? && w.more == 0
    ensures LimitText(w.limit) == [] && Stars(w.more) == []
  {
  }

  lemma BehindIs(pat: seq<Char>, pos: nat, ws: seq<Way>, next: Char)
    requires At(pat, pos, Text(ws)) && Get(pat, pos + |Text(ws)|) == next
    ensures Get(pat, pos) == Behind(ws, next)
  {
    if Text(ws) != [] { AtRest(pat, pos, Text(ws)); }
  }

  lemma WaysBounds(ws: seq<Way>, first: bool, next: Char, eof: Char)
    requires WaysOk(ws, first, next, eof)
    ensures forall w :: w in ws ==> LimitOk(w.limit)
    decreases ws
  {
    hide WayText, LimitOk, AtomSpelled;
    if ws != [] { WaysBounds(ws[1..], false, next, eof); }
  }

  lemma FirstWay(ws: seq<Way>, first: bool, next: Char, eof: Char)
    requires ws != [] && WaysOk(ws, first, next, eof) && forall w :: w in ws ==> LimitOk(w.limit)
    ensures WayOk(ws[0], first, Behind(ws[1..], next), eof) && WaysOk(ws[1..], false, next, eof)
    ensures LimitOk(ws[0].limit) && (forall w :: w in ws[1..] ==> LimitOk(w.limit))
    ensures Text(ws) == WayText(ws[0]) + Text(ws[1..])
    ensures Items(ws) == [WayItem(ws[0])] + Items(ws[1..])
    ensures Length(Items(ws)) == ItemLength(WayItem(ws[0])) + Length(Items(ws[1..]))
  {
    hide WayOk, WayText, WayItem, LimitOk, ItemLength, Behind;
    assert ws[0] in ws;
    assert forall w :: w in ws[1..] ==> w in ws;
    assert Items(ws)[1..] == Items(ws[1..]);
  }

  lemma NoWays()
    ensures Text([]) == [] && Items([]) == [] && Length([]) == 0
  {
  }

  /** Whatever way the items are written, the compiler goes on behind them with the items and the room that
      is left; if there is none it reports error 50. */
  lemma {:induction false} WaysParsed(pat: seq<Char>, pos: nat, acc: seq<Item>, ws: seq<Way>, room: int, eof: Char,
        sed: bool)
    requires Subject(pat) && AllEncodable(acc) && At(pat, pos, Text(ws))
    requires WaysOk(ws, acc == [], Get(pat, pos + |Text(ws)|), eof) && forall w :: w in ws ==> LimitOk(w.limit)
    ensures AllEncodable(acc + Items(ws))
    ensures Rest(pat, pos, acc, room, eof, sed) ==
      Rest(pat, pos + |Text(ws)|, acc + Items(ws), room - Length(Items(ws)), eof, sed)
    decreases |ws|
  {
    hide *;
    if ws == [] {
      NoWays();
      assert acc + [] == acc;
    } else {
      var w, rest, next := ws[0], ws[1..], Get(pat, pos + |Text(ws)|);
      FirstWay(ws, acc == [], next, eof);
      var it := WayItem(w);
      AtSplit(pat, pos, WayText(w), Text(rest));
      var p := pos + |WayText(w)|;
      assert p + |Text(rest)| == pos + |Text(ws)|;
      BehindIs(pat, p, rest, next);
      WayParsed(pat, pos, acc, w, room, eof, sed);
      WaysParsed(pat, p, acc + [it], rest, room - ItemLength(it), eof, sed);
      Rejoined(acc, it, Items(rest));
    }
  }

  lemma Rejoined(acc: seq<Item>, it: Item, items: seq<Item>)
    ensures acc + [it] + items == acc + ([it] + items)
    ensures ([it] + items)[0] == it && ([it] + items)[1..] == items
  {
  }

  // ----- whole texts -----

  /** What the compiler makes of a text that is not empty: a circumflex at its beginning is not part of
      the expression. */
  function Compiles(pat: seq<Char>, room: int, eof: Char, sed: bool): Parsed
    requires Subject(pat)
  {
    Rest(pat, Begin(pat), [], room, eof, sed)
  }

  function Begin(pat: seq<Char>): nat {
    if Get(pat, 0) == CARET then 1 else 0
  }

  predicate Ends(pat: seq<Char>, pos: nat, eof: Char, sed: bool) {
    Get(pat, pos) == eof || (Get(pat, pos) == NEWLINE && !sed)
  }

  /** The text from its beginning on is a way to write the items `ws`, with a dollar sign for the end of a
      line behind them if `eol`. */
  predicate Writes(pat: seq<Char>, ws: seq<Way>, eol: bool, eof: Char, sed: bool) {
    var p := Begin(pat) + |Text(ws)|;
    && At(pat, Begin(pat), Text(ws)) && WaysOk(ws, true, Get(pat, p), eof)
    && if eol then Get(pat, p) == DOLLAR && eof != DOLLAR && Ends(pat, p + 1, eof, sed) else Ends(pat, p, eof, sed)
  }

  function Written(ws: seq<Way>, eol: bool): seq<Item>
    requires forall w :: w in ws ==> LimitOk(w.limit)
  {
    Items(ws) + if eol then [Eol] else []
  }

  lemma EndParsed(pat: seq<Char>, pos: nat, acc: seq<Item>, room: int, eof: Char, sed: bool)
    requires Subject(pat) && AllEncodable(acc) && Ends(pat, pos, eof, sed)
    ensures Rest(pat, pos, acc, room, eof, sed) ==
      if room <= 0 then Failed(50) else Done(acc, if Get(pat, pos) == eof then pos + 1 else pos)
  {
  }

  lemma EolParsed(pat: seq<Char>, pos: nat, acc: seq<Item>, room: int, eof: Char, sed: bool)
    requires Subject(pat) && AllEncodable(acc) && Get(pat, pos) == DOLLAR && eof != DOLLAR
    requires Ends(pat, pos + 1, eof, sed)
    ensures AllEncodable(acc + [Eol])
    ensures Rest(pat, pos, acc, room, eof, sed) == Rest(pat, pos + 1, acc + [Eol], room - 1, eof, sed)
  {
    hide Subject;
    assert AllEncodable(acc + [Eol]);
    if room <= 0 {
      NoRoom(pat, pos, acc, room, eof, sed);
      NoRoom(pat, pos + 1, acc + [Eol], room - 1, eof, sed);
    } else {
      assert Element(pat, pos, acc, room, eof, sed) == Push(Eol, pos + 1);
    }
  }

  lemma {:induction false} LengthPush(items: seq<Item>, it: Item)
    ensures Length(items + [it]) == Length(items) + ItemLength(it)
  {
    hide ItemLength;
    if items == [] {
      assert [] + [it] == [it];
    } else {
      LengthPush(items[1..], it);
      assert (items + [it])[1..] == items[1..] + [it];
    }
  }

  /** Any way to write an expression compiles to that expression exactly when the program has room in the
      buffer; otherwise the compiler says so. */
  lemma WrittenParsed(pat: seq<Char>, ws: seq<Way>, eol: bool, room: int, eof: Char, sed: bool)
    requires Subject(pat) && Writes(pat, ws, eol, eof, sed)
    ensures forall w :: w in ws ==> LimitOk(w.limit)
    ensures var items := Written(ws, eol); var p := Begin(pat) + |Text(ws)| + if eol then 1 else 0;
      Compiles(pat, room, eof, sed) ==
      if Length(items) < room then Done(items, if Get(pat, p) == eof then p + 1 else p) else Failed(50)
  {
    hide Length;
    hide Subject, Rest, At, WaysOk, AllEncodable, Ends, Begin, Text, LimitOk, Items, WayItem;
    WaysBounds(ws, true, Get(pat, Begin(pat) + |Text(ws)|), eof);
    NoItems();
    var items := Items(ws);
    var p := Begin(pat) + |Text(ws)|;
    WaysParsed(pat, Begin(pat), [], ws, room, eof, sed);
    assert [] + items == items;
    if eol {
      EolParsed(pat, p, items, room - Length(items), eof, sed);
      EndParsed(pat, p + 1, items + [Eol], room - Length(items) - 1, eof, sed);
      LengthPush(items, Eol);
    } else {
      EndParsed(pat, p, items, room - Length(items), eof, sed);
      assert items + [] == items;
    }
  }

  lemma NoItems()
    ensures AllEncodable([])
  {
  }

  // ----- mistakes -----

  /** The bounds of a range are wrong: `ds` are its first digits, and `es` those behind a comma. */
  predicate Misbounded(pat: seq<Char>, pos: nat, ds: seq<Char>, es: seq<Char>, code: nat) {
    var q := pos + |ds| + 1;
    var c, d := Get(pat, q - 1), Get(pat, q + |es|);
    && AllDigits(ds) && At(pat, pos, ds)
    && if ds == [] || c !in {BACKSLASH, COMMA} then !Digit(c) && code == 16
       else if ValueFrom(0, ds) > 255 then code == 11
       else if c == BACKSLASH then Get(pat, q) != ECARB && code == 45
       else if Get(pat, q) == BACKSLASH then Get(pat, q + 1) != ECARB && code == 45
       else
         && AllDigits(es) && At(pat, q, es)
         && if es == [] || d !in {BACKSLASH, COMMA} then !Digit(d) && code == 16
            else if ValueFrom(0, es) > 255 then code == 11
            else if d == COMMA then code == 44
            else if Get(pat, q + |es| + 1) != ECARB then code == 45
            else ValueFrom(0, es) < ValueFrom(0, ds) && code == 46
  }

  lemma BoundsRefused(pat: seq<Char>, pos: nat, ds: seq<Char>, es: seq<Char>, code: nat)
    requires Misbounded(pat, pos, ds, es, code)
    ensures Interval(pat, pos) == NoBounds(code)
  {
    hide Digits, ValueFrom, At;
    var q := pos + |ds| + 1;
    var c := Get(pat, q - 1);
    if ds == [] || c !in {BACKSLASH, COMMA} {
      DigitsMissing(pat, pos, 0, ds);
    } else {
      DigitsRead(pat, pos, 0, ds);
      if ValueFrom(0, ds) <= 255 && c == COMMA && Get(pat, q) != BACKSLASH {
        if es == [] || Get(pat, q + |es|) !in {BACKSLASH, COMMA} {
          DigitsMissing(pat, q, 0, es);
        } else {
          DigitsRead(pat, q, 0, es);
        }
      }
    }
  }

  /** A class that begins at `pos` is not closed before the text ends or a line does, at `k`. */
  predicate Unclosed(pat: seq<Char>, pos: nat, k: nat) {
    && pos <= k <= |pat| && (forall j :: pos < j < k ==> pat[j] != TEKCARB)
    && (k < |pat| ==> pat[k] == NEWLINE && (pos < k ==> pat[k - 1] != DASH))
  }

  /** The next part of such a class does not close it. */
  lemma UnclosedPart(pat: seq<Char>, first: nat, pos: nat, lc: Char, k: nat)
    requires Subject(pat) && Unclosed(pat, first, k) && first < pos <= k + 1 && lc < 128
    ensures k <= |pat|
    ensures var s := NextPart(pat, pos, lc, Seven(pat, pos - 1));
      s.Bad? || (s.More? && pos <= PartEnd(pos, s.part) <= k && Seven(pat, PartEnd(pos, s.part)) != TEKCARB)
  {
    hide Subject, SevenBit;
  }

  lemma {:induction false} ClassUnclosed(pat: seq<Char>, first: nat, pos: nat, parts: seq<Part>, lc: Char, k: nat)
    requires Subject(pat) && Unclosed(pat, first, k) && first < pos <= k + 1 && SevenBits(parts) && lc < 128
    ensures ClassRest(pat, pos, parts, lc, Seven(pat, pos - 1)) == NoParts
    decreases Left(pat, pos)
  {
    hide SevenBits, SevenBit, Subject, NextPart, Unclosed, PartEnd;
    UnclosedPart(pat, first, pos, lc, k);
    match NextPart(pat, pos, lc, Seven(pat, pos - 1))
    case Bad =>
    case More(part, lc') =>
      PartsPlus(parts, part);
      ClassUnclosed(pat, first, PartEnd(pos, part) + 1, parts + [part], lc', k);
  }

  ghost predicate NeverClosed(pat: seq<Char>, pos: nat) {
    exists k: nat :: Unclosed(pat, pos, k)
  }

  ghost predicate Wrong(pat: seq<Char>, pos: nat, code: nat) {
    exists ds, es :: Misbounded(pat, pos, ds, es, code)
  }

  /** At `pos`, behind the items `acc`, the text has the mistake with number `code`. */
  ghost predicate Mistaken(pat: seq<Char>, pos: nat, acc: seq<Item>, eof: Char, sed: bool, code: nat) {
    var c, d := Get(pat, pos), Get(pat, pos + 1);
    && c != eof
    && (|| (code == 36 && ((c == NEWLINE && sed) || (c == BACKSLASH && d == NEWLINE)))
        || (code == 42 && c == BACKSLASH && d == CLOSE)
        || (code == 25 && c == BACKSLASH && 49 <= d <= 57)
        || (code == 49 && c == BRACKET && NeverClosed(pat, if d == CARET then pos + 2 else pos + 1))
        || (&& c == BACKSLASH && d == BRACE && acc != [] && acc[|acc| - 1].Item? && !acc[|acc| - 1].rep.Range?
            && Wrong(pat, pos + 2, code)))
  }

  lemma ClassMistake(pat: seq<Char>, pos: nat, acc: seq<Item>, room: int, eof: Char, sed: bool)
    requires Subject(pat) && 0 < room && Get(pat, pos) == BRACKET != eof
    requires NeverClosed(pat, if Get(pat, pos + 1) == CARET then pos + 2 else pos + 1)
    ensures Element(pat, pos, acc, room, eof, sed) == Stop(Failed(if room <= 17 then 50 else 49))
  {
    hide Subject, Unclosed, ClassRest;
    var first := if Get(pat, pos + 1) == CARET then pos + 2 else pos + 1;
    var k: nat :| Unclosed(pat, first, k);
    SevenNone();
    InsideText(pat, first, k);
    ClassUnclosed(pat, first, first + 1, [], 0, k);
  }

  lemma InsideText(pat: seq<Char>, pos: nat, k: nat)
    requires Unclosed(pat, pos, k)
    ensures pos <= k
  {
  }

  lemma RangeMistake(pat: seq<Char>, pos: nat, acc: seq<Item>, room: int, eof: Char, sed: bool, code: nat)
    requires Subject(pat) && 0 < room && Get(pat, pos) == BACKSLASH != eof && Get(pat, pos + 1) == BRACE
    requires acc != [] && acc[|acc| - 1].Item? && !acc[|acc| - 1].rep.Range? && Wrong(pat, pos + 2, code)
    ensures Element(pat, pos, acc, room, eof, sed) == Stop(Failed(code)) && code != 49
  {
    hide Subject, Misbounded, Interval;
    var ds, es :| Misbounded(pat, pos + 2, ds, es, code);
    MisCode(pat, pos + 2, ds, es, code);
    BoundsRefused(pat, pos + 2, ds, es, code);
  }

  lemma MistakeReported(pat: seq<Char>, pos: nat, acc: seq<Item>, room: int, eof: Char, sed: bool, code: nat)
    requires Subject(pat) && AllEncodable(acc) && Mistaken(pat, pos, acc, eof, sed, code)
    ensures Rest(pat, pos, acc, room, eof, sed) ==
      if room <= 0 || (code == 49 && room <= 17) then Failed(50) else Failed(code)
  {
    hide Subject, AllEncodable, Wrong, NeverClosed, Interval, ClassRest;
    var c, d := Get(pat, pos), Get(pat, pos + 1);
    if room <= 0 {
      NoRoom(pat, pos, acc, room, eof, sed);
    } else if c == BRACKET {
      ClassMistake(pat, pos, acc, room, eof, sed);
    } else if c == BACKSLASH && d == BRACE {
      RangeMistake(pat, pos, acc, room, eof, sed, code);
    }
  }

  lemma MisCode(pat: seq<Char>, pos: nat, ds: seq<Char>, es: seq<Char>, code: nat)
    requires Misbounded(pat, pos, ds, es, code)
    ensures code in {11, 16, 44, 45, 46}
  {
    hide ValueFrom, At;
  }

  /** Whatever is written before it, the first mistake of a text is the error that the compiler reports, unless
      there is no room for what comes before. */
  lemma MistakeFound(pat: seq<Char>, ws: seq<Way>, room: int, eof: Char, sed: bool, code: nat)
    requires Subject(pat) && At(pat, Begin(pat), Text(ws))
    requires WaysOk(ws, true, Get(pat, Begin(pat) + |Text(ws)|), eof) && forall w :: w in ws ==> LimitOk(w.limit)
    requires Mistaken(pat, Begin(pat) + |Text(ws)|, Items(ws), eof, sed, code)
    ensures Compiles(pat, room, eof, sed) ==
      Failed(if Length(Items(ws)) + (if code == 49 then 17 else 0) < room then code else 50)
  {
    hide Subject, Rest, At, WaysOk, AllEncodable, Begin, Text, LimitOk, Mistaken;
    NoItems();
    WaysParsed(pat, Begin(pat), [], ws, room, eof, sed);
    assert [] + Items(ws) == Items(ws);
    MistakeReported(pat, Begin(pat) + |Text(ws)|, Items(ws), room - Length(Items(ws)), eof, sed, code);
  }

  // ----- items have a meaning -----

  /** Items that were read from inside the text have a meaning; a backslash at its very end would read what is
      behind it. */
  lemma {:induction false} InText(pat: seq<Char>, pos: nat, acc: seq<Item>, room: int, eof: Char, sed: bool)
    requires Subject(pat) && AllEncodable(acc) && (pos <= |pat| ==> WellFormed(acc))
    ensures var r := Rest(pat, pos, acc, room, eof, sed);
      r.Done? ==> r.pos >= pos && (r.pos <= |pat| + 1 ==> WellFormed(r.items))
    decreases Plus(room) + Left(pat, pos)
  {
    hide AllEncodable, Interval, Bracket;
    match Element(pat, pos, acc, room, eof, sed)
    case Stop(result) =>
    case Push(it, p) =>
      PushGood(pat, pos, acc, room, eof, sed);
      InText(pat, p, acc + [it], room - ItemLength(it), eof, sed);
    case Change(rep, p) =>
      ChangeGood(pat, pos, acc, room, eof, sed);
      InText(pat, p, Repeated(acc, rep), room - Extra(acc[|acc| - 1], rep), eof, sed);
  }

  lemma PushGood(pat: seq<Char>, pos: nat, acc: seq<Item>, room: int, eof: Char, sed: bool)
    requires Subject(pat) && AllEncodable(acc) && (pos <= |pat| ==> WellFormed(acc))
    requires Element(pat, pos, acc, room, eof, sed).Push?
    ensures var e := Element(pat, pos, acc, room, eof, sed);
      AllEncodable(acc + [e.item]) && (e.pos <= |pat| ==> WellFormed(acc + [e.item]))
  {
    hide Interval;
  }

  lemma ChangeGood(pat: seq<Char>, pos: nat, acc: seq<Item>, room: int, eof: Char, sed: bool)
    requires Subject(pat) && AllEncodable(acc) && (pos <= |pat| ==> WellFormed(acc))
    requires Element(pat, pos, acc, room, eof, sed).Change?
    ensures var e := Element(pat, pos, acc, room, eof, sed);
      AllEncodable(Repeated(acc, e.rep)) && (e.pos <= |pat| ==> WellFormed(Repeated(acc, e.rep)))
  {
    hide Interval;
    assert Encodable(acc[|acc| - 1]);
  }
}
