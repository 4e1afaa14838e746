/** The way from a text through the compiler and the matcher to what the text means; and one text for every
    expression. */
module RegexText {
  import opened RegexSyntax
  import opened RegexProgram
  import opened RegexMatcher
  import opened RegexCompiler
  import opened RegexSpelling

  // ----- any text -----

  /** Any text is compiled into a buffer of `endbuf + 1` bytes and, if that goes well, run from `p1` on: the
      answer is that of the expression which the text stands for. The text must not end in a backslash that
      nothing follows, for then the compiler reads what is behind it. */
  method MatchText(pat: seq<Char>, endbuf: nat, eof: Char, sed: bool, s: seq<Char>, p1: nat)
    returns (r: Outcome, ok: bool, loc1: nat, loc2: nat)
    requires Subject(pat) && Subject(s) && p1 <= |s| && Get(pat, 0) !in {eof, NEWLINE}
    requires var p := Compiles(pat, endbuf, eof, sed); p.Done? ==> p.pos <= |pat| + 1
    ensures var p := Compiles(pat, endbuf, eof, sed);
      && (r.Compiled? <==> p.Done?)
      && (p.Done? ==> Meaning(p.items, s, p1, Get(pat, 0) == CARET, ok, loc1, loc2))
      && (p.Failed? ==> r == Error(p.code)) && (p.Outside? ==> r == NotModelled)
  {
    hide Rest, Subject, EncodeItems, Meaning, Greedy, WellFormed, AllEncodable;
    NoItems();
    BeginGood(pat);
    InText(pat, Begin(pat), [], endbuf, eof, sed);
    var expbuf := new bv8[endbuf + 1];
    var c := new Compiler(pat, expbuf);
    r := c.Compile(0, endbuf, eof, sed);
    ok, loc1, loc2 := false, 0, 0;
    if r.Compiled? {
      ghost var items := Compiles(pat, endbuf, eof, sed).items;
      var m := new Matcher(expbuf[..], s);
      assert Encode(items) <= m.prog[0..] by { assert expbuf[..][..r.end] == expbuf[0..r.end]; }
      ok := m.Step(p1, 0, c.circf, items);
      loc1, loc2 := m.loc1, m.loc2;
      StepMeaning(m, items, p1, c.circf, ok, loc1, loc2);
    }
  }

  lemma BeginGood(pat: seq<Char>)
    ensures WellFormed([])
  {
  }

  /** A text that is a way to write an expression, whichever, finds a match from `p1` on exactly when the
      expression has one there, provided its program fits; otherwise the error is 50. */
  method MatchWritten(pat: seq<Char>, ghost ws: seq<Way>, ghost eol: bool, endbuf: nat, eof: Char, sed: bool,
        s: seq<Char>, p1: nat)
    returns (r: Outcome, ok: bool, loc1: nat, loc2: nat)
    requires Subject(pat) && Subject(s) && p1 <= |s| && Get(pat, 0) !in {eof, NEWLINE}
    requires Writes(pat, ws, eol, eof, sed) && forall w :: w in ws ==> LimitOk(w.limit)
    ensures if Length(Written(ws, eol)) < endbuf then
              r.Compiled? && Meaning(Written(ws, eol), s, p1, Get(pat, 0) == CARET, ok, loc1, loc2)
            else r == Error(50)
  {
    hide Subject, Compiles, Meaning, Text, WaysOk, LimitOk;
    WrittenParsed(pat, ws, eol, endbuf, eof, sed);
    EndInText(pat, ws, eol, eof, sed);
    hide Writes, Written, Length;
    r, ok, loc1, loc2 := MatchText(pat, endbuf, eof, sed, s, p1);
  }

  lemma EndInText(pat: seq<Char>, ws: seq<Way>, eol: bool, eof: Char, sed: bool)
    requires Subject(pat) && Writes(pat, ws, eol, eof, sed)
    ensures Begin(pat) + |Text(ws)| + (if eol then 1 else 0) <= |pat|
  {
    hide WaysOk, Text;
  }

  // ----- printing -----

  /** A character that may end the text of an expression: it has no meaning of its own there. */
  predicate Delimiter(eof: Char) {
    && eof < 128
    && eof !in {CARET, DOT, ASTERISK, DOLLAR, BRACKET, BACKSLASH, OPEN, CLOSE, BRACE, NEWLINE, LETTER_N}
    && !(49 <= eof <= 57)
  }

  function AtomText(a: Atom, eof: Char): seq<Char> {
    match a
    case Lit(c) =>
      if c == NEWLINE then [BACKSLASH, LETTER_N]
      else if c in {CARET, DOT, ASTERISK, DOLLAR, BRACKET, BACKSLASH, eof} then [BACKSLASH, c]
      else [c]
    case Any => [DOT]
    case Class(neg, parts) => ClassText(neg, parts)
  }

  function Numeral(n: nat): Char
    requires n < 10
  {
    48 + n as Char
  }

  function Decimal(n: nat): seq<Char>
    requires n < 256
  {
    if n < 10 then [Numeral(n)]
    else if n < 100 then [Numeral(n / 10), Numeral(n % 10)]
    else [Numeral(n / 100), Numeral(n / 10 % 10), Numeral(n % 10)]
  }

  function LimitOf(r: Rep): Limit
    requires r.Range? ==> Bounded(r.low, r.high)
  {
    if !r.Range? then NoLimit
    else if r.high >= 255 then AtLeast(Decimal(r.low))
    else if r.low == r.high then Exactly(Decimal(r.low))
    else if r.low < 255 then Between(Decimal(r.low), Decimal(r.high))
    else NoLimit
  }

  /** One way to write an item. */
  function Plain(it: Item, eof: Char): Way
    requires WellFormedItem(it) && it.Item?
  {
    Way(it.atom, AtomText(it.atom, eof), if it.rep.Star? then 1 else 0, LimitOf(it.rep), 0)
  }

  /** Items that have a text. */
  predicate Expressible(items: seq<Item>) {
    forall i :: 0 <= i < |items| ==> items[i].Item? && WellFormedItem(items[i]) && Writable(items[i].atom)
  }

  function Print(items: seq<Item>, eof: Char): seq<Way>
    requires Expressible(items)
  {
    if items == [] then [] else [Plain(items[0], eof)] + Print(items[1..], eof)
  }

  /** The text of a whole expression, with the character that ends it (the end of the text, if that
      is 0). */
  function WholeText(circf: bool, items: seq<Item>, eol: bool, eof: Char): seq<Char>
    requires Expressible(items)
  {
    (if circf then [CARET] else []) + Text(Print(items, eof))
    + Tail(eol, eof)
  }

  // ----- what was printed is a way to write it -----

  lemma NumeralIs(d: nat)
    requires d < 10
    ensures Digit(Numeral(d)) && (Numeral(d) - 48) as int == d && 1 <= Numeral(d) < 128
  {
  }

  lemma DecimalValue(n: nat)
    requires n < 256
    ensures Decimal(n) != [] && AllDigits(Decimal(n)) && ValueFrom(0, Decimal(n)) == n
  {
    hide Digit, Numeral;
    if n < 10 {
      NumeralIs(n);
      ValueOne(0, n);
    } else if n < 100 {
      NumeralIs(n / 10);
      NumeralIs(n % 10);
      assert Decimal(n)[1..] == [Numeral(n % 10)];
      ValueOne(n / 10, n % 10);
    } else {
      NumeralIs(n / 100);
      NumeralIs(n / 10 % 10);
      NumeralIs(n % 10);
      assert Decimal(n)[1..] == [Numeral(n / 10 % 10), Numeral(n % 10)];
      assert Decimal(n)[1..][1..] == [Numeral(n % 10)];
      ValueOne(n / 10, n % 10);
    }
  }

  lemma ValueOne(n: nat, d: nat)
    requires d < 10
    ensures AllDigits([Numeral(d)]) && ValueFrom(n, [Numeral(d)]) == 10 * n + d
  {
    NumeralIs(d);
    assert [Numeral(d)][1..] == [];
  }

  lemma LimitIs(r: Rep)
    requires r.Range? ==> r.low <= r.high && Bounded(r.low, r.high)
    ensures LimitOk(LimitOf(r)) && (LimitOf(r).NoLimit? <==> !r.Range?)
    ensures r.Range? ==> LimitRep(LimitOf(r)) == r
  {
    hide Decimal, ValueFrom;
    if r.Range? {
      DecimalValue(r.low);
      if r.high < 255 { DecimalValue(r.high); }
    }
  }

  lemma AtomIs(a: Atom, first: bool, last: bool, eof: Char)
    requires WellFormedAtom(a) && Writable(a) && Delimiter(eof)
    ensures AtomSpelled(a, AtomText(a, eof), first, last, eof) && AtomText(a, eof)[0] !in {eof, NEWLINE, CARET}
  {
  }

  lemma PlainIs(it: Item, first: bool, next: Char, eof: Char)
    requires WellFormedItem(it) && it.Item? && Writable(it.atom) && Delimiter(eof)
    ensures WayOk(Plain(it, eof), first, next, eof) && WayItem(Plain(it, eof)) == it
    ensures WayText(Plain(it, eof)) != [] && WayText(Plain(it, eof))[0] !in {eof, NEWLINE, CARET}
  {
    LimitIs(it.rep);
    var w := Plain(it, eof);
    AtomIs(it.atom, first, w.stars == 0 && w.limit.NoLimit? && Ending(next, eof), eof);
    hide AtomSpelled, AtomText, Writable, LimitOk, LimitRep, LimitOf;
  }

  lemma {:induction false} PrintIs(items: seq<Item>, first: bool, next: Char, eof: Char)
    requires Expressible(items) && Delimiter(eof)
    ensures WaysOk(Print(items, eof), first, next, eof) && forall w :: w in Print(items, eof) ==> LimitOk(w.limit)
    ensures Items(Print(items, eof)) == items
    ensures items == [] ==> Text(Print(items, eof)) == []
    ensures items != [] ==>
      Text(Print(items, eof)) != [] && Text(Print(items, eof))[0] !in {eof, NEWLINE, CARET}
    decreases |items|
  {
    hide WellFormedItem, Writable, Delimiter, Plain, WayItem, WayText, LimitOk;
    if items != [] {
      var rest := items[1..];
      PlainIs(items[0], first, Behind(Print(rest, eof), next), eof);
      LimitPart(Plain(items[0], eof), first, Behind(Print(rest, eof), next), eof);
      PrintIs(rest, false, next, eof);
      assert Print(items, eof)[1..] == Print(rest, eof);
    }
  }

  lemma LimitPart(w: Way, first: bool, next: Char, eof: Char)
    requires WayOk(w, first, next, eof)
    ensures LimitOk(w.limit)
  {
  }

  lemma SubjectJoin(u: seq<Char>, v: seq<Char>)
    requires Subject(u) && Subject(v)
    ensures Subject(u + v)
  {
  }

  lemma {:induction false} PartsSubject(parts: seq<Part>, lc: Char)
    requires Spelled(parts, lc)
    ensures Subject(PartsText(parts))
  {
    if parts != [] {
      PartsSubject(parts[1..], LastOf(parts[0]));
      SubjectJoin(PartText(parts[0]), PartsText(parts[1..]));
    }
  }

  lemma DecimalSubject(n: nat)
    requires n < 256
    ensures Subject(Decimal(n))
  {
    hide Numeral;
    forall d: nat | d < 10 ensures 1 <= Numeral(d) < 128 { NumeralIs(d); }
  }

  lemma LimitSubject(r: Rep)
    requires r.Range? ==> Bounded(r.low, r.high)
    ensures Subject(LimitText(LimitOf(r)))
  {
    hide Decimal;
    if r.Range? {
      DecimalSubject(r.low);
      if r.high < 255 { DecimalSubject(r.high); }
    }
  }

  lemma AtomSubject(a: Atom, eof: Char)
    requires Writable(a) && Delimiter(eof)
    ensures Subject(AtomText(a, eof))
  {
    hide Spelled, PartsText, PartText;
    if a.Class? {
      PartsSubject(a.parts, 0);
      var head := [BRACKET] + if a.neg then [CARET] else [];
      SubjectJoin(head, PartsText(a.parts));
      SubjectJoin(head + PartsText(a.parts), [TEKCARB]);
    }
  }

  lemma PlainSubject(it: Item, eof: Char)
    requires WellFormedItem(it) && it.Item? && Writable(it.atom) && Delimiter(eof)
    ensures Subject(WayText(Plain(it, eof)))
  {
    AtomSubject(it.atom, eof);
    LimitSubject(it.rep);
    hide AtomText, Writable, LimitText, LimitOf;
    var w := Plain(it, eof);
    assert Subject(Stars(0)) && Subject(Stars(1)) by { assert Stars(1) == [ASTERISK] + Stars(0); }
    hide Subject;
    SubjectJoin(LimitText(w.limit), Stars(w.more));
    SubjectJoin(Stars(w.stars), LimitText(w.limit) + Stars(w.more));
    SubjectJoin(w.text, Stars(w.stars) + (LimitText(w.limit) + Stars(w.more)));
  }

  lemma {:induction false} PrintSubject(items: seq<Item>, eof: Char)
    requires Expressible(items) && Delimiter(eof)
    ensures Subject(Text(Print(items, eof)))
    decreases |items|
  {
    hide WellFormedItem, Writable, Delimiter, Plain, WayText;
    if items != [] {
      PlainSubject(items[0], eof);
      PrintSubject(items[1..], eof);
      assert Print(items, eof)[1..] == Print(items[1..], eof);
      SubjectJoin(WayText(Plain(items[0], eof)), Text(Print(items[1..], eof)));
    }
  }

  function Tail(eol: bool, eof: Char): seq<Char> {
    (if eol then [DOLLAR] else []) + if eof == 0 then [] else [eof]
  }

  /** Where the parts of the text stand. */
  lemma Placed(u: seq<Char>, v: seq<Char>, eol: bool, eof: Char)
    requires eof !in {DOLLAR, NEWLINE, CARET} && u in {[], [CARET]} && (u == [] && v == [] ==> eol)
    requires v != [] ==> v[0] !in {eof, NEWLINE, CARET}
    ensures var pat := u + v + Tail(eol, eof); var p := |u| + |v|;
      && Get(pat, 0) !in {eof, NEWLINE} && (Get(pat, 0) == CARET <==> u == [CARET])
      && At(pat, |u|, v) && Get(pat, p) == Get(Tail(eol, eof), 0)
      && (if eol then Get(pat, p) == DOLLAR && Get(pat, p + 1) == eof else Get(pat, p) == eof)
  {
    var tail := Tail(eol, eof);
    var pat := u + v + tail;
    assert pat[|u|..|u| + |v|] == v;
    TailAt(u + v, tail);
    assert |tail| == (if eol then 1 else 0) + if eof == 0 then 0 else 1;
    assert Get(tail, if eol then 1 else 0) == eof;
    assert u != [] ==> pat[0] == u[0];
    assert u == [] && v != [] ==> pat[0] == v[0];
  }

  lemma WholeIs(circf: bool, items: seq<Item>, eol: bool, eof: Char)
    requires Expressible(items) && Delimiter(eof) && (circf || eol || items != [])
    ensures var u := if circf then [CARET] else [];
      && WholeText(circf, items, eol, eof) == u + Text(Print(items, eof)) + Tail(eol, eof)
      && Subject(u) && Subject(Tail(eol, eof)) && eof !in {DOLLAR, NEWLINE, CARET}
  {
    hide Print, Text, Expressible;
  }

  lemma WritesIs(pat: seq<Char>, ws: seq<Way>, eol: bool, eof: Char, sed: bool)
    requires var p := Begin(pat) + |Text(ws)|;
      && At(pat, Begin(pat), Text(ws)) && WaysOk(ws, true, Get(pat, p), eof) && eof != DOLLAR
      && if eol then Get(pat, p) == DOLLAR && Get(pat, p + 1) == eof else Get(pat, p) == eof
    ensures Writes(pat, ws, eol, eof, sed)
  {
  }

  lemma BeginIs(pat: seq<Char>)
    ensures Begin(pat) == if Get(pat, 0) == CARET then 1 else 0
  {
  }

  lemma WrittenIs(ws: seq<Way>, eol: bool)
    requires forall w :: w in ws ==> LimitOk(w.limit)
    ensures Written(ws, eol) == Items(ws) + if eol then [Eol] else []
  {
  }

  /** Every expression whose classes can be spelled has a text: what is printed is a way to write it. */
  lemma Printed(circf: bool, items: seq<Item>, eol: bool, eof: Char, sed: bool)
    requires Expressible(items) && Delimiter(eof) && (circf || eol || items != [])
    ensures var pat := WholeText(circf, items, eol, eof); var ws := Print(items, eof);
      && Subject(pat) && Get(pat, 0) !in {eof, NEWLINE} && (Get(pat, 0) == CARET <==> circf)
      && Writes(pat, ws, eol, eof, sed) && (forall w :: w in ws ==> LimitOk(w.limit))
      && Written(ws, eol) == items + if eol then [Eol] else []
  {
    hide *;
    var pat, ws := WholeText(circf, items, eol, eof), Print(items, eof);
    var u, v := if circf then [CARET] else [], Text(ws);
    PrintSubject(items, eof);
    PrintIs(items, true, Get(Tail(eol, eof), 0), eof);
    WholeIs(circf, items, eol, eof);
    SubjectJoin(u, v);
    SubjectJoin(u + v, Tail(eol, eof));
    Placed(u, v, eol, eof);
    BeginIs(pat);
    WritesIs(pat, ws, eol, eof, sed);
    WrittenIs(ws, eol);
  }

  lemma TailAt(u: seq<Char>, tail: seq<Char>)
    ensures forall i :: 0 <= i <= |tail| ==> Get(u + tail, |u| + i) == Get(tail, i)
  {
  }

  /** From the text of an expression to the answer about a subject: printing an expression, compiling the text
      and running the program finds a match from `p1` on exactly when the expression has one there. */
  method Match(circf: bool, items: seq<Item>, eol: bool, eof: Char, s: seq<Char>, p1: nat)
    returns (ok: bool, loc1: nat, loc2: nat)
    requires Expressible(items) && Delimiter(eof) && (circf || eol || items != [])
    requires Subject(s) && p1 <= |s|
    ensures Meaning(items + if eol then [Eol] else [], s, p1, circf, ok, loc1, loc2)
  {
    hide Text, Print, WholeText, Expressible, Subject, Meaning, Delimiter, Writes, Written, LimitOk;
    var pat := WholeText(circf, items, eol, eof);
    ghost var ws := Print(items, eof);
    Printed(circf, items, eol, eof, false);
    var endbuf := Length(items + if eol then [Eol] else []) + 1;
    var r;
    r, ok, loc1, loc2 := MatchWritten(pat, ws, eol, endbuf, eof, false, s, p1);
  }
}
