/** Simple regular expressions and what it means for them to match.

    Characters are the bytes 1..127; a subject is a sequence of them, and 0 stands for its
    end. */
module RegexSyntax {

  type Char = bv8

  /** A part of a character class: one character, or all characters from `lo` to `hi` (just `hi`
      when the bounds are reversed). */
  datatype Part = One(c: Char) | Span(lo: Char, hi: Char)

  datatype Atom = Lit(c: Char) | Any | Class(neg: bool, parts: seq<Part>)

  datatype Rep = Once | Star | Range(low: nat, high: nat)

  datatype Item = Item(atom: Atom, rep: Rep) | Eol

  predicate InPart(p: Part, c: Char) {
    match p
    case One(d) => c == d
    case Span(lo, hi) => lo <= c <= hi || c == hi
  }

  predicate InParts(ps: seq<Part>, c: Char) {
    exists i :: 0 <= i < |ps| && InPart(ps[i], c)
  }

  /** Atom `a` matches character `c`; nothing matches the end of the subject. */
  predicate Accepts(a: Atom, c: Char) {
    c != 0 && match a
              case Lit(d) => c == d
              case Any => true
              case Class(neg, ps) => InParts(ps, c) != neg
  }

  predicate Subject(s: seq<Char>) {
    forall c :: c in s ==> 1 <= c < 128
  }

  // ----- meaning -----

  predicate Allowed(r: Rep, k: nat) {
    match r
    case Once => k == 1
    case Star => true
    case Range(low, high) => low <= k <= high
  }

  /** The `k` characters from position `i` on are all accepted. */
  predicate AcceptsRun(a: Atom, s: seq<Char>, i: nat, k: nat) {
    i + k <= |s| && forall j :: i <= j < i + k ==> Accepts(a, s[j])
  }

  /** Item `it` takes the `k` characters from position `i` on. */
  predicate Takes(it: Item, s: seq<Char>, i: nat, k: nat) {
    match it
    case Item(a, r) => Allowed(r, k) && AcceptsRun(a, s, i, k)
    case Eol => k == 0 && i == |s|
  }

  /** Item by item, `ks` says how many characters each one takes; together they take s[i..e]. */
  predicate Matches(items: seq<Item>, s: seq<Char>, i: nat, ks: seq<nat>, e: nat) {
    if items == [] then ks == [] && i == e && e <= |s|
    else
      && |ks| == |items| && Takes(items[0], s, i, ks[0])
      && Matches(items[1..], s, i + ks[0], ks[1..], e)
  }

  /** Earlier items take as much as they can: `ks` is not below `ls` in lexicographic order. */
  predicate Greedier(ks: seq<nat>, ls: seq<nat>) {
    if ks == [] || ls == [] then true
    else ks[0] > ls[0] || (ks[0] == ls[0] && Greedier(ks[1..], ls[1..]))
  }

  // ----- the first match in greedy order -----

  datatype Found = NoMatch | End(e: nat)

  /** How many characters from `i` on, but no more than `max`, are accepted. */
  function Reach(a: Atom, s: seq<Char>, i: nat, max: nat): (k: nat)
    requires i <= |s|
    ensures k <= max && AcceptsRun(a, s, i, k)
    ensures k < max ==> i + k == |s| || !Accepts(a, s[i + k])
    decreases max
  {
    if max == 0 || i == |s| || !Accepts(a, s[i]) then 0 else 1 + Reach(a, s, i + 1, max - 1)
  }

  function Greedy(items: seq<Item>, s: seq<Char>, i: nat): Found
    requires i <= |s|
    decreases items, 1, 0
  {
    if items == [] then End(i)
    else match items[0]
      case Eol => if i == |s| then Greedy(items[1..], s, i) else NoMatch
      case Item(a, Once) => if i < |s| && Accepts(a, s[i]) then Greedy(items[1..], s, i + 1) else NoMatch
      case Item(a, Star) => Backtrack(items, s, i, i + Reach(a, s, i, |s| - i))
      case Item(a, Range(low, high)) =>
        if Reach(a, s, i, low) < low || high < low then NoMatch
        else Backtrack(items, s, i + low, i + low + Reach(a, s, i + low, high - low))
  }

  /** Tries the rest of the items from position `hi` down to `lo`. */
  function Backtrack(items: seq<Item>, s: seq<Char>, lo: nat, hi: nat): Found
    requires items != [] && lo <= hi <= |s|
    decreases items, 0, hi
  {
    var f := Greedy(items[1..], s, hi);
    if f.End? then f else if hi == lo then NoMatch else Backtrack(items, s, lo, hi - 1)
  }

  /** No match from `i` on is greedier than `ks`. */
  ghost predicate Top(items: seq<Item>, s: seq<Char>, i: nat, ks: seq<nat>) {
    forall ls, e :: Matches(items, s, i, ls, e) ==> Greedier(ks, ls)
  }

  /** What the greedy search promises from position `i`. */
  ghost predicate Best(items: seq<Item>, s: seq<Char>, i: nat, f: Found) {
    match f
    case NoMatch => forall ks, e :: !Matches(items, s, i, ks, e)
    case End(e) => exists ks :: Matches(items, s, i, ks, e) && Top(items, s, i, ks)
  }

  lemma AcceptsPrefix(a: Atom, s: seq<Char>, i: nat, k: nat, j: nat)
    requires AcceptsRun(a, s, i, k) && j <= k
    ensures AcceptsRun(a, s, i, j)
  {
  }

  /** A run cannot be longer than the reach, up to the bound. */
  lemma ReachMost(a: Atom, s: seq<Char>, i: nat, max: nat, k: nat)
    requires i <= |s| && AcceptsRun(a, s, i, k) && k <= max
    ensures k <= Reach(a, s, i, max)
  {
    var m := Reach(a, s, i, max);
  }

  /** The greedy search finds a match exactly when there is one, and then the one whose items
      take as much as they can, first things first. */
  lemma {:induction false} GreedyCorrect(items: seq<Item>, s: seq<Char>, i: nat)
    requires i <= |s|
    ensures Best(items, s, i, Greedy(items, s, i))
    decreases items, 2, 0
  {
    if items == [] {
      EmptyBest(s, i);
    } else if items[0].Eol? {
      if i == |s| {
        GreedyCorrect(items[1..], s, i);
        OnlyCount(items, s, i, 0);
      }
    } else if items[0].rep.Once? {
      if i < |s| && Accepts(items[0].atom, s[i]) {
        GreedyCorrect(items[1..], s, i + 1);
        OnlyCount(items, s, i, 1);
      }
    } else if items[0].rep.Star? {
      StarCorrect(items, s, i);
    } else {
      RangeCorrect(items, s, i);
    }
  }

  lemma EmptyBest(s: seq<Char>, i: nat)
    requires i <= |s|
    ensures Best([], s, i, End(i))
  {
    assert Matches([], s, i, [], i) && Top([], s, i, []);
  }

  lemma MatchesLength(items: seq<Item>, s: seq<Char>, i: nat, ks: seq<nat>, e: nat)
    requires Matches(items, s, i, ks, e)
    ensures |ks| == |items|
  {
  }

  /** A best match of the rest, put behind the largest possible first count, is best. */
  lemma ConsMatch(items: seq<Item>, s: seq<Char>, i: nat, k: nat, ks: seq<nat>, e: nat)
    requires items != [] && Takes(items[0], s, i, k)
    requires Matches(items[1..], s, i + k, ks, e) && Top(items[1..], s, i + k, ks)
    requires forall ls, e' :: Matches(items, s, i, ls, e') ==> ls[0] <= k
    ensures Best(items, s, i, End(e))
  {
    var ks' := [k] + ks;
    assert ks'[1..] == ks;
    MatchesLength(items[1..], s, i + k, ks, e);
    assert Matches(items, s, i, ks', e);
    forall ls, e' | Matches(items, s, i, ls, e') ensures Greedier(ks', ls) {
      assert ls[0] == k ==> Matches(items[1..], s, i + k, ls[1..], e');
    }
    assert Top(items, s, i, ks');
  }

  /** The first item can take only `k` characters, so the rest decides. */
  lemma OnlyCount(items: seq<Item>, s: seq<Char>, i: nat, k: nat)
    requires items != [] && i + k <= |s| && Best(items[1..], s, i + k, Greedy(items[1..], s, i + k))
    requires Takes(items[0], s, i, k) && forall n: nat :: Takes(items[0], s, i, n) ==> n == k
    ensures Best(items, s, i, Greedy(items[1..], s, i + k))
  {
    var f := Greedy(items[1..], s, i + k);
    if f.End? {
      var ks :| Matches(items[1..], s, i + k, ks, f.e) && Top(items[1..], s, i + k, ks);
      ConsMatch(items, s, i, k, ks, f.e);
    }
  }

  /** Backtracking from the largest count `hi` down to `lo`, with everything above `k` already
      ruled out. */
  lemma {:induction false} BacktrackCorrect(items: seq<Item>, s: seq<Char>, i: nat, lo: nat, hi: nat, k: nat)
    requires items != [] && lo <= k <= hi && i + hi <= |s|
    requires forall n: nat :: lo <= n <= hi ==> Takes(items[0], s, i, n)
    requires forall ls, e :: Matches(items, s, i, ls, e) ==> lo <= ls[0] <= k
    ensures Best(items, s, i, Backtrack(items, s, i + lo, i + k))
    decreases items, 0, k
  {
    GreedyCorrect(items[1..], s, i + k);
    var f := Greedy(items[1..], s, i + k);
    if f.End? {
      var ks :| Matches(items[1..], s, i + k, ks, f.e) && Top(items[1..], s, i + k, ks);
      ConsMatch(items, s, i, k, ks, f.e);
    } else {
      forall ls, e | Matches(items, s, i, ls, e) ensures ls[0] != k {
        assert ls[0] == k ==> Matches(items[1..], s, i + k, ls[1..], e);
      }
      if k > lo { BacktrackCorrect(items, s, i, lo, hi, k - 1); }
    }
  }

  lemma {:induction false} StarCorrect(items: seq<Item>, s: seq<Char>, i: nat)
    requires i <= |s| && items != [] && items[0].Item? && items[0].rep.Star?
    ensures Best(items, s, i, Greedy(items, s, i))
    decreases items, 1
  {
    var a := items[0].atom;
    var m := Reach(a, s, i, |s| - i);
    forall ks, e | Matches(items, s, i, ks, e) ensures 0 <= ks[0] <= m { ReachMost(a, s, i, |s| - i, ks[0]); }
    forall n: nat | n <= m ensures Takes(items[0], s, i, n) { AcceptsPrefix(a, s, i, m, n); }
    BacktrackCorrect(items, s, i, 0, m, m);
  }

  lemma {:induction false} RangeCorrect(items: seq<Item>, s: seq<Char>, i: nat)
    requires i <= |s| && items != [] && items[0].Item? && items[0].rep.Range?
    ensures Best(items, s, i, Greedy(items, s, i))
    decreases items, 1
  {
    var a, low, high := items[0].atom, items[0].rep.low, items[0].rep.high;
    forall ks, e | Matches(items, s, i, ks, e) ensures low <= ks[0] && Reach(a, s, i, low) == low && low <= high {
      AcceptsPrefix(a, s, i, ks[0], low);
      ReachMost(a, s, i, low, low);
    }
    if Reach(a, s, i, low) == low && low <= high {
      var m := Reach(a, s, i + low, high - low);
      forall ks, e | Matches(items, s, i, ks, e) ensures low <= ks[0] <= low + m {
        assert AcceptsRun(a, s, i + low, ks[0] - low);
        ReachMost(a, s, i + low, high - low, ks[0] - low);
      }
      assert AcceptsRun(a, s, i, low + m);
      forall n: nat | low <= n <= low + m ensures Takes(items[0], s, i, n) { AcceptsPrefix(a, s, i, low + m, n); }
      BacktrackCorrect(items, s, i, low, low + m, low + m);
    }
  }
}
