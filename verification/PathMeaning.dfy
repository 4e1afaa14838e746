/** What paths mean, name by name: plain names, mount points, symbolic links, `..`; and paths put together. */
module PathMeaning {
  import opened Pathnames
  import opened PathLookup

  // ----- one name -----

  /** Name `c` begins a path, and `rest` is behind it. */
  predicate IsName(c: Path, rest: Path) {
    c != [] && |c| <= MAXNAMLEN && '/' !in c && (rest == [] || rest[0] == '/')
  }

  lemma {:induction false} NameOf(c: Path, rest: Path)
    requires '/' !in c && (rest == [] || rest[0] == '/')
    ensures Component(c + rest) == c && (c + rest)[|c|..] == rest
  {
    if c == [] {
      assert [] + rest == rest;
    } else {
      NameOf(c[1..], rest);
      assert (c + rest)[1..] == c[1..] + rest;
      assert c[0] in c;
    }
  }

  /** What is found at the end of a path. */
  function Ended(wish: Wish, vp: Vnode, cvp: Vnode, c: Path): Outcome {
    if wish.dir && vp == cvp then Failed(EINVAL)
    else Found(if wish.dir then vp else 0, if wish.comp then cvp else 0, c)
  }

  /** A link is gone through, unless it is at the end of the path and the caller wants the link itself. */
  predicate Through(w: World, wish: Wish, cvp: Vnode, rest: Path) {
    w.islink(cvp) && (wish.follow || rest != [])
  }

  lemma OnwardIs(w: World, wish: Wish, vp: Vnode, cvp: Vnode, c: Path, rest: Path, nlink: nat)
    requires Proper(w) && vp != 0 && cvp != 0 && nlink <= MAXLINK
    ensures Onward(w, wish, vp, cvp, c, rest, nlink) ==
      if rest == [] then Ended(wish, vp, cvp, c) else Next(w, wish, cvp, SkipSlash(rest), nlink)
  {
    hide Next, SkipSlash;
  }

  lemma Mounted(w: World, cvp: Vnode, v: Vnode)
    requires Proper(w) && cvp != 0 && !w.mounted(v)
    requires if w.mounted(cvp) then w.vfsroot(cvp) == Yes(v) else v == cvp
    ensures v != 0 && Descend(w, cvp) == Yes(v)
  {
  }

  /** What name `c` in directory `vp` leads to when it is there and no link: the vnode found, or the root of the
      file system that is mounted on it, from which the path goes on. */
  lemma PlainName(w: World, wish: Wish, vp: Vnode, c: Path, rest: Path, nlink: nat, cvp: Vnode, v: Vnode)
    requires Proper(w) && vp != 0 && nlink <= MAXLINK && w.isdir(vp) && IsName(c, rest) && c != ".."
    requires w.lookup(vp, c) == Yes(cvp) && !Through(w, wish, cvp, rest) && !w.mounted(v)
    requires if w.mounted(cvp) then w.vfsroot(cvp) == Yes(v) else v == cvp
    ensures v != 0
    ensures Next(w, wish, vp, c + rest, nlink) ==
      if rest == [] then Ended(wish, vp, v, c) else Next(w, wish, v, SkipSlash(rest), nlink)
  {
    NameOf(c, rest);
    Mounted(w, cvp, v);
    NextCases(w, wish, vp, c + rest, nlink);
    NamedCases(w, wish, vp, c, rest, nlink);
    hide Component, SkipSlash, Begin, Next, Named, Onward, Descend, Proper;
    OnwardIs(w, wish, vp, v, c, rest, nlink);
  }

  /** When it is not there the parent is found, if it is asked for and may be searched. */
  lemma NoName(w: World, wish: Wish, vp: Vnode, c: Path, rest: Path, nlink: nat, error: int)
    requires Proper(w) && vp != 0 && nlink <= MAXLINK && w.isdir(vp) && IsName(c, rest) && c != ".."
    requires w.lookup(vp, c) == No(error)
    ensures Next(w, wish, vp, c + rest, nlink) ==
      if rest == [] && wish.dir && error != EACCES then Found(vp, 0, c) else Failed(error)
  {
    NameOf(c, rest);
    hide Component, SkipSlash, Begin, Onward;
  }

  /** When it is a link, the path means what the link's text with the rest behind it means from the same
      directory, or from the root; but no more than twenty links are followed, and no path becomes too
      long. */
  lemma LinkName(w: World, wish: Wish, vp: Vnode, c: Path, rest: Path, nlink: nat, cvp: Vnode)
    requires Proper(w) && vp != 0 && nlink <= MAXLINK && w.isdir(vp) && IsName(c, rest) && c != ".."
    requires w.lookup(vp, c) == Yes(cvp) && Through(w, wish, cvp, rest)
    ensures Root(w) != 0
    ensures Next(w, wish, vp, c + rest, nlink) ==
      if nlink == MAXLINK then Failed(ELOOP)
      else match w.readlink(cvp)
        case NoLink(error) => Failed(error)
        case Target(t) =>
          var path := (if t == [] then "." else t) + rest;
          if |path| >= MAXPATHLEN then Failed(ENAMETOOLONG)
          else if path[0] == '/' then Next(w, wish, Root(w), SkipSlash(path), nlink + 1)
          else Next(w, wish, vp, path, nlink + 1)
  {
    NameOf(c, rest);
    var a := w.readlink(cvp);
    if nlink < MAXLINK && a.Target? {
      BeginIs(w, wish, vp, (if a.path == [] then "." else a.path) + rest, nlink + 1);
    }
    assert Next(w, wish, vp, c + rest, nlink) == Named(w, wish, vp, c, rest, nlink);
    hide Component, SkipSlash, Begin, Onward, Next;
  }

  /** `..` in the root directory stays there; in the root of a mounted file system it is that of the vnode it is
      mounted on. */
  lemma DotDot(w: World, wish: Wish, vp: Vnode, rest: Path, nlink: nat)
    requires Proper(w) && vp != 0 && nlink <= MAXLINK && w.isdir(vp) && IsName("..", rest)
    ensures AtRoot(w, vp) ==>
      Next(w, wish, vp, ".." + rest, nlink)
      == (if rest == [] then Ended(wish, vp, vp, "..") else Next(w, wish, vp, SkipSlash(rest), nlink))
    ensures !AtRoot(w, vp) && w.vroot(vp) && w.isdir(w.covered(vp)) ==>
      w.covered(vp) != 0
      && Next(w, wish, vp, ".." + rest, nlink) == Next(w, wish, w.covered(vp), ".." + rest, nlink)
  {
    NameOf("..", rest);
    hide Component, SkipSlash, Begin, Named;
  }

  /** `..` elsewhere is a name like others. */
  lemma DotDotName(w: World, wish: Wish, vp: Vnode, rest: Path, nlink: nat, cvp: Vnode)
    requires Proper(w) && vp != 0 && nlink <= MAXLINK && w.isdir(vp) && IsName("..", rest)
    requires !AtRoot(w, vp) && !w.vroot(vp)
    requires w.lookup(vp, "..") == Yes(cvp) && !Through(w, wish, cvp, rest) && !w.mounted(cvp)
    ensures cvp != 0
    ensures Next(w, wish, vp, ".." + rest, nlink) ==
      if rest == [] then Ended(wish, vp, cvp, "..") else Next(w, wish, cvp, SkipSlash(rest), nlink)
  {
    NameOf("..", rest);
    Mounted(w, cvp, cvp);
    NextCases(w, wish, vp, ".." + rest, nlink);
    NamedCases(w, wish, vp, "..", rest, nlink);
    assert Climb(w, vp) == vp;
    hide Component, SkipSlash, Begin, Next, Named, Onward, Descend, Proper, Climb;
    OnwardIs(w, wish, vp, cvp, "..", rest, nlink);
  }

  /** What is no proper name: nothing at all, something in what is no directory, no name in a directory, which
      means that directory, and a name that is too long. */
  lemma Degenerate(w: World, wish: Wish, vp: Vnode, path: Path, nlink: nat)
    requires Proper(w) && vp != 0 && nlink <= MAXLINK
    ensures path == [] ==> Begin(w, wish, vp, path, nlink) == Failed(ENOENT)
    ensures !w.isdir(vp) ==> Next(w, wish, vp, path, nlink) == Failed(ENOTDIR)
    ensures w.isdir(vp) && path == [] ==>
      Next(w, wish, vp, path, nlink) == if wish.dir then Failed(EINVAL) else Found(0, if wish.comp then vp else 0, ".")
    ensures w.isdir(vp) && |path| > MAXNAMLEN && '/' !in path[..MAXNAMLEN + 1] ==>
      Next(w, wish, vp, path, nlink) == Failed(ENAMETOOLONG)
  {
    var c := Component(path);
    assert |c| <= MAXNAMLEN < |path| ==> path[..MAXNAMLEN + 1][|c|] == '/';
    hide Climb, Onward, Named, SkipSlash;
  }

  // ----- paths put together -----

  lemma {:induction false} ComponentOf(u: Path, v: Path)
    ensures Component(u + "/" + v) == Component(u)
  {
    if u != [] && u[0] != '/' {
      ComponentOf(u[1..], v);
      assert (u + "/" + v)[1..] == u[1..] + "/" + v;
    }
  }

  lemma SkipSlashCons(x: char, p: Path)
    ensures SkipSlash([x] + p) == if x == '/' then SkipSlash(p) else [x] + p
  {
    assert ([x] + p)[1..] == p;
  }

  function Joined(u: Path, v: Path): Path {
    u + "/" + v
  }

  lemma JoinedCons(x: char, u: Path, v: Path)
    ensures Joined([x] + u, v) == [x] + Joined(u, v) && Joined([], v) == ['/'] + v
  {
  }

  lemma {:induction false} SkipSlashOf(u: Path, v: Path)
    ensures SkipSlash(Joined(u, v)) == if |SkipSlash(u)| == 0 then SkipSlash(v) else Joined(SkipSlash(u), v)
  {
    hide SkipSlash, Joined;
    if |u| == 0 {
      assert u == [] && |SkipSlash(u)| == 0;
      JoinedCons('/', [], v);
      SkipSlashCons('/', v);
    } else {
      var x, rest := u[0], u[1..];
      SkipSlashOf(rest, v);
      assert u == [x] + rest;
      JoinedCons(x, rest, v);
      SkipSlashCons(x, rest);
      SkipSlashCons(x, Joined(rest, v));
    }
  }

  /** From `d` on the path goes on with `v`, when `k` links have been followed. */
  ghost predicate GoesOn(w: World, wish: Wish, d: Vnode, v: Path, n: nat, whole: Outcome)
    requires Proper(w) && d != 0
  {
    exists k: nat :: n <= k <= MAXLINK && (k > n ==> SomeLink(w)) && whole == Next(w, wish, d, SkipSlash(v), k)
  }

  ghost predicate SomeLink(w: World) {
    exists x :: w.islink(x)
  }

  /** The outcome `whole` is that of a path which leads first to `first` and goes on with `v`; but for a path that
      has become too long behind a link. */
  ghost predicate Composes(w: World, wish: Wish, first: Outcome, whole: Outcome, v: Path, n: nat)
    requires Proper(w)
  {
    || (whole == Failed(ENAMETOOLONG) && SomeLink(w))
    || if first.Failed? then whole == first else first.comp != 0 && GoesOn(w, wish, first.comp, v, n, whole)
  }

  /** The wish for the directory that the first part leads to. */
  function Way(): Wish {
    Wish(true, false, true)
  }

  lemma GoesOnHere(w: World, wish: Wish, d: Vnode, v: Path, n: nat)
    requires Proper(w) && d != 0 && n <= MAXLINK
    ensures GoesOn(w, wish, d, v, n, Next(w, wish, d, SkipSlash(v), n))
  {
    hide Next, SkipSlash;
  }

  lemma ComposesLater(w: World, wish: Wish, first: Outcome, whole: Outcome, v: Path, n: nat)
    requires Proper(w) && Composes(w, wish, first, whole, v, n + 1) && SomeLink(w)
    ensures Composes(w, wish, first, whole, v, n)
  {
    hide Next, SkipSlash, SomeLink;
  }

  /** What a path put together of two means is what the second one means from where the first one leads, through
      whatever links, or the first one's error; unless it becomes too long behind a link. */
  lemma {:induction false} PathsCompose(w: World, wish: Wish, vp: Vnode, u: Path, v: Path, n: nat)
    requires Proper(w) && vp != 0 && u != [] && n <= MAXLINK
    ensures Composes(w, wish, Begin(w, Way(), vp, u, n), Begin(w, wish, vp, u + "/" + v, n), v, n)
    decreases MAXLINK - n, |u|, 3
  {
    BeginIs(w, Way(), vp, u, n);
    BeginIs(w, wish, vp, u + "/" + v, n);
    assert (u + "/" + v)[0] == u[0];
    hide Begin, Next, Proper, SkipSlash, GoesOn;
    if u[0] == '/' {
      SkipSlashOf(u, v);
      var r := SkipSlash(u);
      if r == [] {
        NothingLeft(w, wish, Root(w), v, n);
      } else {
        NextCompose(w, wish, Root(w), r, v, n);
      }
    } else {
      NextCompose(w, wish, vp, u, v, n);
    }
  }

  /** An empty first part leads nowhere else. */
  lemma NothingLeft(w: World, wish: Wish, vp: Vnode, v: Path, n: nat)
    requires Proper(w) && vp != 0 && n <= MAXLINK
    ensures Composes(w, wish, Next(w, Way(), vp, [], n), Next(w, wish, vp, SkipSlash(v), n), v, n)
  {
    NextCases(w, Way(), vp, [], n);
    NextCases(w, wish, vp, SkipSlash(v), n);
    GoesOnHere(w, wish, vp, v, n);
    hide Next, SkipSlash, Proper, GoesOn;
  }

  lemma {:induction false} NextCompose(w: World, wish: Wish, vp: Vnode, u: Path, v: Path, n: nat)
    requires Proper(w) && vp != 0 && u != [] && u[0] != '/' && n <= MAXLINK
    ensures Composes(w, wish, Next(w, Way(), vp, u, n), Next(w, wish, vp, u + "/" + v, n), v, n)
    decreases MAXLINK - n, |u|, 2
  {
    var c := Component(u);
    var rest := u[|c|..];
    Rejoined(u, v);
    NextCases(w, Way(), vp, u, n);
    NextCases(w, wish, vp, u + "/" + v, n);
    hide Next, Named, Onward, Climb, Component, Proper, GoesOn, SomeLink;
    if w.isdir(vp) && |c| <= MAXNAMLEN {
      var d := if c == ".." then Climb(w, vp) else vp;
      if c == ".." && AtRoot(w, d) {
        OnwardCompose(w, wish, d, d, c, rest, v, n, |u|);
      } else {
        NamedCompose(w, wish, d, c, rest, v, n, |u|);
      }
    }
  }

  lemma Rejoined(u: Path, v: Path)
    requires u != [] && u[0] != '/'
    ensures Component(u + "/" + v) == Component(u) && 0 < |Component(u)| <= |u|
    ensures (u + "/" + v)[|Component(u)|..] == u[|Component(u)|..] + "/" + v
  {
    ComponentOf(u, v);
  }

  /** The cases of a name. */
  lemma NamedCases(w: World, wish: Wish, vp: Vnode, c: Path, rest: Path, n: nat)
    requires Proper(w) && vp != 0 && n <= MAXLINK
    ensures var a := w.lookup(vp, c); var now := Named(w, wish, vp, c, rest, n);
      if a.No? then rest != [] || !wish.dir ==> now == Failed(a.error)
      else
        a.v != 0 &&
        if Through(w, wish, a.v, rest) then
          if n == MAXLINK then now == Failed(ELOOP)
          else match w.readlink(a.v)
            case NoLink(error) => now == Failed(error)
            case Target(t) =>
              var t' := if t == [] then "." else t;
              now == if |rest| + |t'| >= MAXPATHLEN then Failed(ENAMETOOLONG) else Begin(w, wish, vp, t' + rest, n + 1)
        else
          var d := Descend(w, a.v);
          if d.No? then now == Failed(d.error) else d.v != 0 && now == Onward(w, wish, vp, d.v, c, rest, n)
  {
    hide Onward, Begin;
  }

  lemma {:induction false} NamedCompose(w: World, wish: Wish, vp: Vnode, c: Path, rest: Path, v: Path, n: nat,
        size: nat)
    requires Proper(w) && vp != 0 && |rest| < size && n <= MAXLINK
    ensures Composes(w, wish, Named(w, Way(), vp, c, rest, n), Named(w, wish, vp, c, rest + "/" + v, n), v, n)
    decreases MAXLINK - n, size, 1
  {
    NamedCases(w, Way(), vp, c, rest, n);
    NamedCases(w, wish, vp, c, rest + "/" + v, n);
    var a := w.lookup(vp, c);
    if a.Yes? && w.islink(a.v) {
      assert SomeLink(w);
      hide Named, Onward, Proper, Next, GoesOn, SomeLink, Begin, Composes;
      if n < MAXLINK && w.readlink(a.v).Target? {
        var t := w.readlink(a.v).path;
        LinkCompose(w, wish, vp, if t == [] then "." else t, rest, v, n);
      } else {
        SameFailure(w, wish, v, n);
      }
    } else if a.Yes? && Descend(w, a.v).Yes? {
      hide Named, Onward, Proper, Next, GoesOn, SomeLink;
      OnwardCompose(w, wish, vp, Descend(w, a.v).v, c, rest, v, n, size);
    }
  }

  lemma SameFailure(w: World, wish: Wish, v: Path, n: nat)
    requires Proper(w)
    ensures forall error :: Composes(w, wish, Failed(error), Failed(error), v, n)
    ensures SomeLink(w) ==> forall first :: Composes(w, wish, first, Failed(ENAMETOOLONG), v, n)
  {
    hide GoesOn, SomeLink;
  }

  /** Through a link whose text is `t`. */
  lemma {:induction false} LinkCompose(w: World, wish: Wish, vp: Vnode, t: Path, rest: Path, v: Path, n: nat)
    requires Proper(w) && vp != 0 && n < MAXLINK && t != [] && SomeLink(w)
    ensures Composes(w, wish,
      if |rest| + |t| >= MAXPATHLEN then Failed(ENAMETOOLONG) else Begin(w, Way(), vp, t + rest, n + 1),
      if |rest + "/" + v| + |t| >= MAXPATHLEN then Failed(ENAMETOOLONG)
      else Begin(w, wish, vp, t + (rest + "/" + v), n + 1), v, n)
    decreases MAXLINK - n, 0, 0
  {
    hide Proper, Next, GoesOn, SomeLink, Begin, Composes;
    SameFailure(w, wish, v, n);
    if |rest + "/" + v| + |t| < MAXPATHLEN {
      PathsCompose(w, wish, vp, t + rest, v, n + 1);
      assert t + rest + "/" + v == t + (rest + "/" + v);
      ComposesLater(w, wish, Begin(w, Way(), vp, t + rest, n + 1), Begin(w, wish, vp, t + (rest + "/" + v), n + 1), v,
                    n);
    }
  }

  lemma {:induction false} OnwardCompose(w: World, wish: Wish, vp: Vnode, cvp: Vnode, c: Path, rest: Path, v: Path,
        n: nat, size: nat)
    requires Proper(w) && vp != 0 && cvp != 0 && |rest| < size && n <= MAXLINK
    ensures Composes(w, wish, Onward(w, Way(), vp, cvp, c, rest, n), Onward(w, wish, vp, cvp, c, rest + "/" + v, n), v,
                     n)
    decreases MAXLINK - n, size, 0
  {
    SkipSlashOf(rest, v);
    GoesOnHere(w, wish, cvp, v, n);
    hide Next, Proper, SkipSlash, GoesOn, SomeLink;
    if rest != [] {
      var u := SkipSlash(rest);
      if u == [] {
        NothingLeft(w, wish, cvp, v, n);
      } else {
        NextCompose(w, wish, cvp, u, v, n);
      }
    } else {
      OnwardEnds(w, Way(), vp, cvp, c, n);
      OnwardSlash(w, wish, vp, cvp, c, v, n);
    }
  }

  lemma OnwardSlash(w: World, wish: Wish, vp: Vnode, cvp: Vnode, c: Path, v: Path, n: nat)
    requires Proper(w) && vp != 0 && cvp != 0 && n <= MAXLINK
    ensures Onward(w, wish, vp, cvp, c, [] + "/" + v, n) == Next(w, wish, cvp, SkipSlash(v), n)
  {
    hide Next;
    SkipSlashOf([], v);
    assert SkipSlash([]) == [];
  }
}
