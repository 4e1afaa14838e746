/** Translation of pathnames to vnodes: components, parents, symbolic links and mounted file systems,
    with the holds on vnodes that it takes and gives up. */
module PathLookup {
  import opened Pathnames

  const ENOENT := 2
  const EACCES := 13
  const ENOTDIR := 20
  const EINVAL := 22
  const ELOOP := 82
  const ENAMETOOLONG := 83

  /** As many symbolic links as are followed. */
  const MAXLINK := 20

  /** A vnode, or 0. */
  type Vnode = nat

  datatype Answer = No(error: int) | Yes(v: Vnode)

  datatype Link = NoLink(error: int) | Target(path: Path)

  /** The file systems: what they say about vnodes, and what is mounted where. `depth` counts how many
      file systems are mounted on one another below a vnode. */
  datatype World = World(
    isdir: Vnode -> bool, islink: Vnode -> bool,
    lookup: (Vnode, Path) -> Answer, readlink: Vnode -> Link,
    mounted: Vnode -> bool, vfsroot: Vnode -> Answer,
    vroot: Vnode -> bool, covered: Vnode -> Vnode,
    cdir: Vnode, rdir: Vnode, rootdir: Vnode,
    depth: Vnode -> nat, height: nat)

  predicate AtRoot(w: World, v: Vnode) {
    v == w.rdir || v == w.rootdir
  }

  /** Mounts are finitely deep, and what is found is something. */
  ghost predicate Proper(w: World) {
    && w.cdir != 0 && w.rootdir != 0
    && (forall v :: w.depth(v) <= w.height)
    && (forall v :: w.mounted(v) && w.vfsroot(v).Yes? ==> w.vfsroot(v).v != 0 && w.depth(v) < w.depth(w.vfsroot(v).v))
    && (forall v :: w.vroot(v) && v != 0 && !AtRoot(w, v) ==> w.covered(v) != 0 && w.depth(w.covered(v)) < w.depth(v))
    && (forall v, c :: w.lookup(v, c).Yes? ==> w.lookup(v, c).v != 0)
    && (forall v :: w.readlink(v).Target? ==> |w.readlink(v).path| <= MAXPATHLEN)
    && (forall v, c :: w.lookup(v, c).No? ==> w.lookup(v, c).error != 0)
    && (forall v :: w.vfsroot(v).No? ==> w.vfsroot(v).error != 0)
    && (forall v :: w.readlink(v).NoLink? ==> w.readlink(v).error != 0)
  }

  /** What the caller wants: to follow a link at the end, the parent, and the vnode itself. */
  datatype Wish = Wish(follow: bool, dir: bool, comp: bool)

  /** The parent and the vnode that are handed back, each 0 if it is not, and the last name. */
  datatype Outcome = Failed(error: int) | Found(dir: Vnode, comp: Vnode, name: Path)

  /** What the caller has to give up later. */
  function Handed(o: Outcome): multiset<Vnode> {
    if o.Failed? then multiset{}
    else (if o.dir != 0 then multiset{o.dir} else multiset{}) + if o.comp != 0 then multiset{o.comp} else multiset{}
  }

  // ----- what a path means -----

  /** The vnode whose parent is looked for: out of the roots of mounted file systems, but not out of
      the root directory. */
  ghost function Climb(w: World, v: Vnode): (r: Vnode)
    requires Proper(w) && v != 0
    ensures r != 0
    decreases w.depth(v)
  {
    if AtRoot(w, v) || !w.vroot(v) then v else Climb(w, w.covered(v))
  }

  /** What is mounted on a vnode, and on that. */
  ghost function Descend(w: World, v: Vnode): (a: Answer)
    requires Proper(w) && v != 0
    ensures a.Yes? ==> a.v != 0
    decreases w.height - w.depth(v)
  {
    if !w.mounted(v) then Yes(v)
    else if w.vfsroot(v).No? then w.vfsroot(v)
    else Descend(w, w.vfsroot(v).v)
  }

  function Root(w: World): Vnode {
    if w.rdir != 0 then w.rdir else w.rootdir
  }

  /** The meaning of `path` from directory `vp` on, at its beginning or after a link. */
  ghost function Begin(w: World, wish: Wish, vp: Vnode, path: Path, nlink: nat): Outcome
    requires Proper(w) && vp != 0 && nlink <= MAXLINK
    decreases MAXLINK - nlink, |path|, 1
  {
    if path != [] && path[0] == '/' then Next(w, wish, Root(w), SkipSlash(path), nlink)
    else if path == [] then Failed(ENOENT)
    else Next(w, wish, vp, path, nlink)
  }

  /** The meaning of `path` from directory `vp` on, within a name. */
  ghost function Next(w: World, wish: Wish, vp: Vnode, path: Path, nlink: nat): Outcome
    requires Proper(w) && vp != 0 && nlink <= MAXLINK
    decreases MAXLINK - nlink, |path|, 0
  {
    var c := Component(path);
    var rest := path[|c|..];
    if !w.isdir(vp) then Failed(ENOTDIR)
    else if |c| > MAXNAMLEN then Failed(ENAMETOOLONG)
    else if c == [] then if wish.dir then Failed(EINVAL) else Found(0, if wish.comp then vp else 0, ".")
    else if c == ".." && AtRoot(w, Climb(w, vp)) then Onward(w, wish, Climb(w, vp), Climb(w, vp), c, rest, nlink)
    else Named(w, wish, if c == ".." then Climb(w, vp) else vp, c, rest, nlink)
  }

  /** The meaning of name `c` in directory `vp`, with `rest` behind it. */
  ghost function Named(w: World, wish: Wish, vp: Vnode, c: Path, rest: Path, nlink: nat): Outcome
    requires Proper(w) && vp != 0 && nlink <= MAXLINK
    decreases MAXLINK - nlink, |rest|, 2
  {
    match w.lookup(vp, c)
    case No(error) =>
      if rest != [] || !wish.dir || error == EACCES then Failed(error) else Found(vp, 0, c)
    case Yes(cvp) =>
      if w.islink(cvp) && (wish.follow || rest != []) then
        if nlink == MAXLINK then Failed(ELOOP)
        else match w.readlink(cvp)
          case NoLink(error) => Failed(error)
          case Target(t) =>
            var t' := if t == [] then "." else t;
            if |rest| + |t'| >= MAXPATHLEN then Failed(ENAMETOOLONG) else Begin(w, wish, vp, t' + rest, nlink + 1)
      else match Descend(w, cvp)
        case No(error) => Failed(error)
        case Yes(v) => Onward(w, wish, vp, v, c, rest, nlink)
  }

  /** The end of the path, or on from `cvp`. */
  ghost function Onward(w: World, wish: Wish, vp: Vnode, cvp: Vnode, c: Path, rest: Path, nlink: nat): Outcome
    requires Proper(w) && vp != 0 && cvp != 0 && nlink <= MAXLINK
    decreases MAXLINK - nlink, |rest|, 1
  {
    if rest == [] then
      if wish.dir && vp == cvp then Failed(EINVAL)
      else Found(if wish.dir then vp else 0, if wish.comp then cvp else 0, c)
    else Next(w, wish, cvp, SkipSlash(rest), nlink)
  }

  class Walker {
    const w: World
    var held: multiset<Vnode>       // net holds

    constructor (w: World)
      ensures this.w == w && held == multiset{}
    {
      this.w, held := w, multiset{};
    }

    method VnHold(v: Vnode)
      modifies this
      ensures held == old(held) + multiset{v}
    {
      held := held + multiset{v};
    }

    method VnRele(v: Vnode)
      requires v in held
      modifies this
      ensures held == old(held) - multiset{v}
    {
      held := held - multiset{v};
    }

    /** `checkforroot`: from `vp` out of the roots of mounted file systems. */
    method CheckForRoot(vp0: Vnode) returns (vp: Vnode, atRoot: bool)
      requires Proper(w) && vp0 != 0 && vp0 in held
      modifies this
      ensures vp == Climb(w, vp0) && atRoot == AtRoot(w, vp) && held == old(held) - multiset{vp0} + multiset{vp}
    {
      vp := vp0;
      while true
        invariant vp != 0 && Climb(w, vp) == Climb(w, vp0) && held == old(held) - multiset{vp0} + multiset{vp}
        decreases w.depth(vp)
      {
        if vp == w.rdir || vp == w.rootdir {
          return vp, true;
        }
        if !w.vroot(vp) {
          return vp, false;
        }
        var cvp := vp;
        vp := w.covered(vp);
        VnHold(vp);
        VnRele(cvp);
      }
    }

    /** `mloop`: from `cvp` to the root of what is mounted on it. */
    method Mloop(cvp0: Vnode) returns (error: int, failed: bool, cvp: Vnode)
      requires Proper(w) && cvp0 != 0 && cvp0 in held
      modifies this
      ensures held == old(held) - multiset{cvp0} + multiset{cvp}
      ensures Descend(w, cvp0) == if failed then No(error) else Yes(cvp)
    {
      cvp, error, failed := cvp0, 0, false;
      while w.mounted(cvp)
        invariant cvp != 0 && Descend(w, cvp) == Descend(w, cvp0) && held == old(held) - multiset{cvp0} + multiset{cvp}
        decreases w.height - w.depth(cvp)
      {
        var a := w.vfsroot(cvp);
        if a.No? {
          return a.error, true, cvp;
        }
        // the root comes with a hold
        var tvp := a.v;
        VnHold(tvp);
        VnRele(cvp);
        cvp := tvp;
      }
    }

    /** `getsymlink` and `pn_combine`: puts the path of link `cvp` before what is left of the path. */
    method FollowLink(cvp: Vnode, pnp: Pathname) returns (error: int)
      requires Proper(w) && pnp.Valid()
      modifies pnp, pnp.pn_buf
      ensures pnp.Valid() && Followed(w, cvp, old(pnp.Rest()), error, pnp.Rest())
    {
      var link := w.readlink(cvp);
      if link.NoLink? {
        return link.error;
      }
      var linkpath := new Pathname();
      var _ := linkpath.PnSet(link.path);
      if linkpath.pn_pathlen == 0 {
        var _ := linkpath.PnSet(".");
      }
      var ok := pnp.PnCombine(linkpath);
      error := if ok then 0 else ENAMETOOLONG;
    }

    /** Goes through link `cvp`, unless there were too many. */
    method ThroughLink(pnp: Pathname, wish: Wish, cvp: Vnode, nlink: nat) returns (r: Searched)
      requires Proper(w) && pnp.Valid() && cvp != 0 && cvp in held && nlink <= MAXLINK
      requires w.islink(cvp) && (wish.follow || pnp.Rest() != [])
      modifies this, pnp, pnp.pn_buf
      ensures pnp.Valid() && Going(w, wish, cvp, old(pnp.Rest()), nlink, r, pnp.Rest())
      ensures held == old(held) - multiset{cvp} && !r.Onto?
    {
      hide Pathname.Rest, Pathname.Valid, Proper, Going, Followed;
      ghost var rest := pnp.Rest();
      if nlink + 1 > MAXLINK {
        VnRele(cvp);
        GoingRound(w, wish, cvp, rest);
        r := Bad(ELOOP);
      } else {
        var error := FollowLink(cvp, pnp);
        VnRele(cvp);
        GoingLinked(w, wish, cvp, rest, nlink, error, pnp.Rest());
        r := if error != 0 then Bad(error) else Linked;
      }
    }

    /** Goes through the link that vnode `cvp` is, or through what is mounted on it. */
    method Through(pnp: Pathname, wish: Wish, cvp: Vnode, nlink: nat) returns (r: Searched)
      requires Proper(w) && pnp.Valid() && cvp != 0 && cvp in held && nlink <= MAXLINK
      modifies this, pnp, pnp.pn_buf
      ensures pnp.Valid() && Going(w, wish, cvp, old(pnp.Rest()), nlink, r, pnp.Rest())
      ensures held == old(held) - multiset{cvp} + if r.Onto? then multiset{r.cvp} else multiset{}
    {
      assert pnp.pn_pathlen != 0 <==> pnp.Rest() != [];
      hide Pathname.Rest, Pathname.Valid, Proper, Going, Descend, SkipSlash, Component;
      ghost var held1 := held - multiset{cvp};
      if w.islink(cvp) && (wish.follow || pnp.pn_pathlen != 0) {
        r := ThroughLink(pnp, wish, cvp, nlink);
      } else {
        GoingMounted(w, wish, cvp, pnp.Rest(), nlink);
        var error, failed, top := Mloop(cvp);
        if failed {
          Replaced(held1, top, multiset{});
          VnRele(top);
          r := Bad(error);
        } else {
          r := Onto(top);
        }
      }
    }

    /** Looks `component` up in `vp`, and goes through a link or mounts. */
    method Search(pnp: Pathname, wish: Wish, vp: Vnode, component: Path, nlink: nat) returns (r: Searched)
      requires Proper(w) && pnp.Valid() && vp != 0 && nlink <= MAXLINK
      modifies this, pnp, pnp.pn_buf
      ensures pnp.Valid() && Searching(w, wish, vp, component, old(pnp.Rest()), nlink, r, pnp.Rest())
      ensures held == old(held) + if r.Onto? then multiset{r.cvp} else multiset{}
    {
      assert pnp.pn_pathlen != 0 <==> pnp.Rest() != [];
      ProperFacts(w, vp, component);
      hide Pathname.Rest, Proper, Going;
      var a := w.lookup(vp, component);
      if a.No? {
        if pnp.pn_pathlen != 0 || !wish.dir || a.error == EACCES {
          return Bad(a.error);
        }
        return Missing;
      }
      // the vnode comes with a hold
      VnHold(a.v);
      r := Through(pnp, wish, a.v, nlink);
    }

    /** Hands back what is wanted of `vp` and `cvp`. */
    method HandBack(wish: Wish, vp: Vnode, cvp: Vnode, component: Path) returns (o: Outcome)
      requires vp != 0 && cvp != 0 && multiset{vp} + multiset{cvp} <= held
      modifies this
      ensures o == (if wish.dir && vp == cvp then Failed(EINVAL)
                    else Found(if wish.dir then vp else 0, if wish.comp then cvp else 0, component))
      ensures held == old(held) - (multiset{vp} + multiset{cvp}) + Handed(o)
    {
      Parts(held, vp, cvp);
      var dir, comp := 0, 0;
      if wish.dir {
        // the real parent, and not an alias of the last component
        if vp == cvp {
          VnRele(vp);
          VnRele(cvp);
          return Failed(EINVAL);
        }
        dir := vp;
      } else {
        VnRele(vp);
      }
      if wish.comp {
        comp := cvp;
      } else {
        VnRele(cvp);
      }
      o := Found(dir, comp, component);
    }

    /** From `next:` on: one component of the path, in directory `vp0`. */
    method OneComponent(pnp: Pathname, wish: Wish, vp0: Vnode, nlink: nat) returns (t: Turn)
      requires Proper(w) && pnp.Valid() && vp0 != 0 && vp0 in held && nlink <= MAXLINK
      modifies this, pnp, pnp.pn_buf
      ensures pnp.Valid() && Turned(w, wish, Next(w, wish, vp0, old(pnp.Rest()), nlink), nlink, t, pnp.Rest())
      ensures t.On? ==> |pnp.Rest()| < |old(pnp.Rest())|
      ensures held == old(held) - multiset{vp0} + Kept(t)
    {
      hide Next, Named, Onward, Proper, Pathname.Rest, Turned, Kept, Component, Climb;
      var vp: Vnode := vp0;
      ghost var p, first := pnp.Rest(), Component(pnp.Rest());
      NextCases(w, wish, vp, p, nlink);
      if !w.isdir(vp) {
        VnRele(vp);
        FailedTurn(w, wish, nlink, ENOTDIR, p);
        return Over(Failed(ENOTDIR));
      }
      var ok, component := pnp.PnGetcomponent();
      if !ok {
        VnRele(vp);
        FailedTurn(w, wish, nlink, ENAMETOOLONG, p);
        return Over(Failed(ENAMETOOLONG));
      }
      ghost var rest := pnp.Rest();
      assert rest == p[|component|..];
      if component == [] {
        t := Degenerate(pnp, wish, vp);
        OverTurn(w, wish, t.o, nlink, pnp.Rest());
        return;
      }
      if component == ".." {
        t := DotDot(pnp, wish, vp, nlink);
      } else {
        t := OneName(pnp, wish, vp, component, nlink);
      }
    }

    /** `..`: in the root directory that itself, otherwise a name like others. */
    method DotDot(pnp: Pathname, wish: Wish, vp0: Vnode, nlink: nat) returns (t: Turn)
      requires Proper(w) && pnp.Valid() && vp0 != 0 && vp0 in held && nlink <= MAXLINK
      modifies this, pnp, pnp.pn_buf
      ensures pnp.Valid()
      ensures var v := Climb(w, vp0); var rest := old(pnp.Rest());
        Turned(w, wish,
          if AtRoot(w, v) then Onward(w, wish, v, v, "..", rest, nlink) else Named(w, wish, v, "..", rest, nlink),
               nlink, t, pnp.Rest())
      ensures t.On? ==> |pnp.Rest()| <= |old(pnp.Rest())|
      ensures held == old(held) - multiset{vp0} + Kept(t)
    {
      hide Named, Onward, Proper, Pathname.Rest, Turned, Kept;
      assert Climb(w, vp0) != 0;
      hide Climb;
      var vp, atRoot := CheckForRoot(vp0);
      if atRoot {
        Doubled(held, old(held), vp0, vp);
        VnHold(vp);
        t := Skip(pnp, wish, vp, vp, "..", nlink);
        return;
      }
      assert held - multiset{vp} == old(held) - multiset{vp0};
      t := OneName(pnp, wish, vp, "..", nlink);
    }

    /** One name, in directory `vp`. */
    method OneName(pnp: Pathname, wish: Wish, vp: Vnode, component: Path, nlink: nat) returns (t: Turn)
      requires Proper(w) && pnp.Valid() && vp != 0 && vp in held && nlink <= MAXLINK && 0 < |component| <= MAXNAMLEN
      modifies this, pnp, pnp.pn_buf
      ensures pnp.Valid()
      ensures Turned(w, wish, Named(w, wish, vp, component, old(pnp.Rest()), nlink), nlink, t, pnp.Rest())
      ensures t.On? ==> |pnp.Rest()| <= |old(pnp.Rest())|
      ensures held == old(held) - multiset{vp} + Kept(t)
    {
      hide Onward, Proper, Pathname.Rest, Begin, Next, Descend, Turned, Kept, Named, Searching, Handed;
      var r := Search(pnp, wish, vp, component, nlink);
      NamedIs(w, wish, vp, component, old(pnp.Rest()), nlink, r, pnp.Rest());
      if r.Bad? {
        VnRele(vp);
        FailedTurn(w, wish, nlink, r.error, pnp.Rest());
        return Over(Failed(r.error));
      } else if r.Missing? {
        SetName(pnp, component);
        t := Over(Found(vp, 0, component));
        OverTurn(w, wish, t.o, nlink, pnp.Rest());
        assert Handed(t.o) == multiset{vp} by { HandedParent(vp, component); }
        return;
      } else if r.Linked? {
        t := Again(vp);
        AgainTurn(w, wish, vp, nlink, pnp.Rest());
        return;
      }
      Tripled(old(held), vp, r.cvp);
      t := Skip(pnp, wish, vp, r.cvp, component, nlink);
    }

    /** Leaves the last name as the path. */
    method SetName(pnp: Pathname, name: Path)
      requires pnp.Valid() && |name| <= MAXNAMLEN
      modifies pnp, pnp.pn_buf
      ensures pnp.Valid() && pnp.Rest() == name
    {
      hide Pathname.Rest;
      var _ := pnp.PnSet(name);
      assert name[..Min(|name|, MAXPATHLEN)] == name;
    }

    /** A path without components, such as a slash, is the directory itself. */
    method Degenerate(pnp: Pathname, wish: Wish, vp: Vnode) returns (t: Turn)
      requires pnp.Valid() && vp != 0 && vp in held
      modifies this, pnp, pnp.pn_buf
      ensures pnp.Valid()
      ensures t == Over(if wish.dir then Failed(EINVAL) else Found(0, if wish.comp then vp else 0, "."))
      ensures held == old(held) - multiset{vp} + Handed(t.o) && (t.o.Found? ==> pnp.Rest() == t.o.name)
    {
      if wish.dir {
        VnRele(vp);
        return Over(Failed(EINVAL));
      }
      SetName(pnp, ".");
      hide Pathname.Rest;
      if wish.comp {
        return Over(Found(0, vp, "."));
      }
      VnRele(vp);
      t := Over(Found(0, 0, "."));
    }

    /** The end of the path. */
    method AtEnd(pnp: Pathname, wish: Wish, vp: Vnode, cvp: Vnode, component: Path, nlink: nat) returns (o: Outcome)
      requires Proper(w) && pnp.Valid() && pnp.Rest() == [] && |component| <= MAXNAMLEN && nlink <= MAXLINK
      requires vp != 0 && cvp != 0 && multiset{vp} + multiset{cvp} <= held
      modifies this, pnp, pnp.pn_buf
      ensures pnp.Valid() && Turned(w, wish, Onward(w, wish, vp, cvp, component, [], nlink), nlink, Over(o), pnp.Rest())
      ensures held == old(held) - (multiset{vp} + multiset{cvp}) + Kept(Over(o))
    {
      hide Next, Proper, Handed, Pathname.Rest, Pathname.Valid, Onward, Turned, Kept;
      SetName(pnp, component);
      o := HandBack(wish, vp, cvp, component);
      OnwardEnds(w, wish, vp, cvp, component, nlink);
      OverTurn(w, wish, o, nlink, component);
    }

    /** On behind the slashes at the end of the last component. */
    method NotAtEnd(pnp: Pathname, wish: Wish, vp: Vnode, cvp: Vnode, component: Path, nlink: nat)
      requires Proper(w) && pnp.Valid() && pnp.Rest() != [] && nlink <= MAXLINK && vp != 0 && cvp != 0
      modifies pnp
      ensures pnp.Valid() && |pnp.Rest()| <= |old(pnp.Rest())|
      ensures Turned(w, wish, Onward(w, wish, vp, cvp, component, old(pnp.Rest()), nlink), nlink, On(cvp), pnp.Rest())
    {
      OnwardGoes(w, wish, vp, cvp, component, pnp.Rest(), nlink);
      hide Next, Proper, Pathname.Rest, Pathname.Valid, Onward, Turned, SkipSlash;
      pnp.PnSkipslash();
    }

    /** `skip:`: the end of the path, or on to its next component in `cvp`. */
    method Skip(pnp: Pathname, wish: Wish, vp: Vnode, cvp: Vnode, component: Path, nlink: nat) returns (t: Turn)
      requires Proper(w) && pnp.Valid() && vp != 0 && cvp != 0 && multiset{vp} + multiset{cvp} <= held
      requires 0 < |component| <= MAXNAMLEN && nlink <= MAXLINK
      modifies this, pnp, pnp.pn_buf
      ensures pnp.Valid()
      ensures Turned(w, wish, Onward(w, wish, vp, cvp, component, old(pnp.Rest()), nlink), nlink, t, pnp.Rest())
      ensures t.On? ==> |pnp.Rest()| <= |old(pnp.Rest())|
      ensures held == old(held) - (multiset{vp} + multiset{cvp}) + Kept(t)
    {
      assert pnp.pn_pathlen == 0 <==> pnp.Rest() == [];
      assert Kept(On(cvp)) == multiset{cvp};
      hide Proper, Pathname.Rest, Pathname.Valid, Onward, Turned, Kept;
      if pnp.pn_pathlen == 0 {
        var o := AtEnd(pnp, wish, vp, cvp, component, nlink);
        t := Over(o);
      } else {
        NotAtEnd(pnp, wish, vp, cvp, component, nlink);
        OneLeft(held, vp, cvp);
        VnRele(vp);
        t := On(cvp);
      }
    }

    /** From `begin:` on: a name that begins with a slash begins at the root. */
    method BeginName(pnp: Pathname, wish: Wish, vp0: Vnode, nlink: nat) returns (ok: bool, vp: Vnode)
      requires Proper(w) && pnp.Valid() && vp0 != 0 && vp0 in held && nlink <= MAXLINK
      modifies this, pnp
      ensures pnp.Valid() && |pnp.Rest()| <= |old(pnp.Rest())|
      ensures var now := Begin(w, wish, vp0, old(pnp.Rest()), nlink);
        if ok then
          vp != 0 && now == Next(w, wish, vp, pnp.Rest(), nlink) && held == old(held) - multiset{vp0} + multiset{vp}
        else now == Failed(ENOENT) && held == old(held) - multiset{vp0}
    {
      ghost var p := pnp.Rest();
      BeginIs(w, wish, vp0, p, nlink);
      assert (pnp.pn_pathlen == 0 <==> p == []) && (p != [] ==> pnp.PeekChar() == p[0]);
      hide Next, Begin, Proper, Pathname.Rest, Pathname.PeekChar;
      vp := vp0;
      ok := true;
      if pnp.pn_pathlen > 0 && pnp.PeekChar() == '/' {
        vp := FromRoot(pnp, vp);
      } else if pnp.pn_pathlen == 0 {
        VnRele(vp);
        ok := false;
      } else {
        assert held == held - multiset{vp0} + multiset{vp0};
      }
    }

    /** Gives up directory `vp0`, and goes on from the root. */
    method FromRoot(pnp: Pathname, vp0: Vnode) returns (vp: Vnode)
      requires pnp.Valid() && vp0 in held
      modifies this, pnp
      ensures pnp.Valid() && pnp.Rest() == SkipSlash(old(pnp.Rest())) && vp == Root(w)
      ensures held == old(held) - multiset{vp0} + multiset{vp}
    {
      hide Pathname.Rest, SkipSlash;
      VnRele(vp0);
      pnp.PnSkipslash();
      vp := if w.rdir != 0 then w.rdir else w.rootdir;
      VnHold(vp);
    }

    /** One component of the path, with what comes before it at the beginning of a name. */
    method OneTurn(pnp: Pathname, wish: Wish, begin: bool, vp0: Vnode, nlink: nat) returns (t: Turn)
      requires Proper(w) && pnp.Valid() && vp0 != 0 && vp0 in held && nlink <= MAXLINK
      modifies this, pnp, pnp.pn_buf
      ensures pnp.Valid() && Turned(w, wish, Meaning(w, wish, begin, vp0, old(pnp.Rest()), nlink), nlink, t, pnp.Rest())
      ensures t.On? ==> |pnp.Rest()| < |old(pnp.Rest())|
      ensures held == old(held) - multiset{vp0} + Kept(t)
    {
      hide Next, Begin, Proper, Pathname.Rest, Turned, Kept;
      var vp: Vnode := vp0;
      ghost var held0 := held - multiset{vp0};
      if begin {
        var ok;
        ok, vp := BeginName(pnp, wish, vp, nlink);
        if !ok {
          FailedTurn(w, wish, nlink, ENOENT, pnp.Rest());
          return Over(Failed(ENOENT));
        }
        Replaced(held0, vp, multiset{});
      }
      t := OneComponent(pnp, wish, vp, nlink);
      Replaced(held0, vp, Kept(t));
    }

    /** Translates pathname `pnp` from the current directory on. */
    method Lookuppn(pnp: Pathname, wish: Wish) returns (o: Outcome)
      requires Proper(w) && pnp.Valid()
      modifies this, pnp, pnp.pn_buf
      ensures o == Begin(w, wish, w.cdir, old(pnp.Rest()), 0)
      ensures held == old(held) + Handed(o)
      ensures o.Found? ==> pnp.Valid() && pnp.Rest() == o.name
    {
      hide SkipSlash, Component;
      assert w.cdir != 0;
      hide Next, Handed, Begin, Proper, Pathname.Rest;
      var nlink: nat, begin := 0, true;
      var vp: Vnode := w.cdir;
      ghost var goal, held0 := Begin(w, wish, vp, pnp.Rest(), 0), held;
      VnHold(vp);
      while true
        invariant pnp.Valid() && vp != 0 && nlink <= MAXLINK && held == held0 + multiset{vp}
        invariant goal == Meaning(w, wish, begin, vp, pnp.Rest(), nlink)
        decreases MAXLINK - nlink, |pnp.Rest()|
      {
        var t := OneTurn(pnp, wish, begin, vp, nlink);
        Replaced(held0, vp, Kept(t));
        if t.Over? {
          return t.o;
        }
        vp := t.vp;
        begin := t.Again?;
        if begin {
          nlink := nlink + 1;
        }
      }
    }
  }

  ghost function Meaning(w: World, wish: Wish, begin: bool, vp: Vnode, path: Path, nlink: nat): Outcome
    requires Proper(w) && vp != 0 && nlink <= MAXLINK
  {
    if begin then Begin(w, wish, vp, path, nlink) else Next(w, wish, vp, path, nlink)
  }

  /** What one component comes to: the end, on in directory `vp`, or a link's path from there on. */
  datatype Turn = Over(o: Outcome) | On(vp: Vnode) | Again(vp: Vnode)

  /** The holds that a turn leaves in place of the one on the directory. */
  function Kept(t: Turn): multiset<Vnode> {
    match t
    case Over(o) => Handed(o)
    case On(vp) => multiset{vp}
    case Again(vp) => multiset{vp}
  }

  /** A turn comes to what was to come, `now`: that is the outcome, or the meaning of `rest`. */
  ghost predicate Turned(w: World, wish: Wish, now: Outcome, nlink: nat, t: Turn, rest: Path)
    requires Proper(w) && nlink <= MAXLINK
  {
    match t
    case Over(o) => o == now && (o.Found? ==> rest == o.name)
    case On(vp) => vp != 0 && now == Next(w, wish, vp, rest, nlink)
    case Again(vp) => vp != 0 && nlink < MAXLINK && now == Begin(w, wish, vp, rest, nlink + 1)
  }

  lemma OverTurn(w: World, wish: Wish, o: Outcome, nlink: nat, rest: Path)
    requires Proper(w) && nlink <= MAXLINK && (o.Found? ==> rest == o.name)
    ensures Turned(w, wish, o, nlink, Over(o), rest) && Kept(Over(o)) == Handed(o)
  {
  }

  lemma OnwardEnds(w: World, wish: Wish, vp: Vnode, cvp: Vnode, c: Path, nlink: nat)
    requires Proper(w) && vp != 0 && cvp != 0 && nlink <= MAXLINK
    ensures Onward(w, wish, vp, cvp, c, [], nlink) ==
            if wish.dir && vp == cvp then Failed(EINVAL)
            else Found(if wish.dir then vp else 0, if wish.comp then cvp else 0, c)
  {
  }

  lemma OnwardGoes(w: World, wish: Wish, vp: Vnode, cvp: Vnode, c: Path, rest: Path, nlink: nat)
    requires Proper(w) && vp != 0 && cvp != 0 && nlink <= MAXLINK && rest != []
    ensures Turned(w, wish, Onward(w, wish, vp, cvp, c, rest, nlink), nlink, On(cvp), SkipSlash(rest))
    ensures Kept(On(cvp)) == multiset{cvp} && |SkipSlash(rest)| <= |rest|
  {
    hide Next, SkipSlash;
  }

  lemma HandedParent(vp: Vnode, name: Path)
    requires vp != 0
    ensures Handed(Found(vp, 0, name)) == multiset{vp}
  {
  }

  lemma AgainTurn(w: World, wish: Wish, vp: Vnode, nlink: nat, rest: Path)
    requires Proper(w) && vp != 0 && nlink < MAXLINK
    ensures Turned(w, wish, Begin(w, wish, vp, rest, nlink + 1), nlink, Again(vp), rest)
    ensures Kept(Again(vp)) == multiset{vp}
  {
    hide Begin;
  }

  lemma FailedTurn(w: World, wish: Wish, nlink: nat, error: int, rest: Path)
    requires Proper(w) && nlink <= MAXLINK
    ensures Turned(w, wish, Failed(error), nlink, Over(Failed(error)), rest) && Kept(Over(Failed(error))) == multiset{}
  {
  }

  lemma Replaced(held: multiset<Vnode>, vp: Vnode, kept: multiset<Vnode>)
    ensures held + multiset{vp} - multiset{vp} + kept == held + kept
  {
  }

  lemma BeginIs(w: World, wish: Wish, vp: Vnode, p: Path, nlink: nat)
    requires Proper(w) && vp != 0 && nlink <= MAXLINK
    ensures Root(w) != 0
    ensures Begin(w, wish, vp, p, nlink) ==
            if p != [] && p[0] == '/' then Next(w, wish, Root(w), SkipSlash(p), nlink)
            else if p == [] then Failed(ENOENT)
            else Next(w, wish, vp, p, nlink)
  {
    hide Next;
  }

  /** The cases of a component. */
  lemma NextCases(w: World, wish: Wish, vp: Vnode, p: Path, nlink: nat)
    requires Proper(w) && vp != 0 && nlink <= MAXLINK
    ensures var c := Component(p); var rest := p[|c|..]; var now := Next(w, wish, vp, p, nlink);
      if !w.isdir(vp) then now == Failed(ENOTDIR)
      else if |c| > MAXNAMLEN then now == Failed(ENAMETOOLONG)
      else if c == [] then now == if wish.dir then Failed(EINVAL) else Found(0, if wish.comp then vp else 0, ".")
      else if c == ".." then
        var v := Climb(w, vp);
        now == if AtRoot(w, v) then Onward(w, wish, v, v, c, rest, nlink) else Named(w, wish, v, c, rest, nlink)
      else now == Named(w, wish, vp, c, rest, nlink)
    ensures Component(p) != [] ==> |p[|Component(p)|..]| < |p|
  {
  }

  /** What a name means follows from its search. */
  lemma NamedIs(w: World, wish: Wish, vp: Vnode, c: Path, rest: Path, nlink: nat, r: Searched, rest': Path)
    requires Proper(w) && vp != 0 && nlink <= MAXLINK && Searching(w, wish, vp, c, rest, nlink, r, rest')
    ensures match r
      case Bad(error) => Named(w, wish, vp, c, rest, nlink) == Failed(error)
      case Missing => Named(w, wish, vp, c, rest, nlink) == Found(vp, 0, c)
      case Linked => nlink < MAXLINK && Named(w, wish, vp, c, rest, nlink) == Begin(w, wish, vp, rest', nlink + 1)
      case Onto(v) =>
        v != 0 && rest' == rest && Named(w, wish, vp, c, rest, nlink) == Onward(w, wish, vp, v, c, rest, nlink)
  {
    hide Begin, Onward;
  }

  lemma Doubled(held: multiset<Vnode>, was: multiset<Vnode>, vp0: Vnode, vp: Vnode)
    requires vp0 in was && held == was - multiset{vp0} + multiset{vp}
    ensures multiset{vp} + multiset{vp} <= held + multiset{vp}
    ensures held + multiset{vp} - (multiset{vp} + multiset{vp}) == was - multiset{vp0}
  {
  }

  lemma Tripled(held: multiset<Vnode>, vp: Vnode, cvp: Vnode)
    requires vp in held
    ensures multiset{vp} + multiset{cvp} <= held + multiset{cvp}
    ensures held + multiset{cvp} - (multiset{vp} + multiset{cvp}) == held - multiset{vp}
  {
  }

  lemma ProperFacts(w: World, vp: Vnode, c: Path)
    requires Proper(w)
    ensures match w.lookup(vp, c)
      case No(error) => error != 0
      case Yes(v) => v != 0 && (w.readlink(v).NoLink? ==> w.readlink(v).error != 0)
  {
  }

  lemma OneLeft(held: multiset<Vnode>, vp: Vnode, cvp: Vnode)
    requires multiset{vp} + multiset{cvp} <= held
    ensures vp in held && held - multiset{vp} == held - (multiset{vp} + multiset{cvp}) + multiset{cvp}
  {
    var both := multiset{vp} + multiset{cvp};
    assert held[vp] >= both[vp] && held[cvp] >= both[cvp];
  }

  lemma Parts(held: multiset<Vnode>, vp: Vnode, cvp: Vnode)
    requires multiset{vp} + multiset{cvp} <= held
    ensures vp in held && cvp in held && cvp in held - multiset{vp}
    ensures held - multiset{vp} - multiset{cvp} == held - (multiset{vp} + multiset{cvp}) + multiset{}
    ensures held - multiset{vp} == held - (multiset{vp} + multiset{cvp}) + (multiset{} + multiset{cvp})
    ensures held - multiset{cvp} == held - (multiset{vp} + multiset{cvp}) + (multiset{vp} + multiset{})
    ensures held == held - (multiset{vp} + multiset{cvp}) + (multiset{vp} + multiset{cvp})
  {
    var both := multiset{vp} + multiset{cvp};
    assert held[vp] >= both[vp] && held[cvp] >= both[cvp];
  }

  datatype Searched = Onto(cvp: Vnode) | Linked | Missing | Bad(error: int)

  /** What going through vnode `cvp` comes to, with `rest` of the path behind it. */
  ghost predicate Going(w: World, wish: Wish, cvp: Vnode, rest: Path, nlink: nat, r: Searched, rest': Path)
    requires Proper(w) && cvp != 0 && nlink <= MAXLINK
  {
    && (!r.Linked? ==> rest' == rest)
    && if w.islink(cvp) && (wish.follow || rest != []) then
         if nlink == MAXLINK then r == Bad(ELOOP)
         else match w.readlink(cvp)
           case NoLink(error) => r == Bad(error)
           case Target(t) =>
             var t' := if t == [] then "." else t;
             if |rest| + |t'| >= MAXPATHLEN then r == Bad(ENAMETOOLONG) else r == Linked && rest' == t' + rest
       else match Descend(w, cvp)
         case No(error) => r == Bad(error)
         case Yes(v) => r == Onto(v)
  }

  /** What following the link `cvp` comes to, with `rest` of the path behind it. */
  ghost predicate Followed(w: World, cvp: Vnode, rest: Path, error: int, rest': Path) {
    match w.readlink(cvp)
    case NoLink(e) => error == e && rest' == rest
    case Target(t) =>
      var t' := if t == [] then "." else t;
      if |rest| + |t'| >= MAXPATHLEN then error == ENAMETOOLONG && rest' == rest else error == 0 && rest' == t' + rest
  }

  lemma GoingRound(w: World, wish: Wish, cvp: Vnode, rest: Path)
    requires Proper(w) && cvp != 0 && w.islink(cvp) && (wish.follow || rest != [])
    ensures Going(w, wish, cvp, rest, MAXLINK, Bad(ELOOP), rest)
  {
  }

  lemma GoingLinked(w: World, wish: Wish, cvp: Vnode, rest: Path, nlink: nat, error: int, rest': Path)
    requires Proper(w) && cvp != 0 && nlink < MAXLINK && w.islink(cvp) && (wish.follow || rest != [])
    requires Followed(w, cvp, rest, error, rest')
    ensures Going(w, wish, cvp, rest, nlink, if error != 0 then Bad(error) else Linked, rest')
  {
  }

  lemma GoingMounted(w: World, wish: Wish, cvp: Vnode, rest: Path, nlink: nat)
    requires Proper(w) && cvp != 0 && nlink <= MAXLINK && !(w.islink(cvp) && (wish.follow || rest != []))
    ensures var d := Descend(w, cvp); Going(w, wish, cvp, rest, nlink, if d.No? then Bad(d.error) else Onto(d.v), rest)
  {
    hide Descend;
  }

  /** What looking up component `c` in `vp` comes to, with `rest` behind it. */
  ghost predicate Searching(w: World, wish: Wish, vp: Vnode, c: Path, rest: Path, nlink: nat, r: Searched, rest': Path)
    requires Proper(w) && vp != 0 && nlink <= MAXLINK
  {
    match w.lookup(vp, c)
    case No(error) => rest' == rest && r == if rest != [] || !wish.dir || error == EACCES then Bad(error) else Missing
    case Yes(cvp) => Going(w, wish, cvp, rest, nlink, r, rest')
  }

  // ----- staying below the root -----

  /** The vnodes `s` are all that can be got to from one another without going up from the root. */
  ghost predicate Closed(w: World, s: Vnode -> bool) {
    && s(Root(w)) && s(w.cdir)
    && (forall v, c :: s(v) && w.lookup(v, c).Yes? && !(c == ".." && AtRoot(w, v)) ==> s(w.lookup(v, c).v))
    && (forall v :: s(v) && w.vroot(v) && !AtRoot(w, v) ==> s(w.covered(v)))
    && (forall v :: s(v) && w.mounted(v) && w.vfsroot(v).Yes? ==> s(w.vfsroot(v).v))
  }

  ghost predicate Within(o: Outcome, s: Vnode -> bool) {
    o.Found? ==> (o.dir == 0 || s(o.dir)) && (o.comp == 0 || s(o.comp))
  }

  lemma {:induction false} ClimbWithin(w: World, v: Vnode, s: Vnode -> bool)
    requires Proper(w) && Closed(w, s) && v != 0 && s(v)
    ensures s(Climb(w, v))
    decreases w.depth(v)
  {
    if !AtRoot(w, v) && w.vroot(v) { ClimbWithin(w, w.covered(v), s); }
  }

  lemma {:induction false} DescendWithin(w: World, v: Vnode, s: Vnode -> bool)
    requires Proper(w) && Closed(w, s) && v != 0 && s(v)
    ensures Descend(w, v).Yes? ==> s(Descend(w, v).v)
    decreases w.height - w.depth(v)
  {
    if w.mounted(v) && w.vfsroot(v).Yes? { DescendWithin(w, w.vfsroot(v).v, s); }
  }

  /** No path, whatever links are on it, leads out of the root directory. */
  lemma {:induction false} BeginWithin(w: World, wish: Wish, vp: Vnode, path: Path, nlink: nat, s: Vnode -> bool)
    requires Proper(w) && Closed(w, s) && vp != 0 && s(vp) && nlink <= MAXLINK
    ensures Within(Begin(w, wish, vp, path, nlink), s)
    decreases MAXLINK - nlink, |path|, 1
  {
    BeginIs(w, wish, vp, path, nlink);
    hide Begin, Next, Proper;
    assert s(Root(w));
    if path != [] && path[0] == '/' {
      NextWithin(w, wish, Root(w), SkipSlash(path), nlink, s);
    } else {
      NextWithin(w, wish, vp, path, nlink, s);
    }
  }

  lemma {:induction false} NextWithin(w: World, wish: Wish, vp: Vnode, path: Path, nlink: nat, s: Vnode -> bool)
    requires Proper(w) && Closed(w, s) && vp != 0 && s(vp) && nlink <= MAXLINK
    ensures Within(Next(w, wish, vp, path, nlink), s)
    decreases MAXLINK - nlink, |path|, 0
  {
    NextCases(w, wish, vp, path, nlink);
    var c := Component(path);
    var rest := path[|c|..];
    if w.isdir(vp) && 0 < |c| <= MAXNAMLEN {
      ClimbWithin(w, vp, s);
      var v := if c == ".." then Climb(w, vp) else vp;
      hide Next, Named, Onward, Proper, Closed, Climb;
      if c == ".." && AtRoot(w, v) {
        OnwardWithin(w, wish, v, v, c, rest, nlink, s);
      } else {
        NamedWithin(w, wish, v, c, rest, nlink, s);
      }
    }
  }

  lemma {:induction false} NamedWithin(w: World, wish: Wish, vp: Vnode, c: Path, rest: Path, nlink: nat,
        s: Vnode -> bool)
    requires Proper(w) && Closed(w, s) && vp != 0 && s(vp) && nlink <= MAXLINK && !(c == ".." && AtRoot(w, vp))
    ensures Within(Named(w, wish, vp, c, rest, nlink), s)
    decreases MAXLINK - nlink, |rest|, 2
  {
    var a := w.lookup(vp, c);
    if a.Yes? {
      assert s(a.v) && a.v != 0;
      DescendWithin(w, a.v, s);
      var link, d := w.readlink(a.v), Descend(w, a.v);
      assert d.Yes? ==> d.v != 0;
      hide Proper, Closed, Begin, Next, Onward, Descend;
      if w.islink(a.v) && (wish.follow || rest != []) {
        if nlink < MAXLINK && link.Target? {
          BeginWithin(w, wish, vp, (if link.path == [] then "." else link.path) + rest, nlink + 1, s);
        }
      } else if d.Yes? {
        OnwardWithin(w, wish, vp, d.v, c, rest, nlink, s);
      }
    }
  }

  lemma {:induction false} OnwardWithin(w: World, wish: Wish, vp: Vnode, cvp: Vnode, c: Path, rest: Path, nlink: nat,
        s: Vnode -> bool)
    requires Proper(w) && Closed(w, s) && vp != 0 && cvp != 0 && s(vp) && s(cvp) && nlink <= MAXLINK
    ensures Within(Onward(w, wish, vp, cvp, c, rest, nlink), s)
    decreases MAXLINK - nlink, |rest|, 1
  {
    hide Proper, Closed, Next;
    if rest != [] { NextWithin(w, wish, cvp, SkipSlash(rest), nlink, s); }
  }
}
