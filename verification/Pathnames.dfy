/** Pathnames that are taken apart in place, in a buffer of fixed size. */
module Pathnames {

  const MAXPATHLEN := 1024
  const MAXNAMLEN := 255

  type Path = seq<char>

  function Min(a: nat, b: nat): nat {
    if a < b then a else b
  }

  /** The first component of a path: all up to the first slash. */
  function Component(p: Path): (c: Path)
    ensures c <= p && '/' !in c && (|c| < |p| ==> p[|c|] == '/')
  {
    if p == [] || p[0] == '/' then [] else [p[0]] + Component(p[1..])
  }

  function SkipSlash(p: Path): (r: Path)
    ensures |r| <= |p| && r == p[|p| - |r|..] && (r != [] ==> r[0] != '/')
    ensures forall i :: 0 <= i < |p| - |r| ==> p[i] == '/'
  {
    if p != [] && p[0] == '/' then SkipSlash(p[1..]) else p
  }

  class Pathname {
    const pn_buf: array<char>
    var pn_path: nat
    var pn_pathlen: nat

    ghost predicate Valid()
      reads this
    {
      pn_buf.Length == MAXPATHLEN && pn_path + pn_pathlen <= MAXPATHLEN
    }

    /** What is left of the path. */
    function Rest(): Path
      requires Valid()
      reads this, pn_buf
    {
      pn_buf[pn_path..pn_path + pn_pathlen]
    }

    constructor ()
      ensures Valid() && Rest() == [] && fresh(pn_buf)
    {
      pn_buf := new char[MAXPATHLEN](_ => '\0');
      pn_path, pn_pathlen := 0, 0;
    }

    /** `pn_peekchar`: the next character, or NUL. */
    function PeekChar(): (c: char)
      requires Valid()
      reads this, pn_buf
      ensures c == if Rest() == [] then '\0' else Rest()[0]
    {
      if pn_pathlen > 0 then pn_buf[pn_path] else '\0'
    }

    /** Sets the path, as far as it fits; tells whether it did. */
    method PnSet(path: Path) returns (ok: bool)
      requires Valid()
      modifies this, pn_buf
      ensures Valid() && Rest() == path[..Min(|path|, MAXPATHLEN)] && (ok <==> |path| < MAXPATHLEN)
    {
      pn_path := 0;
      var l := 0;
      while l < |path| && l < MAXPATHLEN
        invariant 0 <= l <= Min(|path|, MAXPATHLEN) && pn_buf[..l] == path[..l] && pn_path == 0
      {
        pn_buf[l] := path[l];
        l := l + 1;
      }
      if l < MAXPATHLEN {
        pn_buf[l] := '\0';
      }
      pn_pathlen := l;
      assert pn_buf[..l] == path[..l];
      ok := l < MAXPATHLEN;
    }

    /** Moves what is left of the path to position `n`; the areas may overlap. */
    method Ovbcopy(n: nat)
      requires Valid() && n + pn_pathlen <= MAXPATHLEN
      modifies pn_buf
      ensures pn_buf[n..n + pn_pathlen] == old(Rest())
    {
      forall i | 0 <= i < pn_pathlen {
        pn_buf[n + i] := pn_buf[pn_path + i];
      }
      forall i | 0 <= i < pn_pathlen ensures pn_buf[n..n + pn_pathlen][i] == old(Rest())[i] {
        assert old(Rest())[i] == old(pn_buf[pn_path + i]);
      }
    }

    /** Copies the path of a symbolic link to the front of the buffer. */
    method Bcopy(sympnp: Pathname)
      requires Valid() && sympnp.Valid() && sympnp.pn_buf != pn_buf
      modifies pn_buf
      ensures pn_buf[..sympnp.pn_pathlen] == sympnp.Rest() == old(sympnp.Rest())
      ensures pn_buf[sympnp.pn_pathlen..] == old(pn_buf[sympnp.pn_pathlen..])
    {
      forall i | 0 <= i < sympnp.pn_pathlen {
        pn_buf[i] := sympnp.pn_buf[sympnp.pn_path + i];
      }
    }

    /** Puts the path of a symbolic link before this one, in this one's buffer, if it fits. */
    method PnCombine(sympnp: Pathname) returns (ok: bool)
      requires Valid() && sympnp.Valid() && sympnp.pn_buf != pn_buf && sympnp != this
      modifies this, pn_buf
      ensures Valid() && (ok <==> |old(Rest())| + |old(sympnp.Rest())| < MAXPATHLEN)
      ensures Rest() == if ok then old(sympnp.Rest()) + old(Rest()) else old(Rest())
    {
      var n := sympnp.pn_pathlen;
      if pn_pathlen + n >= MAXPATHLEN {
        return false;
      }
      Ovbcopy(n);
      ghost var rest := pn_buf[n..n + pn_pathlen];
      ghost var tail := pn_buf[n..];
      assert rest == tail[..pn_pathlen];
      Bcopy(sympnp);
      assert pn_buf[n..n + pn_pathlen] == pn_buf[n..][..pn_pathlen];
      assert pn_buf[..n + pn_pathlen] == pn_buf[..n] + pn_buf[n..n + pn_pathlen];
      pn_pathlen := pn_pathlen + n;
      pn_path := 0;
      assert Rest() == pn_buf[..pn_pathlen];
      ok := true;
    }

    lemma CharAt(k: nat)
      requires Valid() && k < pn_pathlen
      ensures Rest()[k] == pn_buf[pn_path + k] && |Rest()| == pn_pathlen
    {
    }

    /** Copies the first component out, as long as it is not too long; `l` is the length left. */
    method CopyOut() returns (ok: bool, component: Path, l: nat)
      requires Valid()
      ensures ok <==> |Component(Rest())| <= MAXNAMLEN
      ensures ok ==> component == Component(Rest()) && l == pn_pathlen - |component|
    {
      hide Component, Begins;
      ghost var p := Rest();
      assert |p| == pn_pathlen;
      hide *;
      var cp: nat, n: int := pn_path, MAXNAMLEN;
      l := pn_pathlen;
      component := [];
      BeginsNone(p);
      while l > 0 && pn_buf[cp] != '/'
        invariant |component| + l == |p| && cp == pn_path + |component| && n == MAXNAMLEN - |component| && 0 <= n
        invariant Begins(p, component)
        decreases l
      {
        CharAt(|component|);
        OneMore(p, component);
        n := n - 1;
        if n < 0 {
          ok := false;
          return;
        }
        component := component + [pn_buf[cp]];
        cp := cp + 1;
        l := l - 1;
      }
      if l > 0 { CharAt(|component|); }
      NoMore(p, component);
      ok := true;
    }

    /** Strips the first component off; a long one is refused. */
    method PnGetcomponent() returns (ok: bool, component: Path)
      requires Valid()
      modifies this
      ensures Valid() && (ok <==> |old(Component(Rest()))| <= MAXNAMLEN)
      ensures ok ==> component == old(Component(Rest())) && old(Rest()) == component + Rest()
      ensures !ok ==> Rest() == old(Rest())
    {
      hide Component;
      var l;
      ok, component, l := CopyOut();
      if ok {
        ghost var p := Rest();
        pn_path := pn_path + (pn_pathlen - l);
        pn_pathlen := l;
        assert Rest() == p[|component|..] && p == p[..|component|] + p[|component|..];
      }
    }

    lemma RestTail()
      requires Valid() && pn_pathlen > 0
      ensures Rest() != [] && Rest()[0] == pn_buf[pn_path] && Rest()[1..] == pn_buf[pn_path + 1..pn_path + pn_pathlen]
    {
    }

    method SkipChar()
      requires Valid() && pn_pathlen > 0
      modifies this
      ensures Valid() && Rest() == old(Rest())[1..] && pn_pathlen == old(pn_pathlen) - 1
    {
      RestTail();
      pn_path := pn_path + 1;
      pn_pathlen := pn_pathlen - 1;
    }

    method PnSkipslash()
      requires Valid()
      modifies this
      ensures Valid() && Rest() == SkipSlash(old(Rest()))
    {
      hide SkipSlash;
      while pn_pathlen > 0 && pn_buf[pn_path] == '/'
        invariant Valid() && SkipSlash(Rest()) == SkipSlash(old(Rest()))
        decreases pn_pathlen
      {
        SkipOne(Rest());
        SkipChar();
      }
      SkipNone(Rest());
    }
  }

  lemma SkipOne(p: Path)
    requires p != [] && p[0] == '/'
    ensures SkipSlash(p) == SkipSlash(p[1..])
  {
  }

  lemma SkipNone(p: Path)
    requires p == [] || p[0] != '/'
    ensures SkipSlash(p) == p
  {
  }

  /** The first component of `p` begins with `c`. */
  ghost predicate Begins(p: Path, c: Path) {
    c <= p && Component(p) == c + Component(p[|c|..])
  }

  lemma BeginsNone(p: Path)
    ensures Begins(p, [])
  {
    assert p[0..] == p;
  }

  lemma OneMore(p: Path, c: Path)
    requires Begins(p, c) && |c| < |p| && p[|c|] != '/'
    ensures Begins(p, c + [p[|c|]]) && |Component(p)| > |c|
  {
    var k := |c|;
    assert p[k..][1..] == p[k + 1..];
    assert Component(p[k..]) == [p[k]] + Component(p[k + 1..]);
    assert c + [p[k]] == p[..k + 1];
    assert Component(p) == (c + [p[k]]) + Component(p[k + 1..]) by { Regroup(c, [p[k]], Component(p[k + 1..])); }
    hide Component;
  }

  lemma Regroup(u: Path, v: Path, w: Path)
    ensures u + (v + w) == (u + v) + w
  {
  }

  lemma NoMore(p: Path, c: Path)
    requires Begins(p, c)
    ensures |c| == |p| || p[|c|] == '/' ==> Component(p) == c
  {
  }
}
