/**
 The upward directory walk `pathsUpwards` of io.ts, over POSIX paths that
 start at the root. `Dirname` follows the algorithm of Node's POSIX
 `path.dirname` for such paths; on a normalised path it drops the last
 component.
 */
module Paths {

  /** A path the walk accepts: one that starts at the root, as `process.cwd()` does. */
  predicate Rooted(p: string) {
    |p| >= 1 && p[0] == '/'
  }

  /**
   The largest index `i` with `lo <= i < hi` whose character is a slash
   (`slash`) or is not one (`!slash`), or -1 when there is none.
   */
  function LastIndex(p: string, lo: nat, hi: nat, slash: bool): (r: int)
    requires lo <= hi <= |p|
    ensures r == -1 || lo <= r < hi
    ensures r >= 0 ==> (p[r] == '/') == slash
    ensures r >= 0 ==> forall i :: r < i < hi ==> (p[i] == '/') != slash
    ensures r == -1 ==> forall i :: lo <= i < hi ==> (p[i] == '/') != slash
    decreases hi - lo
  {
    if hi <= lo then -1
    else if (p[hi - 1] == '/') == slash then hi - 1
    else LastIndex(p, lo, hi - 1, slash)
  }

  /**
   `path.dirname` of a rooted path: trailing slashes are ignored, the last
   component and the slash before it are removed, and what is left is the
   root `/` when nothing else remains (or `//` when the path began with two
   slashes). The result is rooted and, unless the path is `/`, shorter.
   */
  function Dirname(p: string): (r: string)
    requires Rooted(p)
    ensures Rooted(r)
    ensures p != "/" ==> |r| < |p|
  {
    var k := LastIndex(p, 1, |p|, false);
    if k == -1 then "/"
    else
      var end := LastIndex(p, 1, k, true);
      if end == -1 then "/"
      else if end == 1 then "//"
      else p[..end]
  }

  /** The paths `pathsUpwards` yields, from `dir` up to the root. */
  function Walk(dir: string): (r: seq<string>)
    requires Rooted(dir)
    ensures |r| >= 1 && r[0] == dir && r[|r| - 1] == "/"
    ensures forall i :: 0 <= i < |r| ==> Rooted(r[i])
    ensures forall i :: 0 <= i < |r| - 1 ==> r[i] != "/" && r[i + 1] == Dirname(r[i])
    decreases |dir|
  {
    if dir == "/" then ["/"]
    else
      var rest := Walk(Dirname(dir));
      assert forall i :: 0 < i < |rest| + 1 ==> ([dir] + rest)[i] == rest[i - 1];
      [dir] + rest
  }

  /**
   `pathsUpwards(start)`: the start exactly as given, then the parent of each
   path in turn, ending with the root `/`, which occurs only at the end.
   */
  function PathsUpwards(start: string): (r: seq<string>)
    requires Rooted(start)
    ensures |r| >= 1 && r[0] == start && r[|r| - 1] == "/"
    ensures forall i :: 0 <= i < |r| ==> Rooted(r[i])
    ensures forall i :: 0 <= i < |r| - 1 ==> r[i] != "/" && r[i + 1] == Dirname(r[i])
  {
    Walk(start)
  }

  /** The walk from the root is the root alone. */
  lemma PathsUpwardsRoot()
    ensures PathsUpwards("/") == ["/"]
  {
  }

  /** A path component: non-empty and free of slashes. */
  predicate Component(c: string) {
    |c| >= 1 && forall i :: 0 <= i < |c| ==> c[i] != '/'
  }

  predicate Components(cs: seq<string>) {
    forall i :: 0 <= i < |cs| ==> Component(cs[i])
  }

  /** `/c1/c2/…/cn`, the empty string when there is no component. */
  function Joined(cs: seq<string>): string
  {
    if |cs| == 0 then "" else "/" + cs[0] + Joined(cs[1..])
  }

  /** The normalised absolute path of a list of components; `/` when it is empty. */
  function Absolute(cs: seq<string>): (p: string)
    ensures Rooted(p)
  {
    if |cs| == 0 then "/" else Joined(cs)
  }

  lemma {:induction false} JoinedSnoc(cs: seq<string>, c: string)
    ensures Joined(cs + [c]) == Joined(cs) + "/" + c
  {
    if |cs| > 0 {
      assert (cs + [c])[1..] == cs[1..] + [c];
      JoinedSnoc(cs[1..], c);
    } else {
      assert [c][1..] == [];
    }
  }

  lemma {:induction false} JoinedLength(cs: seq<string>)
    requires Components(cs)
    ensures |cs| > 0 ==> |Joined(cs)| >= 2
  {
    if |cs| > 0 {
      assert Component(cs[0]);
    }
  }

  /** On a normalised path with at least one component, `Dirname` drops the last component. */
  lemma DirnameDropsLast(cs: seq<string>)
    requires Components(cs) && |cs| >= 1
    ensures Dirname(Absolute(cs)) == Absolute(cs[..|cs| - 1])
  {
    var init := cs[..|cs| - 1];
    var last := cs[|cs| - 1];
    assert cs == init + [last];
    JoinedSnoc(init, last);
    var j := Joined(init);
    var p := Absolute(cs);
    assert p == j + "/" + last;
    assert Component(last);
    assert p[|p| - 1] == last[|last| - 1];
    var k := LastIndex(p, 1, |p|, false);
    assert k == |p| - 1;
    var end := LastIndex(p, 1, k, true);
    forall i | |j| < i < k
      ensures p[i] != '/'
    {
      assert p[i] == last[i - |j| - 1];
    }
    if |init| == 0 {
      assert end == -1;
    } else {
      assert Components(init) by {
        forall i | 0 <= i < |init|
          ensures Component(init[i])
        {
          assert init[i] == cs[i];
        }
      }
      JoinedLength(init);
      assert p[|j|] == '/';
      assert end == |j|;
      assert p[..end] == j;
    }
  }

  lemma WalkStep(p: string)
    requires Rooted(p) && p != "/"
    ensures PathsUpwards(p) == [p] + PathsUpwards(Dirname(p))
  {
  }

  lemma ComponentsPrefix(cs: seq<string>, n: nat)
    requires Components(cs) && n <= |cs|
    ensures Components(cs[..n])
  {
    forall i | 0 <= i < n
      ensures Component(cs[..n][i])
    {
      assert cs[..n][i] == cs[i];
    }
  }

  lemma ShiftAncestors(cs: seq<string>, w: seq<string>, wi: seq<string>)
    requires |cs| > 0 && w == [Absolute(cs)] + wi && |wi| == |cs|
    requires forall i :: 0 <= i <= |cs| - 1 ==> wi[i] == Absolute(cs[..|cs| - 1][..|cs| - 1 - i])
    ensures forall i :: 0 <= i <= |cs| ==> w[i] == Absolute(cs[..|cs| - i])
  {
    forall i | 0 <= i <= |cs|
      ensures w[i] == Absolute(cs[..|cs| - i])
    {
      if i == 0 {
        assert cs[..|cs|] == cs;
      } else {
        assert w[i] == wi[i - 1];
        assert cs[..|cs| - 1][..|cs| - 1 - (i - 1)] == cs[..|cs| - i];
      }
    }
  }

  /**
   The walk from a normalised path with n components yields n + 1 paths: the
   path itself, each ancestor in turn, and the root.
   */
  lemma {:induction false} WalkComponents(cs: seq<string>)
    requires Components(cs)
    ensures |PathsUpwards(Absolute(cs))| == |cs| + 1
    ensures forall i :: 0 <= i <= |cs| ==> PathsUpwards(Absolute(cs))[i] == Absolute(cs[..|cs| - i])
    decreases |cs|
  {
    if |cs| > 0 {
      var init := cs[..|cs| - 1];
      ComponentsPrefix(cs, |cs| - 1);
      WalkComponents(init);
      WalkCons(cs);
      ShiftAncestors(cs, PathsUpwards(Absolute(cs)), PathsUpwards(Absolute(init)));
    } else {
      assert cs[..0] == cs;
    }
  }

  /** The walk from a path with components is the path, then the walk from its parent. */
  lemma WalkCons(cs: seq<string>)
    requires Components(cs) && |cs| > 0
    ensures PathsUpwards(Absolute(cs)) == [Absolute(cs)] + PathsUpwards(Absolute(cs[..|cs| - 1]))
  {
    DirnameDropsLast(cs);
    JoinedLength(cs);
    WalkStep(Absolute(cs));
  }

  lemma WalkExampleParts(cs: seq<string>)
    requires cs == ["foo", "bar", "baz"]
    ensures PathsUpwards(Absolute(cs)) == [Absolute(cs), Absolute(cs[..2]), Absolute(cs[..1]), "/"]
  {
    assert Components(cs) by {
      assert Component(cs[0]) && Component(cs[1]) && Component(cs[2]);
    }
    WalkComponents(cs);
    assert cs[..0] == [];
  }

  lemma JoinedExample(cs: seq<string>)
    requires cs == ["foo", "bar", "baz"]
    ensures Absolute(cs) == "/foo/bar/baz"
    ensures Absolute(cs[..2]) == "/foo/bar"
    ensures Absolute(cs[..1]) == "/foo"
  {
    assert Joined(["baz"]) == "/baz" by {
      assert ["baz"][1..] == [];
    }
    assert Joined(["bar"]) == "/bar" by {
      assert ["bar"][1..] == [];
    }
    assert Joined(["foo"]) == "/foo" by {
      assert ["foo"][1..] == [];
    }
    assert Joined(["bar", "baz"]) == "/bar/baz" by {
      assert ["bar", "baz"][1..] == ["baz"];
    }
    assert Joined(["foo", "bar"]) == "/foo/bar" by {
      assert ["foo", "bar"][1..] == ["bar"];
    }
    assert Joined(cs) == "/foo/bar/baz" by {
      assert cs[1..] == ["bar", "baz"];
    }
    assert cs[..2] == ["foo", "bar"] && cs[..1] == ["foo"];
  }

  /** The case of the repository's unit test for a normalised start directory. */
  lemma WalkExample()
    ensures PathsUpwards("/foo/bar/baz") == ["/foo/bar/baz", "/foo/bar", "/foo", "/"]
  {
    WalkExampleParts(["foo", "bar", "baz"]);
    JoinedExample(["foo", "bar", "baz"]);
  }
}
