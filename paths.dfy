/**
  POSIX path names as the packers use them through `pathlib.Path`: the final
  component (`name`), that component without its last suffix (`stem`), and
  the joining of a directory and a file name (`dir / name`).
 */
module PathNames {

  /** Drops every trailing '/', as pathlib does when it parses a path. */
  function TrimSlashes(p: string): (r: string)
    decreases |p|
  {
    if |p| > 0 && p[|p| - 1] == '/' then TrimSlashes(p[..|p| - 1]) else p
  }

  /** The characters after the last '/' of `p` (all of `p` when it has none). */
  function LastComponent(p: string): (r: string)
    ensures '/' !in r
    decreases |p|
  {
    if |p| == 0 || p[|p| - 1] == '/' then "" else LastComponent(p[..|p| - 1]) + [p[|p| - 1]]
  }

  /** `Path(p).name`: the final component, ignoring trailing slashes. */
  function Name(p: string): (r: string)
    ensures '/' !in r
  {
    LastComponent(TrimSlashes(p))
  }

  /**
    What `TrimSlashes` keeps: a prefix of `p` that does not end in '/',
    followed in `p` by nothing but slashes.
   */
  lemma {:induction false} TrimSlashesDropsSlashes(p: string)
    ensures TrimSlashes(p) <= p
    ensures |TrimSlashes(p)| > 0 ==> TrimSlashes(p)[|TrimSlashes(p)| - 1] != '/'
    ensures forall k :: |TrimSlashes(p)| <= k < |p| ==> p[k] == '/'
    decreases |p|
  {
    if |p| > 0 && p[|p| - 1] == '/' {
      var init := p[..|p| - 1];
      TrimSlashesDropsSlashes(init);
      assert forall k :: 0 <= k < |init| ==> init[k] == p[k];
    }
  }

  /**
    What `LastComponent` keeps: the end of `p`, which is all of `p` or starts
    just after a '/'.
   */
  lemma {:induction false} LastComponentIsFinal(p: string)
    ensures |LastComponent(p)| <= |p| && LastComponent(p) == p[|p| - |LastComponent(p)|..]
    ensures |LastComponent(p)| < |p| ==> p[|p| - |LastComponent(p)| - 1] == '/'
    decreases |p|
  {
    if |p| > 0 && p[|p| - 1] != '/' {
      var init := p[..|p| - 1];
      LastComponentIsFinal(init);
      var r := LastComponent(init);
      assert LastComponent(p) == r + [p[|p| - 1]];
      assert init[|init| - |r|..] == p[|p| - 1 - |r|..|p| - 1];
      assert p[|p| - 1 - |r|..] == p[|p| - 1 - |r|..|p| - 1] + [p[|p| - 1]];
    }
  }

  /**
    `Path(p).name` is the final component: with the trailing slashes of `p`
    dropped, it is the end of what remains, that end is all of it or starts
    just after a '/', and it holds no '/' itself.
   */
  lemma NameIsFinalComponent(p: string)
    ensures var t, n := TrimSlashes(p), Name(p);
      && t <= p && (forall k :: |t| <= k < |p| ==> p[k] == '/') && (|t| > 0 ==> t[|t| - 1] != '/')
      && '/' !in n && |n| <= |t| && n == t[|t| - |n|..] && (|n| < |t| ==> t[|t| - |n| - 1] == '/')
  {
    var t := TrimSlashes(p);
    TrimSlashesDropsSlashes(p);
    LastComponentIsFinal(t);
    assert Name(p) == LastComponent(t);
  }

  /** Index of the last '.' of `n`, or -1 when it has none (`str.rfind('.')`). */
  function LastDot(n: string): int
    decreases |n|
  {
    if |n| == 0 then -1
    else if n[|n| - 1] == '.' then |n| - 1
    else LastDot(n[..|n| - 1])
  }

  /** `LastDot` finds a dot, and no dot comes after it. */
  lemma {:induction false} LastDotIsLast(n: string)
    ensures -1 <= LastDot(n) < |n|
    ensures LastDot(n) >= 0 ==> n[LastDot(n)] == '.'
    ensures forall k :: LastDot(n) < k < |n| ==> n[k] != '.'
    decreases |n|
  {
    if |n| > 0 && n[|n| - 1] != '.' {
      var init := n[..|n| - 1];
      LastDotIsLast(init);
      assert forall k :: 0 <= k < |init| ==> init[k] == n[k];
    }
  }

  /**
    `Path(p).stem`: the name without its final suffix. A suffix starts at the
    last '.' of the name, and only counts when that dot is neither the first
    nor the last character of the name (so ".bashrc" and "model." keep their
    dot).
   */
  function Stem(p: string): (r: string)
    ensures '/' !in r
  {
    var n := Name(p);
    var i := LastDot(n);
    if 0 < i < |n| - 1 then
      assert forall k :: 0 <= k < i ==> n[..i][k] == n[k];
      n[..i]
    else n
  }

  /**
    The stem is the name with the suffix cut off: either the whole name,
    when its last dot (if any) is its first or last character, or the part
    before a last dot that sits strictly inside the name.
   */
  lemma {:induction false} StemIsNameWithoutSuffix(p: string)
    ensures var n, r := Name(p), Stem(p);
      && r <= n
      && (r != n ==> 0 < |r| < |n| - 1 && n[|r|] == '.' && '.' !in n[|r| + 1..])
      && (r == n ==> forall k :: 0 < k < |n| - 1 && n[k] == '.' ==> n[|n| - 1] == '.')
  {
    var n := Name(p);
    var i := LastDot(n);
    LastDotIsLast(n);
    if 0 < i < |n| - 1 {
      assert Stem(p) == n[..i];
      assert |Stem(p)| == i;
      var tail := n[i + 1..];
      forall m | 0 <= m < |tail| ensures tail[m] != '.' { assert tail[m] == n[i + 1 + m]; }
    } else {
      assert Stem(p) == n;
      assert forall k :: 0 < k < |n| - 1 && n[k] == '.' ==> k <= i;
    }
  }

  /** `Path(dir) / name` rendered as a string. */
  function Join(dir: string, name: string): string
  {
    dir + "/" + name
  }

  /** Appending a character other than '/' extends the last component by it. */
  lemma {:induction false} LastComponentSnoc(p: string, c: char)
    requires c != '/'
    ensures LastComponent(p + [c]) == LastComponent(p) + [c]
  {
    assert (p + [c])[..|p + [c]| - 1] == p;
  }

  /** The name of `dir / f` is `f` when `f` is a single non-empty component. */
  lemma {:induction false} NameOfJoin(dir: string, f: string)
    requires f != [] && '/' !in f
    ensures Name(Join(dir, f)) == f
  {
    var j := Join(dir, f);
    assert j[|j| - 1] == f[|f| - 1];
    assert TrimSlashes(j) == j;
    LastComponentOfJoin(dir, f);
  }

  lemma {:induction false} LastComponentOfJoin(dir: string, f: string)
    requires '/' !in f
    ensures LastComponent(dir + "/" + f) == f
    decreases |f|
  {
    if f == [] {
      assert dir + "/" + f == dir + "/";
    } else {
      var g := f[..|f| - 1];
      var c := f[|f| - 1];
      assert f == g + [c];
      assert c in f;
      assert dir + "/" + f == (dir + "/" + g) + [c];
      LastComponentOfJoin(dir, g);
      LastComponentSnoc(dir + "/" + g, c);
    }
  }

  /** The last dot of `s + "." + e` is the one placed before `e`, when `e` has no dot. */
  lemma {:induction false} LastDotOfSuffixed(s: string, e: string)
    requires '.' !in e
    ensures LastDot(s + "." + e) == |s|
    decreases |e|
  {
    var n := s + "." + e;
    if e == [] {
      assert n[|n| - 1] == '.';
    } else {
      var g := e[..|e| - 1];
      assert e == g + [e[|e| - 1]];
      assert e[|e| - 1] in e;
      assert n[..|n| - 1] == s + "." + g;
      assert '.' !in g by {
        forall k | 0 <= k < |g| ensures g[k] != '.' { assert g[k] == e[k]; }
      }
      LastDotOfSuffixed(s, g);
    }
  }

  /**
    A file named `s + "." + e` placed in a directory has stem `s` again, when
    `s` is a non-empty name and `e` a non-empty extension without dots: the
    stem undoes the naming.
   */
  lemma {:induction false} StemOfJoinedName(dir: string, s: string, e: string)
    requires s != [] && e != []
    requires '/' !in s && '/' !in e && '.' !in e
    ensures Name(Join(dir, s + "." + e)) == s + "." + e
    ensures Stem(Join(dir, s + "." + e)) == s
  {
    var f := s + "." + e;
    assert '/' !in f by {
      forall k | 0 <= k < |f| ensures f[k] != '/' {
        if k < |s| { assert f[k] == s[k]; }
        else if k > |s| { assert f[k] == e[k - |s| - 1]; }
      }
    }
    NameOfJoin(dir, f);
    LastDotOfSuffixed(s, e);
    var j := Join(dir, s + "." + e);
    assert Name(j) == f;
    assert LastDot(Name(j)) == |s|;
    assert 0 < |s| < |f| - 1;
    assert f[..|s|] == s;
  }
}
