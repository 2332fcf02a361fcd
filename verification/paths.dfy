/** Absolute paths as sequences of components, and the containment test every deletion check
    relies on. A component of an uncleaned path may be empty, "." or "..". */
module Paths {
  import opened Strings

  type Path = seq<string>

  /** `filepath.Clean` on an absolute path: ".." never climbs above the root. */
  function Clean(p: Path): Path {
    if p == [] then []
    else
      var parent, name := Clean(p[..|p| - 1]), p[|p| - 1];
      if name == "" || name == "." then parent
      else if name == ".." then (if parent == [] then [] else parent[..|parent| - 1])
      else parent + [name]
  }

  ghost predicate IsClean(p: Path) {
    forall name :: name in p ==> name != "" && name != "." && name != ".."
  }

  lemma {:induction false} CleanIsClean(p: Path)
    ensures IsClean(Clean(p))
  {
    if p != [] {
      CleanIsClean(p[..|p| - 1]);
      StepIsClean(Clean(p[..|p| - 1]), p[|p| - 1]);
    }
  }

  lemma StepIsClean(parent: Path, name: string)
    requires IsClean(parent)
    ensures parent != [] ==> IsClean(parent[..|parent| - 1])
    ensures name != "" && name != "." && name != ".." ==> IsClean(parent + [name])
  {
    if parent != [] {
      CleanPart(parent, 0, |parent| - 1);
    }
    forall x | x in parent + [name] ensures x in parent || x == name {}
  }

  lemma {:induction false} CleanFixes(p: Path)
    requires IsClean(p)
    ensures Clean(p) == p
  {
    if p != [] {
      assert p == p[..|p| - 1] + [p[|p| - 1]];
      CleanPart(p, 0, |p| - 1);
      assert p[|p| - 1] in p;
      CleanFixes(p[..|p| - 1]);
    }
  }

  /** Cleaning does not reach into a clean tail. */
  lemma {:induction false} CleanAppend(p: Path, tail: Path)
    requires IsClean(tail)
    ensures Clean(p + tail) == Clean(p) + tail
  {
    if tail == [] {
      assert p + tail == p;
    } else {
      var n := |tail| - 1;
      CleanPart(tail, 0, n);
      CleanAppend(p, tail[..n]);
      assert (p + tail)[..|p + tail| - 1] == p + tail[..n];
      assert tail[n] in tail;
      assert Clean(p) + tail[..n] + [tail[n]] == Clean(p) + tail;
    }
  }

  lemma CleanPart(p: Path, i: nat, j: nat)
    requires IsClean(p) && i <= j <= |p|
    ensures IsClean(p[i..j]) && p[0..j] == p[..j] && p[i..|p|] == p[i..]
  {
    forall name | name in p[i..j] ensures name in p {}
  }

  /** What cleaning does to a path, wherever in it: nothing and "." are dropped, ".." undoes the name in
      front of it, and has no effect at the root. On what remains, clean paths, it does nothing. */
  lemma CleanRewrites(a: Path, name: string, b: Path)
    ensures name == "" || name == "." ==> Clean(a + [name] + b) == Clean(a + b)
    ensures name != "" && name != "." && name != ".." ==> Clean(a + [name, ".."] + b) == Clean(a + b)
    ensures Clean([".."] + b) == Clean(b)
  {
    var named, up := a + [name], a + [name, ".."];
    assert named[..|a|] == a && up[..|a| + 1] == named;
    if name == "" || name == "." { CleanAlike(named, a, b); }
    if name != "" && name != "." && name != ".." { CleanAlike(up, a, b); }
    CleanAlike([".."], [], b);
    assert [] + b == b && [".."][..0] == [];
  }

  /** Beginnings that clean to the same path may be exchanged. */
  lemma {:induction false} CleanAlike(p: Path, q: Path, b: Path)
    requires Clean(p) == Clean(q)
    ensures Clean(p + b) == Clean(q + b)
  {
    hide Clean;
    if b == [] {
      assert p + b == p && q + b == q;
    } else {
      var n := |b| - 1;
      CleanAlike(p, q, b[..n]);
      assert p + b == (p + b[..n]) + [b[n]] && q + b == (q + b[..n]) + [b[n]];
      CleanStep(p + b[..n], q + b[..n], b[n]);
    }
  }

  lemma CleanStep(p: Path, q: Path, name: string)
    requires Clean(p) == Clean(q)
    ensures Clean(p + [name]) == Clean(q + [name])
  {
    assert (p + [name])[..|p|] == p && (q + [name])[..|q|] == q;
  }

  /** The relative path leads from the one directory to the other. */
  lemma RelLeads(base: Path, target: Path)
    requires IsClean(base) && IsClean(target)
    ensures Clean(base + Rel(base, target)) == target
  {
    hide Clean, IsClean;
    var k := CommonLength(base, target);
    var up := seq(|base| - k, i => "..");
    CleanPart(target, k, |target|);
    ClimbsOut(base, |base| - k);
    assert base + Rel(base, target) == (base + up) + target[k..];
    CleanAppend(base + up, target[k..]);
    assert target == target[..k] + target[k..] && base[..|base| - |up|] == target[..k];
  }

  lemma {:induction false} ClimbsOut(base: Path, n: nat)
    requires IsClean(base) && n <= |base|
    ensures Clean(base + seq(n, i => "..")) == base[..|base| - n]
  {
    if n == 0 {
      CleanFixes(base);
      assert base + seq(n, i => "..") == base;
    } else {
      ClimbsOut(base, n - 1);
      var path := base + seq(n, i => "..");
      assert path[..|path| - 1] == base + seq(n - 1, i => "..") && path[|path| - 1] == "..";
    }
  }

  function CommonLength(a: Path, b: Path): (k: nat)
    ensures k <= |a| && k <= |b| && a[..k] == b[..k]
    ensures k < |a| && k < |b| ==> a[k] != b[k]
  {
    if a == [] || b == [] || a[0] != b[0] then 0
    else
      var k := CommonLength(a[1..], b[1..]);
      assert a[..k + 1] == [a[0]] + a[1..][..k] && b[..k + 1] == [b[0]] + b[1..][..k];
      k + 1
  }

  /** `filepath.Rel` on cleaned absolute paths: climb out of what is not shared, then descend. */
  function Rel(base: Path, target: Path): Path {
    var k := CommonLength(base, target);
    seq(|base| - k, i => "..") + target[k..]
  }

  lemma RelBelow(base: Path, target: Path)
    requires base <= target
    ensures Rel(base, target) == target[|base|..]
  {
    assert forall i :: 0 <= i < |base| ==> base[i] == target[i];
    assert CommonLength(base, target) == |base|;
  }

  lemma PrefixesNest(a: Path, b: Path, p: Path)
    requires a <= p && b <= p
    ensures a <= b || b <= a
    ensures |a| <= |b| ==> a <= b
    ensures a <= b && b <= a ==> a == b
  {
    assert a == p[..|a|] && b == p[..|b|];
  }

  lemma PrefixTail(a: Path, b: Path, k: nat)
    requires a <= b && k <= |a|
    ensures a[k..] <= b[k..] && b[k..][..|a| - k] == a[k..]
  {
    assert a == b[..|a|];
  }

  /** On clean paths the containment test is the prefix test. */
  lemma CleanContains(parent: Path, child: Path)
    requires IsClean(parent) && IsClean(child)
    ensures PathContains(parent, child) <==> parent <= child
  {
    CleanFixes(parent);
    CleanFixes(child);
    ContainsIsPrefix(parent, child);
  }

  /** The containment test: the relative path is neither ".." nor starts with "../". */
  predicate PathContains(parent: Path, child: Path) {
    var rel := Rel(Clean(parent), Clean(child));
    !(rel != [] && rel[0] == "..")
  }

  predicate PathsOverlap(a: Path, b: Path) {
    PathContains(a, b) || PathContains(b, a)
  }

  /** Two directories overlap exactly if some path lies in both. */
  lemma OverlapMeans(a: Path, b: Path)
    ensures PathsOverlap(a, b) <==> exists x: Path, y: Path :: Clean(a) + x == Clean(b) + y
  {
    ContainsIsPrefix(a, b);
    ContainsIsPrefix(b, a);
    var p, q := Clean(a), Clean(b);
    hide Clean, PathContains;
    if x: Path, y: Path :| p + x == q + y {
      PrefixesNest(p, q, p + x);
    }
    if p <= q {
      assert p + q[|p|..] == q + [];
    } else if q <= p {
      assert p + [] == q + p[|q|..];
    }
  }

  /** What the textual test decides: the cleaned parent is a component-wise prefix. */
  lemma ContainsIsPrefix(parent: Path, child: Path)
    ensures PathContains(parent, child) <==> Clean(parent) <= Clean(child)
  {
    var p, c := Clean(parent), Clean(child);
    var k := CommonLength(p, c);
    CleanIsClean(child);
    if k == |p| {
      assert p == p[..k] && c == c[..k] + c[k..];
      assert c[k..] != [] ==> c[k..][0] in c;
      assert Rel(p, c) == c[k..];
    } else {
      assert Rel(p, c)[0] == "..";
      assert k < |c| ==> p[k] != c[k];
    }
  }

  /** `filepath.Base` of an absolute path. */
  function BaseName(p: Path): string {
    if p == [] then "/" else p[|p| - 1]
  }

  /** The textual form of an absolute path. */
  function Render(p: Path): string {
    if p == [] then "/" else if |p| == 1 then "/" + p[0] else Render(p[..|p| - 1]) + "/" + p[|p| - 1]
  }

  /** The textual form has one separator in front of every component, and nothing else. */
  lemma {:induction false} RenderSplits(p: Path)
    requires p != [] && AllFree(p, '/')
    ensures Split(Render(p), '/') == [""] + p
  {
    hide Split;
    var n := |p| - 1;
    assert Free(p[n], '/');
    SplitWhole(p[n], '/');
    if n == 0 {
      SplitWhole("", '/');
      SplitConcat("", p[0], '/');
      assert Render(p) == "" + ['/'] + p[0] && [""] + p == [""] + [p[0]];
    } else {
      RenderSplits(p[..n]);
      SplitConcat(Render(p[..n]), p[n], '/');
      assert Render(p) == Render(p[..n]) + ['/'] + p[n];
      assert [""] + p == [""] + p[..n] + [p[n]];
    }
  }

  /** Among the ancestors of one path the longer text is the deeper directory. */
  lemma {:induction false} DeeperIsLonger(short: Path, long: Path)
    requires IsClean(long) && short <= long && short != long
    ensures |Render(short)| < |Render(long)|
  {
    var parent := long[..|long| - 1];
    assert long[|long| - 1] in long;
    RenderNonempty(parent);
    if short != parent {
      assert short <= parent;
      assert forall name :: name in parent ==> name in long;
      DeeperIsLonger(short, parent);
    }
  }

  lemma {:induction false} RenderNonempty(p: Path)
    ensures |Render(p)| >= 1
  {
  }
}
