/**
 Forward-slash paths as the route generator sees them: a path string is split
 into segments at every '/', and a directory or file is located by walking
 those segments from the current working directory, the way POSIX path
 resolution does. The relative path between two locations is the one the
 host's `path.relative` gives: it climbs to an ancestor of the source
 directory and descends from there to the target, and it never descends back
 into the directory it has just climbed out of. Exactly one path has that
 shape, and no path of climbs followed by descents is shorter.
 */
module Paths {

  /** A segment that names a directory entry, rather than a step such as "." or "..". */
  predicate IsName(seg: string) {
    seg != "" && seg != "." && seg != ".." && '/' !in seg
  }

  /** An absolute, normalised location: a list of entry names from the root. */
  predicate Normal(p: seq<string>) {
    forall i :: 0 <= i < |p| ==> IsName(p[i])
  }

  /** No segment contains the separator: what splitting a string produces. */
  predicate Separated(segs: seq<string>) {
    forall i :: 0 <= i < |segs| ==> '/' !in segs[i]
  }

  /** Splits `s` at every '/', keeping empty segments, as `split('/')` does. */
  function Split(s: string): (r: seq<string>)
    ensures |r| >= 1
    ensures Separated(r)
    decreases |s|
  {
    if |s| == 0 then [""]
    else
      var rest := Split(s[1..]);
      if s[0] == '/' then [""] + rest
      else [[s[0]] + rest[0]] + rest[1..]
  }

  /** Joins segments with '/' between neighbours. */
  function Join(segs: seq<string>): string
  {
    if |segs| == 0 then ""
    else if |segs| == 1 then segs[0]
    else segs[0] + "/" + Join(segs[1..])
  }

  /** Joining the pieces of a split gives back the original string. */
  lemma {:induction false} JoinSplit(s: string)
    ensures Join(Split(s)) == s
    decreases |s|
  {
    if |s| > 0 {
      var rest := Split(s[1..]);
      JoinSplit(s[1..]);
      if s[0] == '/' {
        assert Split(s) == [""] + rest;
        assert s == "/" + s[1..];
      } else if |rest| == 1 {
        assert Split(s) == [[s[0]] + rest[0]];
        assert s == [s[0]] + s[1..];
      } else {
        var first := [s[0]] + rest[0];
        assert Split(s) == [first] + rest[1..];
        assert Join(rest) == rest[0] + "/" + Join(rest[1..]);
        assert Join(Split(s)) == first + "/" + Join(rest[1..]);
        assert s == [s[0]] + s[1..];
      }
    }
  }

  /** A prefix free of separators becomes the head of the first segment. */
  lemma {:induction false} SplitSeparatorFree(a: string, t: string)
    requires '/' !in a
    ensures Split(a + t) == [a + Split(t)[0]] + Split(t)[1..]
    decreases |a|
  {
    if |a| > 0 {
      assert (a + t)[1..] == a[1..] + t;
      assert '/' !in a[1..] by {
        forall i | 0 <= i < |a[1..]| ensures a[1..][i] != '/' {
          assert a[1..][i] == a[i + 1];
        }
      }
      SplitSeparatorFree(a[1..], t);
      assert [a[0]] + (a[1..] + Split(t)[0]) == a + Split(t)[0];
    } else {
      var r := Split(t);
      assert a + t == t;
      assert a + r[0] == r[0];
      assert [r[0]] + r[1..] == r;
    }
  }

  /** A string without '/' splits into itself alone. */
  lemma SplitSingle(a: string)
    requires '/' !in a
    ensures Split(a) == [a]
  {
    SplitSeparatorFree(a, "");
    assert a + "" == a;
  }

  /** A separator-free prefix followed by '/' is split off as a segment of its own. */
  lemma SplitAtSeparator(a: string, b: string)
    requires '/' !in a
    ensures Split(a + "/" + b) == [a] + Split(b)
  {
    SplitSeparatorFree(a, "/" + b);
    assert a + "/" + b == a + ("/" + b);
    assert ("/" + b)[1..] == b;
    assert Split("/" + b) == [""] + Split(b);
    assert a + "" == a;
  }

  /** Splitting a join of separator-free segments gives back the segments. */
  lemma {:induction false} SplitJoin(segs: seq<string>)
    requires |segs| >= 1
    requires Separated(segs)
    ensures Split(Join(segs)) == segs
  {
    if |segs| == 1 {
      SplitSingle(segs[0]);
    } else {
      assert '/' !in segs[0];
      SplitJoin(segs[1..]);
      SplitAtSeparator(segs[0], Join(segs[1..]));
      assert segs == [segs[0]] + segs[1..];
    }
  }

  /** One step of resolution: "" and "." stay, ".." climbs (never above the root), a name descends. */
  function Step(dir: seq<string>, seg: string): seq<string>
  {
    if seg == "" || seg == "." then dir
    else if seg == ".." then (if |dir| == 0 then dir else dir[..|dir| - 1])
    else dir + [seg]
  }

  /** Resolves the segments `segs` one after another from directory `dir`. */
  function Walk(dir: seq<string>, segs: seq<string>): (r: seq<string>)
    ensures Normal(dir) && Separated(segs) ==> Normal(r)
    decreases |segs|
  {
    if |segs| == 0 then dir
    else Walk(Step(dir, segs[0]), segs[1..])
  }

  /** Walking a concatenation walks its halves in turn. */
  lemma {:induction false} WalkConcat(dir: seq<string>, a: seq<string>, b: seq<string>)
    requires Normal(dir)
    requires Separated(a) && Separated(b)
    ensures Separated(a + b)
    ensures Walk(dir, a + b) == Walk(Walk(dir, a), b)
    decreases |a|
  {
    assert Separated(a + b) by {
      forall i | 0 <= i < |a + b| ensures '/' !in (a + b)[i] {
        if i < |a| { assert (a + b)[i] == a[i]; } else { assert (a + b)[i] == b[i - |a|]; }
      }
    }
    if |a| > 0 {
      assert (a + b)[0] == a[0];
      assert (a + b)[1..] == a[1..] + b;
      WalkConcat(Step(dir, a[0]), a[1..], b);
    } else {
      assert a + b == b;
    }
  }

  /** Walking plain names appends them. */
  lemma {:induction false} WalkNames(dir: seq<string>, names: seq<string>)
    requires Normal(dir) && Normal(names)
    ensures Separated(names)
    ensures Walk(dir, names) == dir + names
    decreases |names|
  {
    if |names| > 0 {
      assert IsName(names[0]);
      assert Normal(names[1..]) by {
        forall i | 0 <= i < |names[1..]| ensures IsName(names[1..][i]) {
          assert names[1..][i] == names[i + 1];
        }
      }
      WalkNames(dir + [names[0]], names[1..]);
      assert dir + [names[0]] + names[1..] == dir + names;
    }
  }

  /** `k` steps up to the parent directory. */
  function Ups(k: nat): (r: seq<string>)
    ensures |r| == k
    ensures forall i :: 0 <= i < k ==> r[i] == ".."
  {
    seq(k, _ => "..")
  }

  /** Climbing `k` levels drops the last `k` names. */
  lemma {:induction false} WalkUps(dir: seq<string>, k: nat)
    requires Normal(dir)
    requires k <= |dir|
    ensures Separated(Ups(k))
    ensures Walk(dir, Ups(k)) == dir[..|dir| - k]
    decreases k
  {
    if k > 0 {
      var parent := dir[..|dir| - 1];
      assert Step(dir, "..") == parent;
      assert Ups(k)[1..] == Ups(k - 1);
      WalkUps(parent, k - 1);
      assert parent[..|parent| - (k - 1)] == dir[..|dir| - k];
    }
  }

  /** Resolves `p` the way the host does: from the root when it starts with '/', else from `cwd`. */
  function Resolve(cwd: seq<string>, p: string): (r: seq<string>)
    requires Normal(cwd)
    ensures Normal(r)
  {
    Walk(if |p| > 0 && p[0] == '/' then [] else cwd, Split(p))
  }

  /** "." resolves to the working directory itself. */
  lemma ResolveDot(cwd: seq<string>)
    requires Normal(cwd)
    ensures Resolve(cwd, ".") == cwd
  {
    SplitSingle(".");
    assert Step(cwd, ".") == cwd;
    assert Walk(cwd, ["."]) == Walk(cwd, ["."][1..]);
  }

  /**
   A path of entry names leads below the working directory; the same path
   behind a leading '/' leads below the root.
   */
  lemma ResolveNames(cwd: seq<string>, names: seq<string>)
    requires Normal(cwd) && Normal(names)
    requires |names| >= 1
    ensures Resolve(cwd, Join(names)) == cwd + names
    ensures Resolve(cwd, "/" + Join(names)) == names
  {
    var p := Join(names);
    WalkNames(cwd, names);
    WalkNames([], names);
    SplitJoin(names);
    assert IsName(names[0]);
    assert |p| > 0 && p[0] != '/' by {
      if |names| == 1 {
        assert p == names[0];
      } else {
        assert p == names[0] + "/" + Join(names[1..]);
        assert p[0] == names[0][0];
      }
    }
    assert ("/" + p)[1..] == p;
    assert Split("/" + p) == [""] + names;
    assert Walk([], [""] + names) == Walk(Step([], ""), names);
    assert [] + names == names;
  }

  /** Length of the longest common prefix of `a` and `b`. */
  function CommonPrefix(a: seq<string>, b: seq<string>): (n: nat)
    ensures n <= |a| && n <= |b|
    ensures a[..n] == b[..n]
    ensures n < |a| && n < |b| ==> a[n] != b[n]
  {
    if |a| == 0 || |b| == 0 || a[0] != b[0] then 0
    else
      var m := CommonPrefix(a[1..], b[1..]);
      assert a[..m + 1] == [a[0]] + a[1..][..m];
      assert b[..m + 1] == [b[0]] + b[1..][..m];
      1 + m
  }

  /** A slice of a normal location is normal. */
  lemma NormalSlice(p: seq<string>, lo: nat, hi: nat)
    requires Normal(p)
    requires lo <= hi <= |p|
    ensures Normal(p[lo..hi])
  {
    forall i | 0 <= i < hi - lo ensures IsName(p[lo..hi][i]) { assert p[lo..hi][i] == p[lo + i]; }
  }

  /** Climbing from `dir` to its first `n` names and then descending into `names` ends at those names plus `names`. */
  lemma ClimbThenDescend(dir: seq<string>, n: nat, names: seq<string>)
    requires Normal(dir) && Normal(names)
    requires n <= |dir|
    ensures Separated(Ups(|dir| - n) + names)
    ensures Walk(dir, Ups(|dir| - n) + names) == dir[..n] + names
  {
    var up := Ups(|dir| - n);
    NormalSlice(dir, 0, n);
    assert dir[0..n] == dir[..n];
    WalkConcat(dir, up, names);
    WalkUps(dir, |dir| - n);
    WalkNames(dir[..n], names);
  }

  /** `r` climbs `k` levels out of `from` and then descends into `names`, arriving at `to`. */
  predicate ClimbsThenDescends(from: seq<string>, to: seq<string>, r: seq<string>, k: nat, names: seq<string>) {
    k <= |from| && Normal(names) && r == Ups(k) + names && from[..|from| - k] + names == to
  }

  /**
   `r` leads from `from` to `to` by climbing and then descending, and does not
   descend straight back into the directory it last climbed out of.
   */
  ghost predicate DirectRoute(from: seq<string>, to: seq<string>, r: seq<string>) {
    exists k: nat, names: seq<string> ::
      && ClimbsThenDescends(from, to, r, k, names)
      && (k > 0 && |names| > 0 ==> from[|from| - k] != names[0])
  }

  /** No common prefix is longer than the one `CommonPrefix` finds. */
  lemma CommonPrefixMaximal(a: seq<string>, b: seq<string>, m: nat)
    requires m <= |a| && m <= |b|
    requires a[..m] == b[..m]
    ensures m <= CommonPrefix(a, b)
  {
  }

  /** Every segment is a climb ".." or an entry name. */
  predicate UpsOrNames(r: seq<string>) {
    forall i :: 0 <= i < |r| ==> r[i] == ".." || IsName(r[i])
  }

  /** Climbing past the common prefix and descending into the rest of `to` is a direct route. */
  lemma ClimbPastCommonPrefix(from: seq<string>, to: seq<string>, n: nat)
    requires Normal(to)
    requires n <= |from| && n <= |to|
    requires from[..n] == to[..n]
    requires n < |from| && n < |to| ==> from[n] != to[n]
    ensures UpsOrNames(Ups(|from| - n) + to[n..])
    ensures DirectRoute(from, to, Ups(|from| - n) + to[n..])
  {
    var r := Ups(|from| - n) + to[n..];
    NormalSlice(to, n, |to|);
    assert to[n..|to|] == to[n..];
    forall i | 0 <= i < |r| ensures r[i] == ".." || IsName(r[i]) {
      if i >= |from| - n { assert r[i] == to[n..][i - (|from| - n)]; }
    }
    assert from[..n] + to[n..] == to;
    assert ClimbsThenDescends(from, to, r, |from| - n, to[n..]);
    assert |from| - n > 0 && |to[n..]| > 0 ==> from[n] != to[n..][0];
  }

  /**
   The segments that lead from directory `from` to location `to`. Walking them
   from `from` arrives at `to`, and they form the direct route: climbs, then
   descents, never back into the directory just left.
   */
  function Relative(from: seq<string>, to: seq<string>): (r: seq<string>)
    requires Normal(from) && Normal(to)
    ensures Separated(r)
    ensures Walk(from, r) == to
    ensures UpsOrNames(r)
    ensures DirectRoute(from, to, r)
  {
    var n := CommonPrefix(from, to);
    NormalSlice(to, n, |to|);
    assert to[n..|to|] == to[n..];
    ClimbThenDescend(from, n, to[n..]);
    assert from[..n] + to[n..] == to;
    ClimbPastCommonPrefix(from, to, n);
    Ups(|from| - n) + to[n..]
  }

  /** The direct route is unique: any direct route from `from` to `to` is `Relative(from, to)`. */
  lemma DirectRouteUnique(from: seq<string>, to: seq<string>, r: seq<string>)
    requires Normal(from) && Normal(to)
    requires DirectRoute(from, to, r)
    ensures r == Relative(from, to)
  {
    var k: nat, names: seq<string> :|
      && ClimbsThenDescends(from, to, r, k, names)
      && (k > 0 && |names| > 0 ==> from[|from| - k] != names[0]);
    var n := CommonPrefix(from, to);
    var m := |from| - k;
    assert to[..m] == from[..m];
    CommonPrefixMaximal(from, to, m);
    assert m >= n;
    assert names == to[n..];
  }

  /** No route that climbs and then descends from `from` to `to` is shorter than `Relative(from, to)`. */
  lemma RelativeShortest(from: seq<string>, to: seq<string>, r: seq<string>, k: nat, names: seq<string>)
    requires Normal(from) && Normal(to)
    requires ClimbsThenDescends(from, to, r, k, names)
    ensures |Relative(from, to)| <= |r|
  {
    var m := |from| - k;
    assert to[..m] == from[..m];
    CommonPrefixMaximal(from, to, m);
  }

  /** A location below `dir` is reached by descending into its remaining names, with no "..". */
  lemma RelativeDescendant(dir: seq<string>, names: seq<string>)
    requires Normal(dir) && Normal(names)
    requires Normal(dir + names)
    ensures Relative(dir, dir + names) == names
  {
    var n := CommonPrefix(dir, dir + names);
    assert n == |dir|;
    assert (dir + names)[|dir|..] == names;
  }
}
