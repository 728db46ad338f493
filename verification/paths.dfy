/** Lexical path arithmetic of Ruby's `Pathname`, over absolute paths given as
    lists of segments below the filesystem root. */
module Paths {
  import opened Text

  /** An absolute path: its segments below the root, in order. */
  type Path = seq<string>

  /** A segment as the generator's paths contain them: non-empty, without a
      slash, neither `.` nor `..`, and not ending in `..`. */
  predicate NormalSegment(x: string) {
    && |x| > 0
    && '/' !in x
    && x != "."
    && !(|x| >= 2 && x[|x| - 2] == '.' && x[|x| - 1] == '.')
  }

  predicate Normal(p: seq<string>) {
    forall i :: 0 <= i < |p| ==> NormalSegment(p[i])
  }

  /** `Pathname#parent`, lexically; the root is its own parent. */
  function Parent(p: Path): (r: Path)
    ensures |p| > 0 ==> |r| == |p| - 1 && p == r + [p[|p| - 1]]
    ensures |p| == 0 ==> r == []
  {
    if |p| == 0 then [] else p[..|p| - 1]
  }

  /** The length of the longest common prefix of two paths. */
  function CommonPrefixLength(a: Path, b: Path): (k: nat)
    ensures k <= |a| && k <= |b| && a[..k] == b[..k]
    ensures k < |a| && k < |b| ==> a[k] != b[k]
  {
    if |a| > 0 && |b| > 0 && a[0] == b[0] then
      var k := 1 + CommonPrefixLength(a[1..], b[1..]);
      assert a[..k] == [a[0]] + a[1..][..k - 1];
      assert b[..k] == [b[0]] + b[1..][..k - 1];
      k
    else 0
  }

  function Ups(n: nat): (r: seq<string>)
    ensures |r| == n && forall i :: 0 <= i < n ==> r[i] == ".."
  {
    if n == 0 then [] else [".."] + Ups(n - 1)
  }

  /** `Pathname#relative_path_from`: climb out of what `from` does not share
      with `to`, then descend; `.` when the two are equal. */
  function LexicalRelative(from: Path, to: Path): seq<string> {
    var k := CommonPrefixLength(from, to);
    var r := Ups(|from| - k) + to[k..];
    if r == [] then ["."] else r
  }

  /** `relative_path`: the lexical relative path with its first `../` removed. */
  function RelativePath(from: Path, to: Path): (r: seq<string>)
    ensures |r| > 0
    ensures |LexicalRelative(from, to)| - 1 <= |r| <= |LexicalRelative(from, to)|
  {
    var r := LexicalRelative(from, to);
    if |r| >= 2 && r[0] == ".." then r[1..] else r
  }

  /** `Pathname#to_s` of a relative path. */
  function Render(rel: seq<string>): string {
    Join(rel, "/")
  }

  /** Where a relative path leads from directory `base`, as a module loader
      resolves it: `..` climbs, `.` stays, any other segment descends. */
  function Resolve(base: Path, rel: seq<string>): Path
    decreases |rel|
  {
    if |rel| == 0 then base
    else if rel[0] == ".." then Resolve(Parent(base), rel[1..])
    else if rel[0] == "." then Resolve(base, rel[1..])
    else Resolve(base + [rel[0]], rel[1..])
  }

  lemma {:induction false} ResolveUps(base: Path, n: nat, rest: seq<string>)
    requires n <= |base|
    ensures Resolve(base, Ups(n) + rest) == Resolve(base[..|base| - n], rest)
  {
    if n > 0 {
      assert (Ups(n) + rest)[1..] == Ups(n - 1) + rest;
      ResolveUps(Parent(base), n - 1, rest);
      assert Parent(base)[..|Parent(base)| - (n - 1)] == base[..|base| - n];
    } else {
      assert Ups(n) + rest == rest;
      assert base[..|base| - n] == base;
    }
  }

  lemma {:induction false} ResolveNormal(base: Path, rest: seq<string>)
    requires Normal(rest)
    ensures Resolve(base, rest) == base + rest
    decreases |rest|
  {
    if |rest| > 0 {
      assert NormalSegment(rest[0]);
      assert rest[0] != "..";
      ResolveNormal(base + [rest[0]], rest[1..]);
      assert base + [rest[0]] + rest[1..] == base + rest;
    }
  }

  lemma ResolveUpsTo(base: Path, m: nat, rest: seq<string>)
    requires m <= |base|
    ensures Resolve(base, Ups(|base| - m) + rest) == Resolve(base[..m], rest)
  {
    ResolveUps(base, |base| - m, rest);
    assert base[..|base| - (|base| - m)] == base[..m];
  }

  lemma NormalSuffix(p: seq<string>, k: nat)
    requires Normal(p) && k <= |p|
    ensures Normal(p[k..])
  {
    assert forall i :: 0 <= i < |p| - k ==> p[k..][i] == p[k + i];
  }

  /** Climbing out of `dir` to a prefix it shares with `to`, then
      descending the rest of `to`, leads to `to`. */
  lemma ClimbThenDescend(to: Path, k: nat, dir: Path)
    requires Normal(to) && k <= |to| && k <= |dir| && dir[..k] == to[..k]
    ensures Resolve(dir, Ups(|dir| - k) + to[k..]) == to
  {
    var rest := to[k..];
    ResolveUpsTo(dir, k, rest);
    NormalSuffix(to, k);
    ResolveNormal(to[..k], rest);
    assert to[..k] + rest == to;
  }

  /** Property: the lexical relative path, resolved from `from`, leads to `to`. */
  lemma ResolveLexicalRelative(from: Path, to: Path)
    requires Normal(to)
    ensures Resolve(from, LexicalRelative(from, to)) == to
  {
    var k := CommonPrefixLength(from, to);
    if |from| == k && |to| == k {
      assert Ups(|from| - k) + to[k..] == [];
      assert LexicalRelative(from, to) == ["."];
      assert from == from[..k] && to == to[..k];
      assert Resolve(from, ["."]) == Resolve(from, []);
    } else {
      assert |Ups(|from| - k) + to[k..]| > 0;
      ClimbThenDescend(to, k, from);
    }
  }

  /** `to` lies at or below `from`. */
  predicate Below(from: Path, to: Path) {
    |from| <= |to| && to[..|from|] == from
  }

  /** The file named `name` directly in the directory `dir`. */
  function FileIn(dir: Path, name: string): (r: Path)
    ensures |r| == |dir| + 1 && Below(dir, r) && r[|dir|] == name
  {
    var r := dir + [name];
    assert r[..|dir|] == dir;
    r
  }

  lemma FileInSubdir(p: Path, dir: string, name: string)
    ensures FileIn(p + [dir], name) == p + [dir, name]
  {
    assert p + [dir] + [name] == p + [dir, name];
  }

  /** Of two paths of one length, one lies at or below the other only when
      they are the same path. */
  lemma BelowSameLength(a: Path, b: Path)
    requires |a| == |b|
    ensures Below(a, b) <==> a == b
  {
    assert b[..|b|] == b;
  }

  /** Property: dropping the first `../` turns the path relative to the file
      `from` into one relative to the directory that holds `from`, so an
      import written in `from` resolves to `to`. This needs `to` to lie
      neither below `from` nor be that directory itself. */
  lemma ImportResolves(from: Path, to: Path)
    requires Normal(to)
    requires |from| > 0 && !Below(from, to) && to != Parent(from)
    ensures Resolve(Parent(from), RelativePath(from, to)) == to
  {
    var k := CommonPrefixLength(from, to);
    var dir := Parent(from);
    RelativeDropsOneUp(from, to);
    assert dir[..k] == to[..k];
    ClimbThenDescend(to, k, dir);
  }

  /** Outside `from` and its directory, `to` shares less than all of `from`,
      and the relative path has a segment after its first `..`. */
  lemma ClimbsOut(from: Path, to: Path)
    requires |from| > 0 && !Below(from, to) && to != Parent(from)
    ensures CommonPrefixLength(from, to) < |from|
    ensures CommonPrefixLength(from, to) + 1 < |from| || CommonPrefixLength(from, to) < |to|
  {
    var k := CommonPrefixLength(from, to);
    assert k == |from| ==> Below(from, to);
    OneShortIsParent(from, to);
  }

  /** Sharing all of `to` and all of `from` but its last segment makes `to`
      the directory of `from`. */
  lemma OneShortIsParent(from: Path, to: Path)
    ensures CommonPrefixLength(from, to) + 1 == |from| && CommonPrefixLength(from, to) == |to| ==>
      to == Parent(from)
  {
    var k := CommonPrefixLength(from, to);
    if k + 1 == |from| && k == |to| {
      assert to == to[..k] && from[..k] == Parent(from);
    }
  }

  lemma UpsDrop(m: nat, rest: seq<string>)
    requires m > 0
    ensures (Ups(m) + rest)[0] == ".."
    ensures (Ups(m) + rest)[1..] == Ups(m - 1) + rest
  {
  }

  /** Outside `from` and its directory, the relative path climbs at least
      once more than the first `../` that `relative_path` drops. */
  lemma RelativeDropsOneUp(from: Path, to: Path)
    requires |from| > 0 && !Below(from, to) && to != Parent(from)
    ensures CommonPrefixLength(from, to) < |from|
    ensures RelativePath(from, to) ==
      Ups(|from| - CommonPrefixLength(from, to) - 1) + to[CommonPrefixLength(from, to)..]
  {
    ClimbsOut(from, to);
    var k := CommonPrefixLength(from, to);
    var m := |from| - k;
    var r := Ups(m) + to[k..];
    UpsDrop(m, to[k..]);
    assert |r| >= 2 && r[0] == "..";
    assert LexicalRelative(from, to) == r;
    assert RelativePath(from, to) == r[1..];
  }

  /** No `../` occurs in normal segments joined by slashes. */
  lemma {:induction false} NoParentStep(parts: seq<string>)
    requires Normal(parts)
    ensures forall i :: !At(Render(parts), "../", i)
  {
    var s := Render(parts);
    if |parts| == 1 {
      forall i | 0 <= i && i + 3 <= |s|
        ensures !At(s, "../", i)
      {
        assert s[i..i + 3][2] == s[i + 2];
      }
    } else if |parts| > 1 {
      var p0 := parts[0];
      var t := Render(parts[1..]);
      NoParentStep(parts[1..]);
      assert s == (p0 + "/") + t;
      assert NormalSegment(p0);
      forall i | 0 <= i && i + 3 <= |s|
        ensures !At(s, "../", i)
      {
        assert s[i..i + 3][0] == s[i] && s[i..i + 3][1] == s[i + 1] && s[i..i + 3][2] == s[i + 2];
        if i + 2 < |p0| {
          assert s[i + 2] == p0[i + 2];
        } else if i + 2 == |p0| {
          assert s[i] == p0[|p0| - 2] && s[i + 1] == p0[|p0| - 1];
        } else if i > |p0| {
          AtShift(p0 + "/", t, "../", i - |p0| - 1);
        }
      }
    }
  }

  /** Property: `relative_path_from(...).sub("../", "")` on the printed path
      is `RelativePath` printed. */
  lemma RenderRelativePath(from: Path, to: Path)
    requires Normal(to)
    ensures Render(RelativePath(from, to)) == ReplaceFirst(Render(LexicalRelative(from, to)), "../", "")
  {
    var r := LexicalRelative(from, to);
    var s := Render(r);
    var k := CommonPrefixLength(from, to);
    if |r| >= 2 && r[0] == ".." {
      assert s == ".." + "/" + Render(r[1..]);
      assert At(s, "../", 0);
      IndexOfIs(s, "../", 0, 0);
      assert s[3..] == Render(r[1..]);
    } else if |from| - k > 0 {
      assert r == [".."];
      IndexOfNone(s, "../", 0);
    } else if r == ["."] {
      IndexOfNone(s, "../", 0);
    } else {
      assert Ups(0) + to[k..] == to[k..];
      assert r == to[k..];
      NoParentStep(r);
      IndexOfNone(s, "../", 0);
    }
  }

  /** `relative_path(from, to)` as the generator computes it: the printed
      lexical relative path with its first `../` removed. */
  function RelativePathText(from: Path, to: Path): string {
    ReplaceFirst(Render(LexicalRelative(from, to)), "../", "")
  }

  /** Property: an import written in file `from` with the text
      `relative_path(from, to)` leads to `to`, provided `to` lies neither
      below `from` nor is the directory that holds it. */
  lemma RelativePathTextResolves(from: Path, to: Path)
    requires Normal(to)
    requires |from| > 0 && !Below(from, to) && to != Parent(from)
    ensures RelativePathText(from, to) == Render(RelativePath(from, to))
    ensures Resolve(Parent(from), RelativePath(from, to)) == to
  {
    RenderRelativePath(from, to);
    ImportResolves(from, to);
  }
}
