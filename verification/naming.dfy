/** Component names and categories: `File.extname`, `File.basename`, the
    infix pattern `\.(server|client)($|\.)` and the three file categories. */
module Naming {
  import opened Base
  import opened Text
  import opened Paths

  /** `File.basename` of a path: its last segment, "" for the root. */
  function Basename(p: Path): string {
    if |p| == 0 then "" else p[|p| - 1]
  }

  /** The path as Ruby prints it: every segment preceded by a slash. */
  function RenderAbs(p: Path): (s: string)
    ensures |p| > 0 ==> s == RenderAbs(Parent(p)) + "/" + Basename(p)
  {
    if |p| == 0 then "" else RenderAbs(Parent(p)) + "/" + p[|p| - 1]
  }

  /** The number of dots `b` starts with. */
  function LeadingDots(b: string): (n: nat)
    ensures n <= |b|
    ensures forall i :: 0 <= i < n ==> b[i] == '.'
    ensures n < |b| ==> b[n] != '.'
  {
    if |b| > 0 && b[0] == '.' then 1 + LeadingDots(b[1..]) else 0
  }

  /** The last dot of `b` before index `j`. */
  function LastDot(b: string, j: nat): (r: Option<nat>)
    requires j <= |b|
    ensures r.Some? ==> r.value < j && b[r.value] == '.'
    ensures r.Some? ==> forall i :: r.value < i < j ==> b[i] != '.'
    ensures r.None? ==> forall i :: 0 <= i < j ==> b[i] != '.'
  {
    if j == 0 then None
    else if b[j - 1] == '.' then Some(j - 1)
    else LastDot(b, j - 1)
  }

  /** Where `File.extname` starts: the last dot after the leading dots, if any. */
  function ExtStart(b: string): (r: Option<nat>)
    ensures r.Some? ==> 0 < r.value < |b| && b[r.value] == '.'
    ensures r.Some? ==> exists i :: 0 <= i < r.value && b[i] != '.'
    ensures r.Some? ==> forall i :: r.value < i < |b| ==> b[i] != '.'
    ensures r.None? ==> forall i :: LeadingDots(b) <= i < |b| ==> b[i] != '.'
  {
    var n := LeadingDots(b);
    match LastDot(b, |b|)
    case None => None
    case Some(k) => if n < k then Some(k) else None
  }

  /** `File.basename(b, File.extname(b))`: `b` without its last extension. */
  function Stem(b: string): (r: string)
    ensures |r| <= |b| && r == b[..|r|]
  {
    match ExtStart(b)
    case None => b
    case Some(k) => b[..k]
  }

  /** The length of a match of `\.(server|client)($|\.)` at `i`: 7 when the
      infix is followed by the end of the string or of a line, 8 when a dot
      follows and is consumed with it. */
  function MatchAt(s: string, i: nat): (r: Option<nat>)
    ensures r.Some? ==> i + r.value <= |s| && (r.value == 7 || r.value == 8)
    ensures r.Some? ==> s[i] == '.'
  {
    if !(At(s, ".server", i) || At(s, ".client", i)) then None
    else if i + 7 == |s| || s[i + 7] == '\n' then Some(7)
    else if s[i + 7] == '.' then Some(8)
    else None
  }

  /** The leftmost match of the infix pattern at or after `i`, as a position
      and a length. */
  function FirstMatch(s: string, i: nat): (r: Option<(nat, nat)>)
    decreases |s| - i
    ensures r.Some? ==> i <= r.value.0 && r.value.0 + r.value.1 <= |s| && r.value.1 >= 7
  {
    if i >= |s| then None
    else match MatchAt(s, i)
      case Some(n) => Some((i, n))
      case None => FirstMatch(s, i + 1)
  }

  /** `FirstMatch` finds the leftmost match and finds nothing only when there is none. */
  lemma {:induction false} FirstMatchIsFirst(s: string, i: nat)
    decreases |s| - i
    ensures FirstMatch(s, i).Some? ==>
      MatchAt(s, FirstMatch(s, i).value.0) == Some(FirstMatch(s, i).value.1)
    ensures FirstMatch(s, i).Some? ==>
      forall k :: i <= k < FirstMatch(s, i).value.0 ==> MatchAt(s, k).None?
    ensures FirstMatch(s, i).None? ==> forall k :: i <= k ==> MatchAt(s, k).None?
  {
    if i >= |s| {
      forall k | i <= k
        ensures MatchAt(s, k).None?
      {
        NoMatchAtEnd(s, k);
      }
    } else if MatchAt(s, i).None? {
      FirstMatchIsFirst(s, i + 1);
    }
  }

  /** The pattern cannot match where the text has ended. */
  lemma NoMatchAtEnd(s: string, k: nat)
    requires |s| <= k
    ensures MatchAt(s, k).None?
  {
    assert !At(s, ".server", k) && !At(s, ".client", k);
  }

  /** A match with none before it is the one `FirstMatch` finds. */
  lemma FirstMatchIs(s: string, i: nat, p: nat)
    requires i <= p && MatchAt(s, p).Some?
    requires forall k :: i <= k < p ==> MatchAt(s, k).None?
    ensures FirstMatch(s, i) == Some((p, MatchAt(s, p).value))
  {
    FirstMatchIsFirst(s, i);
  }

  /** `sub` with the infix pattern and an empty replacement: the leftmost
      match of the pattern is cut out. */
  function RemoveInfix(s: string): (r: string)
    ensures FirstMatch(s, 0).None? ==> r == s
    ensures FirstMatch(s, 0).Some? ==> |r| < |s|
    ensures forall i :: 0 <= i < |r| ==> r[i] in s
  {
    match FirstMatch(s, 0)
    case None => s
    case Some((p, n)) => s[..p] + s[p + n..]
  }

  /** `component_name` of a file whose basename is `b`. */
  function NameOf(b: string): string {
    RemoveInfix(Stem(b))
  }

  /** `component_name(file_path)`. */
  function ComponentName(p: Path): (r: string)
    ensures |r| <= |Basename(p)|
    ensures forall i :: 0 <= i < |r| ==> r[i] in Basename(p)
  {
    NameOf(Basename(p))
  }

  /** Listed by `grep_v(CONTAINS_CLIENT_OR_SERVER_REGEX)`: no match in the whole path. */
  predicate IsCommon(p: Path) {
    FirstMatch(RenderAbs(p), 0).None?
  }

  /** Listed by the glob `*.client.*`. */
  predicate IsClient(p: Path) {
    Contains(Basename(p), ".client.")
  }

  /** Listed by the glob `*.server.*`. */
  predicate IsServer(p: Path) {
    Contains(Basename(p), ".server.")
  }

  // ---------------------------------------------------------------------
  // Naming examples, in general form

  /** A string with no dot in it. */
  predicate DotFree(s: string) {
    forall i :: 0 <= i < |s| ==> s[i] != '.'
  }

  lemma StemOfDotFreeExt(n: string, ext: string)
    requires |n| > 0 && n[0] != '.' && DotFree(ext)
    ensures Stem(n + "." + ext) == n
  {
    var b := n + "." + ext;
    var last := LastDot(b, |b|);
    assert b[|n|] == '.';
    assert forall i :: |n| < i < |b| ==> b[i] == ext[i - |n| - 1];
    assert last == Some(|n|);
    assert LeadingDots(b) == 0;
    assert b[..|n|] == n;
  }

  /** No match starts inside a dot-free prefix. */
  lemma NoMatchInDotFree(s: string, n: nat)
    requires n <= |s| && forall i :: 0 <= i < n ==> s[i] != '.'
    ensures forall k :: 0 <= k < n ==> MatchAt(s, k).None?
  {
  }

  /** Property: a component's name is the stem of its basename with the
      leftmost infix match cut out, or the stem itself when nothing in it
      matches. This holds for every basename, whatever dots it contains. */
  lemma NameIsStemWithoutFirstInfix(b: string)
    ensures (forall k :: MatchAt(Stem(b), k).None?) ==> NameOf(b) == Stem(b)
    ensures (exists k :: MatchAt(Stem(b), k).Some?) ==> exists p: nat ::
      && MatchAt(Stem(b), p).Some?
      && (forall k :: 0 <= k < p ==> MatchAt(Stem(b), k).None?)
      && NameOf(b) == Stem(b)[..p] + Stem(b)[p + MatchAt(Stem(b), p).value..]
  {
    var s := Stem(b);
    FirstMatchIsFirst(s, 0);
    match FirstMatch(s, 0)
    case None =>
    case Some((p, n)) =>
      assert MatchAt(s, p) == Some(n);
      assert NameOf(b) == s[..p] + s[p + n..];
  }

  /** `Foo.js` names `Foo`. */
  lemma NameWithoutInfix(n: string, ext: string)
    requires |n| > 0 && DotFree(n) && DotFree(ext)
    ensures NameOf(n + "." + ext) == n
  {
    StemOfDotFreeExt(n, ext);
    FirstMatchIsFirst(n, 0);
    NoMatchInDotFree(n, |n|);
  }

  /** `Foo.client.js` and `Foo.server.jsx` name `Foo`. */
  lemma NameWithFinalInfix(n: string, tag: string, ext: string)
    requires tag == ".client" || tag == ".server"
    requires |n| > 0 && DotFree(n) && DotFree(ext)
    ensures NameOf(n + tag + "." + ext) == n
  {
    assert n + tag + "." + ext == (n + tag) + "." + ext;
    StemOfDotFreeExt(n + tag, ext);
    var s := n + tag;
    assert s[|n|..|n| + 7] == tag;
    assert MatchAt(s, |n|) == Some(7);
    NoMatchInDotFree(s, |n|);
    FirstMatchIs(s, 0, |n|);
    assert s[..|n|] == n;
  }

  /** `Foo.client.bar.js` names `Foobar`: the infix and the dot after it go. */
  lemma NameWithInnerInfix(n: string, tag: string, m: string, ext: string)
    requires tag == ".client" || tag == ".server"
    requires |n| > 0 && DotFree(n) && DotFree(m) && DotFree(ext)
    ensures NameOf(n + tag + "." + m + "." + ext) == n + m
  {
    var s := n + tag + "." + m;
    assert n + tag + "." + m + "." + ext == s + "." + ext;
    StemOfDotFreeExt(s, ext);
    assert s[|n|..|n| + 7] == tag;
    assert s[|n| + 7] == '.';
    assert MatchAt(s, |n|) == Some(8);
    NoMatchInDotFree(s, |n|);
    FirstMatchIs(s, 0, |n|);
    assert s[..|n|] == n && s[|n| + 8..] == m;
  }

  // ---------------------------------------------------------------------
  // Categories

  /** A match inside the basename is a match inside the whole path. */
  lemma MatchInBasename(p: Path, i: nat)
    requires |p| > 0 && MatchAt(Basename(p), i).Some?
    ensures !IsCommon(p)
  {
    var b := Basename(p);
    var pre := RenderAbs(Parent(p)) + "/";
    var s := RenderAbs(p);
    assert s == pre + b;
    AtShift(pre, b, ".client", i);
    AtShift(pre, b, ".server", i);
    if i + 7 < |b| {
      assert s[|pre| + i + 7] == b[i + 7];
    }
    assert MatchAt(s, |pre| + i).Some?;
    FirstMatchIsFirst(s, 0);
  }

  /** Client and server files are never common: the basename glob implies a
      match of the infix pattern. */
  lemma ClientOrServerIsNotCommon(p: Path)
    requires IsClient(p) || IsServer(p)
    ensures !IsCommon(p)
  {
    var b := Basename(p);
    var tag := if IsClient(p) then ".client." else ".server.";
    var i :| 0 <= i <= |b| && At(b, tag, i);
    GlobTagMatches(b, tag, i);
    MatchInBasename(p, i);
  }

  /** Where a glob tag `.client.` or `.server.` occurs, the infix pattern
      matches with its trailing dot. */
  lemma GlobTagMatches(b: string, tag: string, i: nat)
    requires tag == ".client." || tag == ".server."
    requires At(b, tag, i)
    ensures MatchAt(b, i) == Some(8)
  {
    assert b[i..i + 7] == tag[..7];
    assert b[i + 7] == tag[7];
  }

  /** A basename with a single dot is neither a client nor a server file. */
  lemma OneDotIsNeitherClientNorServer(p: Path, d: nat)
    requires d < |Basename(p)| && Basename(p)[d] == '.'
    requires forall i :: 0 <= i < |Basename(p)| && i != d ==> Basename(p)[i] != '.'
    ensures !IsClient(p) && !IsServer(p)
  {
    var b := Basename(p);
    forall i | 0 <= i <= |b| && i + 8 <= |b|
      ensures !At(b, ".client.", i) && !At(b, ".server.", i)
    {
      assert b[i] == b[i..i + 8][0] && b[i + 7] == b[i..i + 8][7];
    }
  }

  /** `Foo.client` (no extension after the infix) is in no category: the
      pattern matches at the end of the path, but neither glob does. */
  lemma BareInfixInNoCategory(dir: Path, n: string, tag: string)
    requires tag == ".client" || tag == ".server"
    requires DotFree(n)
    ensures !IsCommon(dir + [n + tag])
    ensures !IsClient(dir + [n + tag]) && !IsServer(dir + [n + tag])
  {
    var p := dir + [n + tag];
    assert Basename(p) == n + tag;
    BareInfixMatches(n, tag);
    MatchInBasename(p, |n|);
    BareInfixOneDot(n, tag);
    OneDotIsNeitherClientNorServer(p, |n|);
  }

  lemma BareInfixMatches(n: string, tag: string)
    requires tag == ".client" || tag == ".server"
    ensures MatchAt(n + tag, |n|) == Some(7)
  {
    assert (n + tag)[|n|..|n| + 7] == tag;
  }

  lemma BareInfixOneDot(n: string, tag: string)
    requires tag == ".client" || tag == ".server"
    requires DotFree(n)
    ensures |n| < |n + tag| && (n + tag)[|n|] == '.'
    ensures forall i :: 0 <= i < |n + tag| && i != |n| ==> (n + tag)[i] != '.'
  {
    var b := n + tag;
    forall i | 0 <= i < |b| && i != |n|
      ensures b[i] != '.'
    {
      if i < |n| {
        assert b[i] == n[i];
      } else {
        assert b[i] == tag[i - |n|];
      }
    }
  }
}
