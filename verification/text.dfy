/** Character classes and string primitives of Ruby's `String`, restricted to
    what the packs generator uses: `\s`, `strip`, `index`, `sub`, `join`. */
module Text {
  import opened Base

  /** Ruby's `\s`: space, tab, line feed, vertical tab, form feed, carriage return. */
  predicate IsSpace(c: char) {
    c == ' ' || c == '\t' || c == '\n' || c == '\U{B}' || c == '\U{C}' || c == '\r'
  }

  /** The characters `String#strip` removes: `\s` and NUL. */
  predicate IsStripSpace(c: char) {
    IsSpace(c) || c == '\0'
  }

  /** The index of the first non-blank character of `s` at or after `i`. */
  function BlankEnd(s: string, i: nat): (k: nat)
    requires i <= |s|
    decreases |s| - i
    ensures i <= k <= |s|
    ensures k < |s| ==> !IsStripSpace(s[k])
  {
    if i < |s| && IsStripSpace(s[i]) then BlankEnd(s, i + 1) else i
  }

  /** The index just past the last non-blank character of `s` before `j`,
      searching no lower than `lo`. */
  function BlankStart(s: string, lo: nat, j: nat): (k: nat)
    requires lo <= j <= |s|
    decreases j
    ensures lo <= k <= j
    ensures k > lo ==> !IsStripSpace(s[k - 1])
  {
    if j > lo && IsStripSpace(s[j - 1]) then BlankStart(s, lo, j - 1) else j
  }

  /** `String#strip`: `s` without the blank characters at both ends. */
  function Strip(s: string): (r: string)
    ensures r == [] || (!IsStripSpace(r[0]) && !IsStripSpace(r[|r| - 1]))
  {
    var i := BlankEnd(s, 0);
    s[i..BlankStart(s, i, |s|)]
  }

  lemma {:induction false} BlankEndSkipsBlanks(s: string, i: nat)
    requires i <= |s|
    decreases |s| - i
    ensures forall k :: i <= k < BlankEnd(s, i) ==> IsStripSpace(s[k])
  {
    if i < |s| && IsStripSpace(s[i]) {
      BlankEndSkipsBlanks(s, i + 1);
    }
  }

  lemma {:induction false} BlankStartSkipsBlanks(s: string, lo: nat, j: nat)
    requires lo <= j <= |s|
    decreases j
    ensures forall k :: BlankStart(s, lo, j) <= k < j ==> IsStripSpace(s[k])
  {
    if j > lo && IsStripSpace(s[j - 1]) {
      BlankStartSkipsBlanks(s, lo, j - 1);
    }
  }

  /** Stripping keeps a contiguous slice and drops only blanks around it. */
  lemma StripIsSlice(s: string)
    ensures exists i, j ::
      && 0 <= i <= j <= |s| && Strip(s) == s[i..j]
      && (forall k :: 0 <= k < i ==> IsStripSpace(s[k]))
      && (forall k :: j <= k < |s| ==> IsStripSpace(s[k]))
  {
    var i := BlankEnd(s, 0);
    BlankEndSkipsBlanks(s, 0);
    BlankStartSkipsBlanks(s, i, |s|);
    var j := BlankStart(s, i, |s|);
    assert Strip(s) == s[i..j];
  }

  /** Stripping adds no character. */
  lemma StripKeepsOut(s: string, c: char)
    requires c !in s
    ensures c !in Strip(s)
  {
  }

  /** Stripping text that ends in one line feed, and is otherwise trimmed,
      removes just that line feed. */
  lemma StripFinalNewline(t: string)
    requires |t| > 0 && !IsStripSpace(t[0]) && !IsStripSpace(t[|t| - 1])
    ensures Strip(t + "\n") == t
  {
    var s := t + "\n";
    assert BlankEnd(s, 0) == 0;
    assert BlankStart(s, 0, |t|) == |t|;
    assert BlankStart(s, 0, |s|) == |t|;
    assert s[0..|t|] == t;
  }

  /** `pat` occurs in `s` at position `i`. */
  predicate At(s: string, pat: string, i: int) {
    0 <= i && i + |pat| <= |s| && s[i..i + |pat|] == pat
  }

  /** A two-character pattern occurs exactly where its two characters do. */
  lemma AtPair(s: string, pat: string, i: int)
    requires |pat| == 2 && 0 <= i && i + 2 <= |s|
    ensures At(s, pat, i) <==> s[i] == pat[0] && s[i + 1] == pat[1]
  {
    if s[i] == pat[0] && s[i + 1] == pat[1] {
      assert s[i..i + 2] == pat;
    }
  }

  /** `String#index(pat, from)`: the first occurrence of `pat` at or after `from`. */
  function IndexOf(s: string, pat: string, from: nat): (r: Option<nat>)
    decreases |s| - from
    ensures r.Some? ==> from <= r.value && r.value + |pat| <= |s|
  {
    if from + |pat| > |s| then None
    else if s[from..from + |pat|] == pat then Some(from)
    else IndexOf(s, pat, from + 1)
  }

  /** `IndexOf` finds the first occurrence at or after `from`, and finds
      nothing only when there is none. */
  lemma {:induction false} IndexOfFirst(s: string, pat: string, from: nat)
    decreases |s| - from
    ensures IndexOf(s, pat, from).Some? ==> At(s, pat, IndexOf(s, pat, from).value)
    ensures IndexOf(s, pat, from).Some? ==>
      forall k :: from <= k < IndexOf(s, pat, from).value ==> !At(s, pat, k)
    ensures IndexOf(s, pat, from).None? ==> forall k :: from <= k ==> !At(s, pat, k)
  {
    if from + |pat| <= |s| && s[from..from + |pat|] != pat {
      IndexOfFirst(s, pat, from + 1);
    }
  }

  /** An occurrence with none before it, at or after `from`, is what `IndexOf` finds. */
  lemma IndexOfIs(s: string, pat: string, from: nat, e: nat)
    requires from <= e && At(s, pat, e)
    requires forall k :: from <= k < e ==> !At(s, pat, k)
    ensures IndexOf(s, pat, from) == Some(e)
  {
    IndexOfFirst(s, pat, from);
  }

  /** With no occurrence at or after `from`, `IndexOf` finds nothing. */
  lemma IndexOfNone(s: string, pat: string, from: nat)
    requires forall k :: from <= k ==> !At(s, pat, k)
    ensures IndexOf(s, pat, from) == None
  {
    IndexOfFirst(s, pat, from);
  }

  /** `pat` occurs somewhere in `s`. */
  predicate Contains(s: string, pat: string) {
    exists i :: 0 <= i <= |s| && At(s, pat, i)
  }

  /** An occurrence in the right operand of a concatenation is one in the whole. */
  lemma AtShift(p: string, s: string, pat: string, k: int)
    requires 0 <= k
    ensures At(p + s, pat, |p| + k) <==> At(s, pat, k)
  {
    if 0 <= k && k + |pat| <= |s| {
      assert (p + s)[|p| + k..|p| + k + |pat|] == s[k..k + |pat|];
    }
  }

  /** `String#index` on `p + s` from inside `s` is `String#index` on `s`, shifted. */
  lemma IndexOfShift(p: string, s: string, pat: string, j: nat)
    ensures IndexOf(p + s, pat, |p| + j) ==
      (match IndexOf(s, pat, j) case None => None case Some(n) => Some(|p| + n))
  {
    var a := IndexOf(p + s, pat, |p| + j);
    var b := IndexOf(s, pat, j);
    IndexOfFirst(p + s, pat, |p| + j);
    IndexOfFirst(s, pat, j);
    forall k | 0 <= k
      ensures At(p + s, pat, |p| + k) <==> At(s, pat, k)
    {
      AtShift(p, s, pat, k);
    }
    if a.Some? {
      AtShift(p, s, pat, a.value - |p|);
    }
  }

  /** `Array#join(sep)`. */
  function Join(parts: seq<string>, sep: string): (r: string)
    ensures |parts| == 0 ==> r == []
    ensures |parts| == 1 ==> r == parts[0]
  {
    if |parts| == 0 then []
    else if |parts| == 1 then parts[0]
    else parts[0] + sep + Join(parts[1..], sep)
  }

  /** `String#sub(pat, rep)` with a literal pattern: replace the first occurrence. */
  function ReplaceFirst(s: string, pat: string, rep: string): (r: string)
    ensures IndexOf(s, pat, 0).None? ==> r == s
    ensures IndexOf(s, pat, 0).Some? ==> |r| == |s| - |pat| + |rep|
  {
    match IndexOf(s, pat, 0)
    case None => s
    case Some(i) => s[..i] + rep + s[i + |pat|..]
  }

  /** Property: `sub` replaces the leftmost occurrence of the pattern and
      keeps the text around it, and changes nothing when there is none. */
  lemma ReplaceFirstIsFirst(s: string, pat: string, rep: string)
    ensures (forall k :: !At(s, pat, k)) ==> ReplaceFirst(s, pat, rep) == s
    ensures (exists k :: At(s, pat, k)) ==> exists i ::
      && At(s, pat, i)
      && (forall k :: 0 <= k < i ==> !At(s, pat, k))
      && ReplaceFirst(s, pat, rep) == s[..i] + rep + s[i + |pat|..]
  {
    IndexOfFirst(s, pat, 0);
    match IndexOf(s, pat, 0)
    case None =>
      assert ReplaceFirst(s, pat, rep) == s;
    case Some(i) =>
      assert At(s, pat, i);
      assert ReplaceFirst(s, pat, rep) == s[..i] + rep + s[i + |pat|..];
  }
}