/** The directive scanner: finds the first JavaScript statement of a source
    text, skipping whitespace and comments, and decides whether that
    statement is a `"use client"` directive. */
module DirectiveScanner {
  import opened Base
  import opened Text

  // A comment opener, `/` followed by `second`, starts at position `i`.
  predicate StartsComment(c: string, i: nat, second: char) {
    i + 1 < |c| && c[i] == '/' && c[i + 1] == second
  }

  /** What one turn of the source's loop does at a non-blank position `i`. */
  datatype Step = Skip(next: nat) | Stop(statement: string)

  // One turn of the loop at position `i`: skip a blank, skip a line comment
  // through its newline, skip a block comment through the first `*/`
  // searched from the opening `/*` itself, or stop with the stripped rest
  // of the current line; an unterminated comment stops with "".
  function StepAt(c: string, i: nat): (s: Step)
    requires i < |c|
    ensures s.Skip? ==> i < s.next <= |c|
    ensures s.Stop? ==> '\n' !in s.statement
  {
    if IsSpace(c[i]) then Skip(i + 1)
    else if StartsComment(c, i, '/') then
      match IndexOf(c, "\n", i)
      case None => Stop("")
      case Some(n) => Skip(n + 1)
    else if StartsComment(c, i, '*') then
      match IndexOf(c, "*/", i)
      case None => Stop("")
      case Some(e) =>
        IndexOfFirst(c, "*/", i);
        assert !At(c, "*/", i);
        Skip(e + 2)
    else Stop(StatementAt(c, i))
  }

  /** The first statement of the text `t`: step from its start until a stop. */
  function Scan(t: string): (r: string)
    decreases |t|
    ensures '\n' !in r
  {
    if |t| == 0 then ""
    else
      match StepAt(t, 0)
      case Skip(n) => Scan(t[n..])
      case Stop(r) => r
  }

  /** Where the line starting at `i` ends: the next newline, or the end of the text. */
  function LineEnd(c: string, i: nat): (n: nat)
    requires i <= |c|
    ensures i <= n <= |c|
    ensures n < |c| ==> c[n] == '\n'
    ensures '\n' !in c[i..n]
  {
    match IndexOf(c, "\n", i)
    case Some(n) =>
      IndexOfFirst(c, "\n", i);
      NoNewlineBefore(c, i, n);
      assert c[n..n + 1] == "\n";
      n
    case None =>
      IndexOfFirst(c, "\n", i);
      NoNewlineBefore(c, i, |c|);
      |c|
  }

  /** No occurrence of "\n" between `i` and `n` means no newline character there. */
  lemma NoNewlineBefore(c: string, i: nat, n: nat)
    requires i <= n <= |c|
    requires forall k :: i <= k < n ==> !At(c, "\n", k)
    ensures '\n' !in c[i..n]
  {
    forall k | i <= k < n
      ensures c[k] != '\n'
    {
      assert c[k..k + 1] == [c[k]];
      assert !At(c, "\n", k);
    }
  }

  /** The stripped text from `i` up to the next newline, or to the end. */
  function StatementAt(c: string, i: nat): (r: string)
    requires i <= |c|
    ensures '\n' !in r
  {
    var line := c[i..LineEnd(c, i)];
    StripKeepsOut(line, '\n');
    Strip(line)
  }

  /** `first_js_statement_in_code` as a function of the whole text. */
  function FirstStatement(content: string): string {
    Scan(content)
  }

  /** One turn of the source's loop after the blanks are skipped: the `case`
      on the next two characters. */
  method CommentOrStatement(content: string, start: nat) returns (s: Step)
    requires start < |content| && !IsSpace(content[start])
    ensures s == StepAt(content, start)
    ensures StartsComment(content, start, '/') ==>
      && (s.Skip? ==> content[s.next - 1] == '\n' && '\n' !in content[start..s.next - 1])
      && (s.Stop? ==> s.statement == "" && '\n' !in content[start..])
    ensures StartsComment(content, start, '*') ==>
      && (s.Skip? ==>
            && At(content, "*/", s.next - 2)
            && (forall k :: start <= k < s.next - 2 ==> !At(content, "*/", k)))
      && (s.Stop? ==> s.statement == "" && forall k :: start <= k ==> !At(content, "*/", k))
    ensures !StartsComment(content, start, '/') && !StartsComment(content, start, '*') ==>
      s == Stop(Strip(content[start..LineEnd(content, start)]))
  {
    StepMeaning(content, start);
    if StartsComment(content, start, '/') {
      var newline := IndexOf(content, "\n", start);
      if newline.None? {
        return Stop("");
      }
      return Skip(newline.value + 1);
    } else if StartsComment(content, start, '*') {
      var commentEnd := IndexOf(content, "*/", start);
      if commentEnd.None? {
        return Stop("");
      }
      return Skip(commentEnd.value + 2);
    }
    return Stop(StatementAt(content, start));
  }

  /** One step skips a line comment just past the first newline after it,
      skips a block comment just past the first star-slash at or after its opener,
      stops with "" when either is unterminated, and otherwise stops with the
      stripped rest of the line. */
  lemma StepMeaning(c: string, i: nat)
    requires i < |c| && !IsSpace(c[i])
    ensures StartsComment(c, i, '/') ==>
      && (StepAt(c, i).Skip? ==>
            c[StepAt(c, i).next - 1] == '\n' && '\n' !in c[i..StepAt(c, i).next - 1])
      && (StepAt(c, i).Stop? ==> StepAt(c, i).statement == "" && '\n' !in c[i..])
    ensures StartsComment(c, i, '*') ==>
      && (StepAt(c, i).Skip? ==>
            && At(c, "*/", StepAt(c, i).next - 2)
            && (forall k :: i <= k < StepAt(c, i).next - 2 ==> !At(c, "*/", k)))
      && (StepAt(c, i).Stop? ==> StepAt(c, i).statement == "" && forall k :: i <= k ==> !At(c, "*/", k))
    ensures !StartsComment(c, i, '/') && !StartsComment(c, i, '*') ==>
      StepAt(c, i) == Stop(Strip(c[i..LineEnd(c, i)]))
  {
    if StartsComment(c, i, '/') {
      IndexOfFirst(c, "\n", i);
      match IndexOf(c, "\n", i)
      case None =>
        NoNewlineBefore(c, i, |c|);
        assert c[i..|c|] == c[i..];
      case Some(n) =>
        NoNewlineBefore(c, i, n);
        assert c[n..n + 1] == "\n";
    } else if StartsComment(c, i, '*') {
      IndexOfFirst(c, "*/", i);
    }
  }

  /** `first_js_statement_in_code`: the index-based loop of the source. */
  method FirstJsStatement(content: string) returns (r: string)
    ensures r == FirstStatement(content)
    ensures |content| == 0 ==> r == ""
    ensures '\n' !in r
  {
    if |content| == 0 {
      return "";
    }
    var start := 0;
    assert content[start..] == content;
    while start < |content|
      invariant start <= |content|
      invariant Scan(content[start..]) == Scan(content)
      decreases |content| - start
    {
      while start < |content| && IsSpace(content[start])
        invariant start <= |content|
        invariant Scan(content[start..]) == Scan(content)
        decreases |content| - start
      {
        ScanSkipsBlank(content, start);
        start := start + 1;
      }
      if start >= |content| {
        break;
      }
      var step := CommentOrStatement(content, start);
      ScanTakesStep(content, start);
      if step.Stop? {
        return step.statement;
      }
      start := step.next;
    }
    assert content[start..] == [];
    return "";
  }

  // ---------------------------------------------------------------------
  // Where the scan starts does not matter, only what follows it.

  lemma LineEndShift(p: string, s: string, j: nat)
    requires j <= |s|
    ensures LineEnd(p + s, |p| + j) == |p| + LineEnd(s, j)
  {
    IndexOfShift(p, s, "\n", j);
  }

  lemma SliceOfSuffix(p: string, s: string, j: nat, n: nat)
    requires j <= n <= |s|
    ensures (p + s)[|p| + j..|p| + n] == s[j..n]
  {
  }

  lemma StatementAtShift(p: string, s: string, j: nat)
    requires j <= |s|
    ensures StatementAt(p + s, |p| + j) == StatementAt(s, j)
  {
    var n := LineEnd(s, j);
    LineEndShift(p, s, j);
    SliceOfSuffix(p, s, j, n);
    var line := s[j..n];
    assert StatementAt(s, j) == Strip(line);
    assert StatementAt(p + s, |p| + j) == Strip(line);
  }

  lemma StepAtShift(p: string, s: string, j: nat)
    requires j < |s|
    ensures StepAt(s, j).Skip? ==> StepAt(p + s, |p| + j) == Skip(|p| + StepAt(s, j).next)
    ensures StepAt(s, j).Stop? ==> StepAt(p + s, |p| + j) == StepAt(s, j)
  {
    var c := p + s;
    var i := |p| + j;
    assert c[i] == s[j];
    if IsSpace(s[j]) {
    } else if StartsComment(s, j, '/') {
      assert c[i + 1] == s[j + 1];
      IndexOfShift(p, s, "\n", j);
    } else if StartsComment(s, j, '*') {
      assert c[i + 1] == s[j + 1];
      IndexOfShift(p, s, "*/", j);
    } else {
      assert !StartsComment(c, i, '/') && !StartsComment(c, i, '*') by {
        if i + 1 < |c| {
          assert c[i + 1] == s[j + 1];
        }
      }
      StatementAtShift(p, s, j);
    }
  }

  lemma ScanSkipsBlank(c: string, i: nat)
    requires i < |c| && IsSpace(c[i])
    ensures Scan(c[i..]) == Scan(c[i + 1..])
  {
    assert c[i..][0] == c[i];
    StepAtSuffix(c, i);
  }

  lemma ScanTakesStep(c: string, i: nat)
    requires i < |c|
    ensures StepAt(c, i).Skip? ==> Scan(c[i..]) == Scan(c[StepAt(c, i).next..])
    ensures StepAt(c, i).Stop? ==> Scan(c[i..]) == StepAt(c, i).statement
  {
    StepAtSuffix(c, i);
  }

  /** One turn of the loop at `i` is the first turn of a scan of the rest
      of the text from `i`. */
  lemma StepAtSuffix(c: string, i: nat)
    requires i < |c|
    ensures StepAt(c[i..], 0).Skip? ==>
      && StepAt(c, i) == Skip(i + StepAt(c[i..], 0).next)
      && Scan(c[i..]) == Scan(c[i + StepAt(c[i..], 0).next..])
    ensures StepAt(c[i..], 0).Stop? ==>
      StepAt(c, i) == StepAt(c[i..], 0) && Scan(c[i..]) == StepAt(c, i).statement
  {
    assert c[..i] + c[i..] == c;
    StepAtShift(c[..i], c[i..], 0);
    var t := c[i..];
    if StepAt(t, 0).Skip? {
      assert t[StepAt(t, 0).next..] == c[i + StepAt(t, 0).next..];
    }
  }

  // ---------------------------------------------------------------------
  // An independent description of what the scanner skips.

  /** A piece of source text the scanner passes over. */
  datatype Skippable =
    | Blank(c: char)
    | LineComment(body: string)
    | BlockComment(body: string)

  /** The piece is skipped as a unit: a blank is `\s`, a line comment body
      has no newline, and a block comment closes at its own final `*` `/`
      (no earlier close, counting the opening star). */
  predicate WellFormed(t: Skippable) {
    match t
    case Blank(c) => IsSpace(c)
    case LineComment(body) => '\n' !in body
    case BlockComment(body) => !Contains("*" + body, "*/")
  }

  function TokenText(t: Skippable): string {
    match t
    case Blank(c) => [c]
    case LineComment(body) => "//" + body + "\n"
    case BlockComment(body) => "/*" + body + "*/"
  }

  function Flatten(ts: seq<Skippable>): string {
    if |ts| == 0 then "" else TokenText(ts[0]) + Flatten(ts[1..])
  }

  /** The first close of a well-formed block comment is its last two characters. */
  lemma BlockCommentCloses(body: string, rest: string)
    requires !Contains("*" + body, "*/")
    ensures IndexOf("/*" + body + "*/" + rest, "*/", 0) == Some(|body| + 2)
  {
    var c := "/*" + body + "*/" + rest;
    var e := |body| + 2;
    var sb := "*" + body;
    AtPair(c, "*/", e);
    forall k | 0 <= k < e
      ensures !At(c, "*/", k)
    {
      AtPair(c, "*/", k);
      if k == 0 {
        assert c[0] == '/';
      } else if k == e - 1 {
        assert c[k + 1] == '*';
      } else {
        assert c[k] == sb[k - 1] && c[k + 1] == sb[k];
        AtPair(sb, "*/", k - 1);
        assert !At(sb, "*/", k - 1);
      }
    }
    IndexOfIs(c, "*/", 0, e);
  }

  lemma LineCommentStep(body: string, rest: string)
    requires '\n' !in body
    ensures StepAt("//" + body + "\n" + rest, 0) == Skip(|body| + 3)
  {
    var c := "//" + body + "\n" + rest;
    var n := |body| + 2;
    assert c[0] == '/' && c[1] == '/';
    assert c[n..n + 1] == "\n";
    forall k | 0 <= k < n
      ensures !At(c, "\n", k)
    {
      assert c[k..k + 1] == [c[k]];
      if k >= 2 {
        assert c[k] == body[k - 2];
      }
    }
    IndexOfIs(c, "\n", 0, n);
  }

  lemma BlockCommentStep(body: string, rest: string)
    requires !Contains("*" + body, "*/")
    ensures StepAt("/*" + body + "*/" + rest, 0) == Skip(|body| + 4)
  {
    var c := "/*" + body + "*/" + rest;
    BlockCommentCloses(body, rest);
    assert c[0] == '/' && c[1] == '*';
  }

  /** The scanner passes over a well-formed piece in one step. */
  lemma TokenStep(t: Skippable, rest: string)
    requires WellFormed(t)
    ensures |TokenText(t) + rest| > 0
    ensures StepAt(TokenText(t) + rest, 0) == Skip(|TokenText(t)|)
  {
    match t {
      case Blank(ch) =>
        assert (TokenText(t) + rest)[0] == ch;
      case LineComment(body) =>
        assert TokenText(t) + rest == "//" + body + "\n" + rest;
        LineCommentStep(body, rest);
      case BlockComment(body) =>
        assert TokenText(t) + rest == "/*" + body + "*/" + rest;
        BlockCommentStep(body, rest);
    }
  }

  lemma SkipToken(t: Skippable, rest: string)
    requires WellFormed(t)
    ensures Scan(TokenText(t) + rest) == Scan(rest)
  {
    var tt := TokenText(t);
    TokenStep(t, rest);
    assert (tt + rest)[|tt|..] == rest;
  }

  /** Property: any interleaving of blanks and well-formed comments in front
      of a text leaves its first statement unchanged. */
  lemma {:induction false} SkipsBlanksAndComments(ts: seq<Skippable>, rest: string)
    requires forall k :: 0 <= k < |ts| ==> WellFormed(ts[k])
    ensures FirstStatement(Flatten(ts) + rest) == FirstStatement(rest)
  {
    if |ts| > 0 {
      var tail := Flatten(ts[1..]) + rest;
      assert Flatten(ts) + rest == TokenText(ts[0]) + tail;
      SkipToken(ts[0], tail);
      SkipsBlanksAndComments(ts[1..], rest);
      assert FirstStatement(tail) == FirstStatement(rest);
    } else {
      assert Flatten(ts) + rest == rest;
    }
  }

  /** Property: text that starts with neither a blank nor a comment opener
      yields its first line, stripped. */
  lemma FirstLineIsStatement(line: string, rest: string)
    requires |line| > 0 && !IsSpace(line[0])
    requires !(|line| > 1 && line[0] == '/' && (line[1] == '/' || line[1] == '*'))
    requires '\n' !in line
    requires rest == [] || rest[0] == '\n'
    ensures FirstStatement(line + rest) == Strip(line)
  {
    var c := line + rest;
    assert c[0] == line[0];
    if |line| == 1 && |rest| > 0 {
      assert c[1] == '\n';
    } else if |line| > 1 {
      assert c[1] == line[1];
    }
    forall k | 0 <= k < |line|
      ensures !At(c, "\n", k)
    {
      assert c[k..k + 1] == [line[k]];
    }
    if |rest| > 0 {
      assert c[|line|..|line| + 1] == "\n";
      IndexOfIs(c, "\n", 0, |line|);
    } else {
      forall k | 0 <= k
        ensures !At(c, "\n", k)
      {
        if k < |line| {
          assert c[k..k + 1] == [line[k]];
        }
      }
      IndexOfNone(c, "\n", 0);
    }
    assert LineEnd(c, 0) == |line|;
    assert c[0..|line|] == line;
  }

  /** Property: a line comment running to the end of the text leaves no statement. */
  lemma UnterminatedLineComment(body: string)
    requires '\n' !in body
    ensures FirstStatement("//" + body) == ""
  {
    var c := "//" + body;
    forall k | 0 <= k
      ensures !At(c, "\n", k)
    {
      if k + 1 <= |c| {
        assert c[k..k + 1] == [c[k]];
        if k >= 2 {
          assert c[k] == body[k - 2];
        } else {
          assert c[k] == '/';
        }
      }
    }
    IndexOfNone(c, "\n", 0);
    assert StepAt(c, 0) == Stop("");
  }

  /** Property: an unterminated block comment leaves no statement. */
  lemma UnterminatedBlockComment(body: string)
    requires !Contains("*" + body, "*/")
    ensures FirstStatement("/*" + body) == ""
  {
    var c := "/*" + body;
    var sb := "*" + body;
    forall k | 0 <= k
      ensures !At(c, "*/", k)
    {
      if k + 2 <= |c| {
        if k == 0 {
          assert c[0] == '/';
        } else {
          assert sb[k - 1..k + 1] == c[k..k + 2];
          assert !At(sb, "*/", k - 1);
        }
      }
    }
    assert c[0] == '/' && c[1] == '*';
    IndexOfNone(c, "*/", 0);
    assert StepAt(c, 0) == Stop("");
  }

  // Property: the close is searched from the opening slash, so the three
  // characters slash, star, slash already form a complete comment.
  lemma SlashStarSlashIsClosed(rest: string)
    ensures FirstStatement("/*/" + rest) == FirstStatement(rest)
  {
    var c := "/*/" + rest;
    assert c[0] == '/';
    assert c[1..3] == "*/";
    IndexOfIs(c, "*/", 0, 1);
    assert StepAt(c, 0) == Skip(3);
    assert c[3..] == rest;
  }

  // ---------------------------------------------------------------------
  // `client_entrypoint?`

  predicate IsQuote(c: char) {
    c == '"' || c == '\''
  }

  /** The body of the directive pattern matches at position `i`: a quote,
      `use client`, a quote, then `;`, a blank or the end of the text. */
  predicate DirectiveAt(s: string, i: nat) {
    && i + 12 <= |s|
    && IsQuote(s[i])
    && s[i + 1..i + 11] == "use client"
    && IsQuote(s[i + 11])
    && (i + 12 == |s| || s[i + 12] == ';' || IsSpace(s[i + 12]))
  }

  /** Ruby's `^` anchors at the start of the text or after any newline. */
  predicate LineStart(s: string, i: nat) {
    i == 0 || (i <= |s| && s[i - 1] == '\n')
  }

  /** The source's `"use client"` pattern matches somewhere in `s`. */
  predicate MatchesUseClient(s: string) {
    exists i: nat :: i <= |s| && LineStart(s, i) && DirectiveAt(s, i)
  }

  /** `client_entrypoint?` on the text of a file. Since the first statement
      has no newline, the line-anchored pattern can only match at its start. */
  function IsClientEntrypoint(content: string): (b: bool)
    ensures b <==> DirectiveAt(FirstStatement(content), 0)
  {
    MatchesUseClient(FirstStatement(content))
  }
}
