/** The expression of an index on a JSON sub-column, printed from a path and a type and read back from it. */
module IndexExpr {
  import opened PData
  import opened DottedPaths
  import opened KeyCheck

  // ---------------------------------------------------------------- printing

  /** `strings.Trim(s, "`")`. */
  function Trim(s: string): (t: string)
    ensures t != "" ==> t[0] != '`' && t[|t| - 1] != '`'
    ensures forall c :: c in t ==> c in s
    ensures forall c :: c in s && c != '`' ==> c in t
  {
    if s == "" then ""
    else if s[0] == '`' then Trim(s[1..])
    else if s[|s| - 1] == '`' then Trim(s[..|s| - 1])
    else s
  }

  function QuotePart(part: string): string {
    if IsBacktickRequired(part) then "`" + Trim(part) + "`" else part
  }

  function QuoteParts(parts: seq<string>): (qs: seq<string>)
    ensures |qs| == |parts|
  { seq(|parts|, i requires 0 <= i < |parts| => QuotePart(parts[i])) }

  /** The path with the parts that need it in backticks. */
  function Quoted(expr: string): string { Dotted(QuoteParts(Segments(expr))) }

  const CORE: string := "assumeNotNull(dynamicElement("
  const LOWER: string := "lower("

  function Printed(path: string, typeColumn: string): string {
    if typeColumn == "String" then LOWER + CORE + path + ", '" + typeColumn + "')))"
    else CORE + path + ", '" + typeColumn + "'))"
  }

  method JsonSubColumnIndexExprFormat(expr: string, typeColumn: string) returns (r: string)
    ensures r == Printed(Quoted(expr), typeColumn)
    ensures r == if typeColumn == "String"
                 then "lower(" + "assumeNotNull(dynamicElement(" + Quoted(expr) + ", '" + typeColumn + "')))"
                 else "assumeNotNull(dynamicElement(" + Quoted(expr) + ", '" + typeColumn + "'))"
  {
    var parts := Segments(expr);
    for idx := 0 to |parts|
      invariant |parts| == |Segments(expr)|
      invariant forall i :: 0 <= i < |parts| ==>
        parts[i] == if i < idx then QuotePart(Segments(expr)[i]) else Segments(expr)[i]
    {
      if IsBacktickRequired(parts[idx]) {
        var part := Trim(parts[idx]);
        parts := parts[idx := "`" + part + "`"];
      }
    }
    assert parts == QuoteParts(Segments(expr));
    r := Printed(Dotted(parts), typeColumn);
  }

  method JSONSubColumnIndexExpr(column: string, path: string, typeColumn: string) returns (r: string)
    ensures r == Printed(Quoted(column + "." + path), typeColumn)
  {
    r := JsonSubColumnIndexExprFormat(column + "." + path, typeColumn);
  }

  // ---------------------------------------------------------------- what quoting does

  function Ticks(n: nat): string { seq(n, _ => '`') }

  /** Only backticks at the two ends are trimmed, and all of them. */
  lemma {:induction false} TrimExactly(s: string) returns (a: nat, b: nat)
    ensures s == Ticks(a) + Trim(s) + Ticks(b)
    decreases |s|
  {
    a, b := 0, 0;
    if s == "" {
    } else if s[0] == '`' {
      a, b := TrimExactly(s[1..]);
      assert s == ['`'] + s[1..] && Ticks(a + 1) == ['`'] + Ticks(a);
      a := a + 1;
    } else if s[|s| - 1] == '`' {
      a, b := TrimExactly(s[..|s| - 1]);
      assert s == s[..|s| - 1] + ['`'] && Ticks(b + 1) == Ticks(b) + ['`'];
      b := b + 1;
    }
  }

  predicate Untrimmed(t: string) { t != "" ==> t[0] != '`' && t[|t| - 1] != '`' }

  /** A part that has a colon, an at sign or a hyphen stands between backticks, once; any other is as it was. */
  ghost predicate IsQuoted(part: string, quoted: string) {
    if exists i :: 0 <= i < |part| && part[i] in {':', '@', '-'} then
      exists a: nat, b: nat, t :: QuotedBy(part, quoted, a, b, t)
    else quoted == part
  }

  ghost predicate QuotedBy(part: string, quoted: string, a: nat, b: nat, t: string) {
    part == Ticks(a) + t + Ticks(b) && Untrimmed(t) && quoted == ['`'] + t + ['`']
  }

  lemma QuotePartExactly(part: string)
    ensures IsQuoted(part, QuotePart(part))
  {
    if IsBacktickRequired(part) {
      var a, b := TrimExactly(part);
      assert QuotedBy(part, QuotePart(part), a, b, Trim(part));
    }
  }

  /** Quoting works on the parts between dots, one by one. */
  lemma QuotedExactly(expr: string)
    ensures |Segments(Quoted(expr))| == |Segments(expr)|
    ensures forall i :: 0 <= i < |Segments(expr)| ==> IsQuoted(Segments(expr)[i], Segments(Quoted(expr))[i])
  {
    var parts := Segments(expr);
    forall i | 0 <= i < |parts| ensures '.' !in QuoteParts(parts)[i] && IsQuoted(parts[i], QuoteParts(parts)[i]) {
      QuotePartAgain(parts[i]);
      QuotePartExactly(parts[i]);
    }
    SplitDotted(QuoteParts(parts));
  }

  // ---------------------------------------------------------------- the regular expressions

  predicate IsSpace(c: char) { c in {' ', '\t', '\n', '\r', '\U{0c}'} }

  function SkipSpace(s: string): string { if s != "" && IsSpace(s[0]) then SkipSpace(s[1..]) else s }

  /** What follows the path: a comma, white space, the type in single quotes, and three closing parentheses at the end
      of the text. Gives the type. */
  function Tail(s: string): (t: Option<string>)
    ensures t.Some? ==> t.value != "" && |s| > 4 && s[|s| - 4..] == "')))"
  {
    if s == "" || s[0] != ',' then None
    else
      var q := SkipSpace(s[1..]);
      if q == "" || q[0] != '\'' then None
      else
        var end := |q| - 4;
        SkipSpaceIsSuffix(s[1..]);
        if end > 1 && q[end..] == "')))" && '\'' !in q[1..end] then Some(q[1..end]) else None
  }

  lemma {:induction false} SkipSpaceIsSuffix(s: string)
    ensures |SkipSpace(s)| <= |s| && SkipSpace(s) == s[|s| - |SkipSpace(s)|..]
  {
    if s != "" && IsSpace(s[0]) { SkipSpaceIsSuffix(s[1..]); }
  }

  /** The shortest path of at least `n` characters, none of them a newline, that a tail follows. */
  function Lazy(s: string, n: nat): (m: Option<(string, string)>)
    requires 0 < n
    decreases |s| - n
    ensures m.Some? ==> m.value.0 <= s && |m.value.0| >= n && Tail(s[|m.value.0|..]) == Some(m.value.1)
  {
    if n > |s| || s[n - 1] == '\n' then None
    else if Tail(s[n..]).Some? then Some((s[..n], Tail(s[n..]).value))
    else Lazy(s, n + 1)
  }

  /** The leftmost match at `i` or later of an expression that begins with `open`. */
  function Find(open: string, s: string, i: nat): Option<(string, string)>
    decreases |s| - i
  {
    if i > |s| then None
    else if open <= s[i..] && Lazy(s[i + |open|..], 1).Some? then Lazy(s[i + |open|..], 1)
    else Find(open, s, i + 1)
  }

  /** Reads an expression back: the path and the type, None for an error. */
  method UnfoldJSONSubColumnIndexExpr(expr: string) returns (r: Option<(string, string)>)
    ensures r == Unfold(expr)
  {
    r := Find(LOWER + CORE, expr, 0);
    if r.None? { r := Find(CORE, expr, 0); }
  }

  function Unfold(expr: string): Option<(string, string)> {
    var m := Find(LOWER + CORE, expr, 0);
    if m.Some? then m else Find(CORE, expr, 0)
  }

  lemma {:induction false} LazyProps(s: string, n: nat)
    requires 0 < n <= |s| + 1 && '\n' !in s[..n - 1]
    ensures Lazy(s, n).Some? ==> '\n' !in Lazy(s, n).value.0
    ensures Lazy(s, n).Some? ==> |s| > 4 && s[|s| - 4..] == "')))"
    decreases |s| - n
  {
    if n <= |s| && s[n - 1] != '\n' {
      assert s[..n] == s[..n - 1] + [s[n - 1]];
      if Tail(s[n..]).Some? {
        assert s[n..][|s| - n - 4..] == s[|s| - 4..];
      } else {
        LazyProps(s, n + 1);
      }
    }
  }

  /** A match has no newline in its path and stands before three closing parentheses. */
  lemma {:induction false} FindProps(open: string, s: string, i: nat)
    ensures Find(open, s, i).Some? ==> '\n' !in Find(open, s, i).value.0
    ensures Find(open, s, i).Some? ==> |s| > 4 && s[|s| - 4..] == "')))"
    decreases |s| - i
  {
    if i <= |s| {
      if open <= s[i..] && Lazy(s[i + |open|..], 1).Some? {
        var rest := s[i + |open|..];
        LazyProps(rest, 1);
        assert rest[|rest| - 4..] == s[|s| - 4..];
      } else {
        FindProps(open, s, i + 1);
      }
    }
  }

  // ---------------------------------------------------------------- what the regular expressions match

  /** A comma, white space, the type without quotes in single quotes, and three closing parentheses. */
  ghost predicate TailAt(s: string, t: string, n: nat) {
    && 1 <= n <= |s| && s[0] == ',' && (forall i :: 1 <= i < n ==> s[i] in {' ', '\t', '\n', '\r', '\U{0c}'})
    && t != "" && '\'' !in t && s[n..] == ['\''] + t + "')))"
  }

  ghost predicate IsTail(s: string, t: string) { exists n: nat :: TailAt(s, t, n) }

  lemma {:induction false} SpaceSkipped(s: string) returns (n: nat)
    ensures n <= |s| && SkipSpace(s) == s[n..] && (forall i :: 0 <= i < n ==> IsSpace(s[i]))
    ensures n < |s| ==> !IsSpace(s[n])
  {
    n := 0;
    if s != "" && IsSpace(s[0]) {
      n := SpaceSkipped(s[1..]);
      n := n + 1;
    }
  }

  lemma TailExactly(s: string, t: string)
    ensures Tail(s) == Some(t) <==> IsTail(s, t)
  {
    if s != "" && s[0] == ',' {
      var n := SpaceSkipped(s[1..]);
      var q := SkipSpace(s[1..]);
      assert q == s[n + 1..];
      if Tail(s) == Some(t) {
        assert q == ['\''] + t + "')))" && TailAt(s, t, n + 1);
      }
      if k: nat :| TailAt(s, t, k) {
        assert s[k..][0] == '\'' == s[1..][k - 1] && !IsSpace(s[1..][k - 1]);
        assert k - 1 == n;
        QuotedTypeIsTail(q, t);
      }
    }
  }

  lemma QuotedTypeIsTail(q: string, t: string)
    requires q == ['\''] + t + "')))" && t != "" && '\'' !in t
    ensures var end := |q| - 4; end > 1 && q[end..] == "')))" && q[1..end] == t
  {}

  /** The shortest path without a newline before a tail. */
  ghost predicate IsShortest(s: string, p: string, t: string) {
    && p != "" && p <= s && '\n' !in p && IsTail(s[|p|..], t)
    && forall n, u :: 1 <= n < |p| ==> !IsTail(s[n..], u)
  }

  /** No path shorter than `n` can be the shortest one. */
  ghost predicate NoneShorter(s: string, n: nat) {
    && (forall m, u :: 1 <= m < n && m <= |s| ==> !IsTail(s[m..], u))
    && forall i :: 0 <= i < n - 1 && i < |s| ==> s[i] != '\n'
  }

  lemma ShortestIsLonger(s: string, n: nat, p: string, t: string)
    requires 0 < n && NoneShorter(s, n) && IsShortest(s, p, t)
    ensures n <= |p| && s[n - 1] != '\n'
  {
    assert |p| >= n;
    assert s[n - 1] == p[n - 1];
  }

  lemma {:induction false} LazyExactly(s: string, n: nat, p: string, t: string)
    requires 0 < n && NoneShorter(s, n)
    ensures Lazy(s, n) == Some((p, t)) <==> IsShortest(s, p, t)
    decreases |s| - n
  {
    if IsShortest(s, p, t) { ShortestIsLonger(s, n, p, t); }
    if n <= |s| && s[n - 1] != '\n' {
      if Tail(s[n..]).Some? {
        ShortestIs(s, n, p, t);
      } else {
        forall u ensures !IsTail(s[n..], u) { TailExactly(s[n..], u); }
        LazyExactly(s, n + 1, p, t);
      }
    }
  }

  lemma ShortestIs(s: string, n: nat, p: string, t: string)
    requires 0 < n <= |s| && s[n - 1] != '\n' && NoneShorter(s, n) && Tail(s[n..]).Some?
    ensures IsShortest(s, p, t) <==> p == s[..n] && t == Tail(s[n..]).value
  {
    TailExactly(s[n..], t);
    TailExactly(s[n..], Tail(s[n..]).value);
    if IsShortest(s, p, t) {
      assert |p| == n;
    }
  }

  /** The match at place `i`. */
  ghost predicate MatchesAt(open: string, s: string, i: nat, p: string, t: string) {
    i <= |s| && open <= s[i..] && IsShortest(s[i + |open|..], p, t)
  }

  /** The leftmost match, of the shortest path. */
  ghost predicate IsFirst(open: string, s: string, from: nat, p: string, t: string) {
    exists i: nat :: from <= i && MatchesAt(open, s, i, p, t) && NoneBefore(open, s, from, i)
  }

  ghost predicate NoneBefore(open: string, s: string, from: nat, i: nat) {
    forall j: nat, q, u :: from <= j < i ==> !MatchesAt(open, s, j, q, u)
  }

  lemma {:induction false} FindExactly(open: string, s: string, i: nat, p: string, t: string)
    ensures Find(open, s, i) == Some((p, t)) <==> IsFirst(open, s, i, p, t)
    decreases |s| - i
  {
    if i <= |s| {
      forall q, u | open <= s[i..]
        ensures MatchesAt(open, s, i, q, u) <==> Lazy(s[i + |open|..], 1) == Some((q, u))
      {
        LazyExactly(s[i + |open|..], 1, q, u);
      }
      if open <= s[i..] && Lazy(s[i + |open|..], 1).Some? {
        var m := Lazy(s[i + |open|..], 1).value;
        assert MatchesAt(open, s, i, m.0, m.1);
        assert NoneBefore(open, s, i, i);
      } else {
        FindExactly(open, s, i + 1, p, t);
        LaterIsFirst(open, s, i, p, t);
      }
    }
  }

  lemma LaterIsFirst(open: string, s: string, i: nat, p: string, t: string)
    requires forall q, u :: !MatchesAt(open, s, i, q, u)
    ensures IsFirst(open, s, i, p, t) <==> IsFirst(open, s, i + 1, p, t)
  {
    if k: nat :| i <= k && MatchesAt(open, s, k, p, t) && NoneBefore(open, s, i, k) {
      assert k > i && NoneBefore(open, s, i + 1, k);
    }
    if k: nat :| i + 1 <= k && MatchesAt(open, s, k, p, t) && NoneBefore(open, s, i + 1, k) {
      assert NoneBefore(open, s, i, k);
    }
  }

  /** What is read is the leftmost shortest match with `lower`, or without it where there is none with it. */
  lemma UnfoldExactly(expr: string, p: string, t: string)
    ensures var lower, core := "lower(" + "assumeNotNull(dynamicElement(", "assumeNotNull(dynamicElement(";
      Unfold(expr) == Some((p, t)) <==>
        || IsFirst(lower, expr, 0, p, t)
        || ((forall q, u :: !IsFirst(lower, expr, 0, q, u)) && IsFirst(core, expr, 0, p, t))
  {
    forall q, u ensures Find(LOWER + CORE, expr, 0) == Some((q, u)) <==> IsFirst(LOWER + CORE, expr, 0, q, u) {
      FindExactly(LOWER + CORE, expr, 0, q, u);
    }
    FindExactly(CORE, expr, 0, p, t);
    if Find(LOWER + CORE, expr, 0).Some? {
      var m := Find(LOWER + CORE, expr, 0).value;
      assert IsFirst(LOWER + CORE, expr, 0, m.0, m.1);
    }
  }

  // ---------------------------------------------------------------- reading back what was printed

  /** No tail starts earlier than the printed one: the quote before the type would be inside the type. */
  lemma TailOnlyAtEnd(path: string, n: nat)
    requires n < |path|
    ensures Tail((path + ", 'String')))")[n..]).None?
  {
    var s := path + ", 'String')))";
    var r := s[n..];
    var q, quote := SkipSpace(r[1..]), |path| + 2;
    SkipSpaceIsSuffix(r[1..]);
    assert r[1..][|path| - n - 1] == s[|path|] == ',';
    SkipSpaceStops(r[1..], |path| - n - 1);
    var at := |s| - |q|;
    assert q == s[at..] && at <= |path|;
    assert s[quote] == '\'' && q[1..|q| - 4][quote - at - 1] == '\'';
  }

  lemma {:induction false} SkipSpaceStops(s: string, i: nat)
    requires i < |s| && !IsSpace(s[i])
    ensures |SkipSpace(s)| >= |s| - i
  {
    if IsSpace(s[0]) { SkipSpaceStops(s[1..], i - 1); }
  }

  lemma TailOfPrinted()
    ensures Tail(", 'String')))") == Some("String")
  {
    var s := ", 'String')))";
    assert s[1..][0] == ' ' && s[1..][1..][0] == '\'';
    var q := "'String')))";
    assert SkipSpace(s[1..][1..]) == s[1..][1..] == q;
    assert SkipSpace(s[1..]) == q;
    assert q[7..] == "')))" && q[1..7] == "String";
  }

  lemma {:induction false} LazyFindsPath(path: string, n: nat)
    requires 0 < n <= |path| && '\n' !in path
    ensures Lazy(path + ", 'String')))", n) == Some((path, "String"))
    decreases |path| - n
  {
    var s := path + ", 'String')))";
    assert s[n - 1] == path[n - 1];
    if n == |path| {
      TailOfPrinted();
      assert s[n..] == ", 'String')))" && s[..n] == path;
    } else {
      TailOnlyAtEnd(path, n);
      LazyFindsPath(path, n + 1);
    }
  }

  lemma QuotedIsNotEmpty(column: string, path: string)
    ensures Quoted(column + "." + path) != ""
    ensures '\n' in Quoted(column + "." + path) <==> '\n' in column + "." + path
  {
    var expr := column + "." + path;
    var parts := Segments(expr);
    DottedSegments(expr);
    assert expr[|column|] == '.';
    if |parts| == 1 { assert parts[0] == expr; }
    SameNewlines(parts);
  }

  lemma {:induction false} SameNewlines(parts: seq<string>)
    ensures '\n' in Dotted(QuoteParts(parts)) <==> '\n' in Dotted(parts)
    ensures |parts| > 1 ==> Dotted(QuoteParts(parts)) != ""
  {
    if |parts| > 1 {
      SameNewlines(parts[1..]);
      assert QuoteParts(parts)[1..] == QuoteParts(parts[1..]);
    }
  }

  lemma StringIsRead(path: string)
    requires path != "" && '\n' !in path
    ensures Unfold(Printed(path, "String")) == Some((path, "String"))
  {
    var s := Printed(path, "String");
    LazyFindsPath(path, 1);
    assert s[0..] == s && LOWER + CORE <= s && s[|LOWER + CORE|..] == path + ", 'String')))";
  }

  lemma NewlineIsNotRead(path: string, s: string, typeColumn: string)
    requires '\n' in path
    ensures Unfold(s) != Some((path, typeColumn))
  {
    FindProps(LOWER + CORE, s, 0);
    FindProps(CORE, s, 0);
  }

  lemma OtherTypesAreNotRead(path: string, typeColumn: string)
    requires typeColumn != "String"
    ensures Unfold(Printed(path, typeColumn)).None?
  {
    var s := Printed(path, typeColumn);
    FindProps(LOWER + CORE, s, 0);
    FindProps(CORE, s, 0);
    assert s[|s| - 3] == '\'' && s[|s| - 4..][1] == s[|s| - 3];
  }

  /** Reading back a printed expression gives the quoted path and the type exactly when the type is String and there is
      no newline in the column or path; with any other type it always fails, as the pattern asks for one closing
      parenthesis more than is printed. */
  lemma ReadBackExactly(column: string, path: string, typeColumn: string)
    ensures var quoted := Quoted(column + "." + path);
      Unfold(Printed(quoted, typeColumn)) == Some((quoted, typeColumn)) <==>
        typeColumn == "String" && '\n' !in column + "." + path
    ensures typeColumn != "String" ==> Unfold(Printed(Quoted(column + "." + path), typeColumn)).None?
  {
    var quoted := Quoted(column + "." + path);
    QuotedIsNotEmpty(column, path);
    if typeColumn != "String" {
      OtherTypesAreNotRead(quoted, typeColumn);
    } else if '\n' in quoted {
      NewlineIsNotRead(quoted, Printed(quoted, typeColumn), typeColumn);
    } else {
      StringIsRead(quoted);
    }
  }

  // ---------------------------------------------------------------- quoting is idempotent

  lemma {:induction false} TrimAgain(t: string)
    requires t != "" && t[0] != '`' && t[|t| - 1] != '`'
    ensures Trim("`" + t + "`") == t
  {
    assert ("`" + t + "`")[1..] == t + "`";
    assert (t + "`")[..|t|] == t;
    assert Trim(t) == t;
    assert Trim(t + "`") == Trim(t);
  }

  lemma QuotePartAgain(part: string)
    ensures QuotePart(QuotePart(part)) == QuotePart(part)
    ensures '.' !in part ==> '.' !in QuotePart(part)
  {
    if IsBacktickRequired(part) { TrimAgain(Trim(part)); }
  }

  /** Quoting a quoted path changes nothing, so printing what was read back gives the same expression. */
  lemma QuotedAgain(expr: string)
    ensures Quoted(Quoted(expr)) == Quoted(expr)
  {
    var parts := Segments(expr);
    forall i | 0 <= i < |parts|
      ensures '.' !in QuoteParts(parts)[i] && QuotePart(QuoteParts(parts)[i]) == QuoteParts(parts)[i]
    {
      QuotePartAgain(parts[i]);
    }
    SplitDotted(QuoteParts(parts));
    assert QuoteParts(QuoteParts(parts)) == QuoteParts(parts);
  }
}
