/** Paths written with dots between their segments. */
module DottedPaths {

  /** The pieces of `s` between dots. */
  function Segments(s: string): (r: seq<string>)
    ensures r != []
    ensures forall i :: 0 <= i < |r| ==> forall c :: c in r[i] ==> c in s && c != '.'
  {
    if s == "" then [""]
    else
      var rest := Segments(s[1..]);
      if s[0] == '.' then [""] + rest else [[s[0]] + rest[0]] + rest[1..]
  }

  /** The segments with dots between them. */
  function Dotted(segs: seq<string>): string {
    if segs == [] then "" else if |segs| == 1 then segs[0] else segs[0] + "." + Dotted(segs[1..])
  }

  predicate DotFree(segs: seq<string>) { forall i :: 0 <= i < |segs| ==> '.' !in segs[i] }

  /** Splitting at the dots undoes joining, */
  lemma {:induction false} SplitDotted(segs: seq<string>)
    requires segs != [] && DotFree(segs)
    ensures Segments(Dotted(segs)) == segs
  {
    if |segs| == 1 {
      SplitPlain(segs[0]);
    } else {
      SplitDotted(segs[1..]);
      SplitOne(segs[0], Dotted(segs[1..]));
    }
  }

  lemma DottedCons(head: string, rest: seq<string>)
    requires rest != []
    ensures Dotted([head] + rest) == head + "." + Dotted(rest)
  {
    assert ([head] + rest)[1..] == rest;
  }

  lemma {:induction false} DottedJoin(a: seq<string>, b: seq<string>)
    requires a != [] && b != []
    ensures Dotted(a + b) == Dotted(a) + "." + Dotted(b)
  {
    if |a| == 1 {
      assert a == [a[0]];
      DottedCons(a[0], b);
    } else {
      DottedJoin(a[1..], b);
      DottedCons(a[0], a[1..] + b);
      DottedCons(a[0], a[1..]);
      assert a == [a[0]] + a[1..] && a + b == [a[0]] + (a[1..] + b);
      assert a[0] + "." + (Dotted(a[1..]) + "." + Dotted(b)) == (a[0] + "." + Dotted(a[1..])) + "." + Dotted(b);
    }
  }

  lemma DottedPrepend(c: char, head: string, rest: seq<string>)
    ensures Dotted([[c] + head] + rest) == [c] + Dotted([head] + rest)
  {
    if rest == [] {
      assert [[c] + head] + rest == [[c] + head] && [head] + rest == [head];
    } else {
      DottedCons([c] + head, rest);
      DottedCons(head, rest);
      assert ([c] + head) + "." + Dotted(rest) == [c] + (head + "." + Dotted(rest));
    }
  }

  /** and joining undoes splitting. */
  lemma {:induction false} DottedSegments(s: string)
    ensures Dotted(Segments(s)) == s
  {
    if s != "" {
      var rest := Segments(s[1..]);
      DottedSegments(s[1..]);
      DottedCons("", rest);
      DottedPrepend(s[0], rest[0], rest[1..]);
      assert rest == [rest[0]] + rest[1..];
      assert s == [s[0]] + s[1..];
    }
  }

  lemma {:induction false} SplitPlain(s: string)
    requires '.' !in s
    ensures Segments(s) == [s]
  {
    if s != "" {
      assert s[0] in s && forall c :: c in s[1..] ==> c in s;
      SplitPlain(s[1..]);
      assert [s[0]] + s[1..] == s;
    }
  }

  lemma {:induction false} SplitOne(s: string, rest: string)
    requires '.' !in s
    ensures Segments(s + "." + rest) == [s] + Segments(rest)
  {
    if s == "" {
      assert (s + "." + rest)[1..] == rest;
    } else {
      assert s[0] in s && forall c :: c in s[1..] ==> c in s;
      assert (s + "." + rest)[1..] == s[1..] + "." + rest;
      SplitOne(s[1..], rest);
      assert [s[0]] + s[1..] == s;
    }
  }
}
