/** The parts of Go's strings package that configuration and routes use. */
module Strings {
  import opened Wrappers

  // unicode.IsSpace
  predicate IsSpace(c: char) {
    || c in {'\t', '\n', '\U{0b}', '\U{0c}', '\r', ' ', '\U{85}', '\U{a0}', '\U{1680}', '\U{2028}', '\U{2029}', '\U{202f}',
             '\U{205f}', '\U{3000}'}
    || '\U{2000}' <= c <= '\U{200a}'
  }

  function TrimLeft(s: string): string {
    if s != "" && IsSpace(s[0]) then TrimLeft(s[1..]) else s
  }

  function TrimRight(s: string): string {
    if s != "" && IsSpace(s[|s| - 1]) then TrimRight(s[..|s| - 1]) else s
  }

  // strings.TrimSpace
  function Trim(s: string): string { TrimRight(TrimLeft(s)) }

  predicate Blank(s: string) { forall c <- s :: IsSpace(c) }

  predicate Bare(s: string) { s != "" && !IsSpace(s[0]) && !IsSpace(s[|s| - 1]) }

  lemma {:induction false} TrimLeftSplits(s: string) returns (a: string)
    ensures s == a + TrimLeft(s) && Blank(a)
    ensures TrimLeft(s) != "" ==> !IsSpace(TrimLeft(s)[0])
  {
    a := "";
    if s != "" && IsSpace(s[0]) {
      var rest := TrimLeftSplits(s[1..]);
      a := [s[0]] + rest;
    }
  }

  lemma {:induction false} TrimRightSplits(s: string) returns (b: string)
    ensures s == TrimRight(s) + b && Blank(b)
    ensures TrimRight(s) != "" ==> TrimRight(s)[0] == s[0] && !IsSpace(TrimRight(s)[|TrimRight(s)| - 1])
  {
    b := "";
    if s != "" && IsSpace(s[|s| - 1]) {
      var rest := TrimRightSplits(s[..|s| - 1]);
      b := rest + [s[|s| - 1]];
      assert s == s[..|s| - 1] + [s[|s| - 1]];
    }
  }

  // Trimming takes off what is blank at both ends and nothing else.
  lemma TrimSplits(s: string) returns (a: string, b: string)
    ensures s == a + Trim(s) + b && Blank(a) && Blank(b)
    ensures Trim(s) == "" || Bare(Trim(s))
  {
    a := TrimLeftSplits(s);
    b := TrimRightSplits(TrimLeft(s));
  }

  lemma {:induction false} TrimLeftOf(a: string, s: string)
    requires Blank(a) && (s == "" || !IsSpace(s[0]))
    ensures TrimLeft(a + s) == s
  {
    if a != "" {
      assert (a + s)[1..] == a[1..] + s && a[0] in a;
      TrimLeftOf(a[1..], s);
    } else {
      assert a + s == s;
    }
  }

  lemma {:induction false} TrimRightOf(s: string, b: string)
    requires Blank(b) && (s == "" || !IsSpace(s[|s| - 1]))
    ensures TrimRight(s + b) == s
  {
    if b != "" {
      assert (s + b)[..|s + b| - 1] == s + b[..|b| - 1] && b[|b| - 1] in b;
      TrimRightOf(s, b[..|b| - 1]);
    } else {
      assert s + b == s;
    }
  }

  lemma TrimOf(a: string, s: string, b: string)
    requires Blank(a) && Blank(b) && Bare(s)
    ensures Trim(a + s + b) == s
  {
    assert a + s + b == a + (s + b);
    TrimLeftOf(a, s + b);
    TrimRightOf(s, b);
  }

  // strings.SplitN(s, c, 2), when it gives two parts
  function Cut(s: string, c: char): (r: Option<(string, string)>)
    ensures r.Some? ==> s == r.value.0 + [c] + r.value.1 && c !in r.value.0
    ensures r.None? <==> c !in s
  {
    if s == "" then None
    else if s[0] == c then Some(("", s[1..]))
    else
      var rest := Cut(s[1..], c);
      assert s == [s[0]] + s[1..];
      if rest.Some? then Some(([s[0]] + rest.value.0, rest.value.1)) else None
  }

  lemma CutIsFirst(s: string, c: char, a: string, b: string)
    requires s == a + [c] + b && c !in a
    ensures Cut(s, c) == Some((a, b))
  {
    var (x, y) := Cut(s, c).value;
    forall i | 0 <= i < |a| ensures s[i] != c { assert s[i] == a[i]; }
    forall i | 0 <= i < |x| ensures s[i] != c { assert s[i] == x[i]; }
    assert s[|x|] == c && s[|a|] == c && |x| == |a|;
    assert x == s[..|a|] == a && y == s[|a| + 1..] == b;
  }

  // strings.Split at one character
  function Split(s: string, c: char): (parts: seq<string>)
    ensures |parts| > 0
    decreases |s|
  {
    var cut := Cut(s, c);
    if cut == None then [s] else [cut.value.0] + Split(cut.value.1, c)
  }

  // strings.Join with one character
  function Join(parts: seq<string>, c: char): string
    requires |parts| > 0
  {
    if |parts| == 1 then parts[0] else parts[0] + [c] + Join(parts[1..], c)
  }

  lemma {:induction false} SplitOfJoin(parts: seq<string>, c: char)
    requires |parts| > 0 && forall part <- parts :: c !in part
    ensures Split(Join(parts, c), c) == parts
  {
    assert parts[0] in parts;
    if |parts| > 1 {
      SplitOfJoin(parts[1..], c);
      CutIsFirst(Join(parts, c), c, parts[0], Join(parts[1..], c));
      assert parts == [parts[0]] + parts[1..];
    } else {
      assert Cut(parts[0], c) == None;
    }
  }

  lemma {:induction false} PartsOfSplit(s: string, c: char)
    ensures forall part <- Split(s, c) :: c !in part
    ensures Join(Split(s, c), c) == s
    decreases |s|
  {
    var cut := Cut(s, c);
    if cut.Some? {
      PartsOfSplit(cut.value.1, c);
      assert Split(s, c)[1..] == Split(cut.value.1, c);
    }
  }

  lemma SplitAfter(s: string, c: char)
    ensures Split([c] + s, c) == [""] + Split(s, c)
  {
    CutIsFirst([c] + s, c, "", s);
  }
}
