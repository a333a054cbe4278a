/**
url.PathEscape and the decoding of a request path, as plugin-sdk/ui/ui.go:112 and the router rely
on them. Characters are bytes.
*/
module PathEscape {
  import opened Wrappers

  predicate Bytes(s: string) { forall i :: 0 <= i < |s| ==> s[i] < '\U{100}' }

  // The characters a path segment keeps as they are.
  predicate Plain(c: char) {
    'a' <= c <= 'z' || 'A' <= c <= 'Z' || '0' <= c <= '9' || c in {'-', '_', '.', '~', '$', '&', '+', '=', ':', '@'}
  }

  function HexDigit(d: nat): char
    requires d < 16
  {
    if d < 10 then ('0' as int + d) as char else ('A' as int + d - 10) as char
  }

  function HexValue(c: char): Option<nat> {
    if '0' <= c <= '9' then Some(c as int - '0' as int)
    else if 'A' <= c <= 'F' then Some(c as int - 'A' as int + 10)
    else if 'a' <= c <= 'f' then Some(c as int - 'a' as int + 10)
    else None
  }

  function EscapeChar(c: char): string
    requires c < '\U{100}'
  {
    if Plain(c) then [c] else ['%', HexDigit(c as int / 16), HexDigit(c as int % 16)]
  }

  function Escape(s: string): string
    requires Bytes(s)
  {
    if s == "" then "" else EscapeChar(s[0]) + Escape(s[1..])
  }

  function Unescape(s: string): Option<string> {
    if s == "" then Some("")
    else if s[0] != '%' then Prepend([s[0]], Unescape(s[1..]))
    else if |s| < 3 || HexValue(s[1]) == None || HexValue(s[2]) == None then None
    else Prepend([(HexValue(s[1]).value * 16 + HexValue(s[2]).value) as char], Unescape(s[3..]))
  }

  function Prepend(a: string, s: Option<string>): Option<string> {
    if s == None then None else Some(a + s.value)
  }

  lemma UnescapeChar(c: char, rest: string)
    requires c < '\U{100}'
    ensures Unescape(EscapeChar(c) + rest) == Prepend([c], Unescape(rest))
  {
    var s := EscapeChar(c) + rest;
    if Plain(c) {
      assert s[1..] == rest;
    } else {
      assert s[3..] == rest;
      assert HexValue(HexDigit(c as int / 16)) == Some(c as int / 16);
      assert HexValue(HexDigit(c as int % 16)) == Some(c as int % 16);
    }
  }

  lemma PrependTwice(a: string, b: string, s: Option<string>)
    ensures Prepend(a, Prepend(b, s)) == Prepend(a + b, s)
  {
    if s.Some? { assert a + (b + s.value) == (a + b) + s.value; }
  }

  lemma {:induction false} UnescapeEscaped(v: string, rest: string)
    requires Bytes(v)
    ensures Unescape(Escape(v) + rest) == Prepend(v, Unescape(rest))
  {
    if v == "" {
      assert Escape(v) + rest == rest;
      if Unescape(rest).Some? { assert "" + Unescape(rest).value == Unescape(rest).value; }
    } else {
      assert Escape(v) + rest == EscapeChar(v[0]) + (Escape(v[1..]) + rest);
      UnescapeChar(v[0], Escape(v[1..]) + rest);
      UnescapeEscaped(v[1..], rest);
      PrependTwice([v[0]], v[1..], Unescape(rest));
      assert v == [v[0]] + v[1..];
    }
  }

  lemma {:induction false} UnescapePlain(a: string, rest: string)
    requires '%' !in a
    ensures Unescape(a + rest) == Prepend(a, Unescape(rest))
  {
    if a == "" {
      assert a + rest == rest;
      if Unescape(rest).Some? { assert "" + Unescape(rest).value == Unescape(rest).value; }
    } else {
      assert (a + rest)[1..] == a[1..] + rest;
      UnescapePlain(a[1..], rest);
      PrependTwice([a[0]], a[1..], Unescape(rest));
      assert a == [a[0]] + a[1..];
    }
  }

  // Escaping is undone, and an escaped value has no slash.
  lemma EscapeRoundTrip(v: string)
    requires Bytes(v)
    ensures Unescape(Escape(v)) == Some(v)
  {
    var code := Escape(v);
    assert code + "" == code && v + "" == v;
    UnescapeEscaped(v, "");
    assert Prepend(v, Some("")) == Some(v);
  }

  lemma {:induction false} EscapeHasNoSlash(v: string)
    requires Bytes(v)
    ensures '/' !in Escape(v)
  {
    if v != "" { EscapeHasNoSlash(v[1..]); }
  }

  // Printable characters that delimit something in a URL or must be escaped everywhere.
  const Delimiters := {
    '!', '"', '#', '%', '\'', '(', ')', '*', ',', '/', ';', '<', '>', '?', '[', '\\', ']', '^', '`', '{', '|', '}'
  }

  predicate Safe(c: char) { ' ' < c <= '~' && c !in Delimiters }

  lemma PlainIsSafe(c: char)
    ensures Plain(c) <==> Safe(c)
  { }

  // An escaped value has no delimiter but '%', and a value is left as it is exactly when every
  // character is safe.
  lemma {:induction false} EscapeIsSafe(v: string)
    requires Bytes(v)
    ensures forall c <- Escape(v) :: c == '%' || Safe(c)
    ensures Escape(v) == v <==> forall c <- v :: Safe(c)
  {
    if v != "" {
      EscapeIsSafe(v[1..]);
      PlainIsSafe(v[0]);
      EscapeGrows(v[1..]);
      assert v == [v[0]] + v[1..];
    }
  }

  lemma {:induction false} EscapeGrows(v: string)
    requires Bytes(v)
    ensures |Escape(v)| >= |v|
  {
    if v != "" { EscapeGrows(v[1..]); }
  }
}
