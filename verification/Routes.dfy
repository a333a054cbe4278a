/**
Page routes: their check in a manifest, plugin-sdk/manifest/manifest.go:192-210 and 437-473, and
the matching of a request path, ui/internal/plugins/registry.go:570-590.
*/
module Routes {
  import opened Strings

  // `sound` says that title, description, methods and capabilities pass their own checks.
  datatype Page = Page(id: string, path: string, sound: bool)

  // ---- route patterns ----

  // ^[a-z][a-z0-9-]*$ with at most 64 characters
  predicate ValidLocal(s: string) {
    && 1 <= |s| <= 64 && 'a' <= s[0] <= 'z'
    && forall c <- s :: 'a' <= c <= 'z' || '0' <= c <= '9' || c == '-'
  }

  predicate Starts(s: string, c: char) { s != "" && s[0] == c }

  predicate Ends(s: string, c: char) { s != "" && s[|s| - 1] == c }

  predicate Braced(part: string) { Starts(part, '{') && Ends(part, '}') }

  predicate PartOk(part: string) {
    if Braced(part) then ValidLocal(part[1..|part| - 1]) else ValidLocal(part)
  }

  predicate DistinctParams(parts: seq<string>) {
    forall i, j :: 0 <= i < j < |parts| && Braced(parts[i]) ==> parts[i] != parts[j]
  }

  predicate PartsOk(parts: seq<string>) { (forall part <- parts :: PartOk(part)) && DistinctParams(parts) }

  predicate Reserved(s: string) { '%' in s || '?' in s || '#' in s || '\\' in s }

  predicate RouteOk(s: string) {
    s == "/" || (Starts(s, '/') && !Ends(s, '/') && !Reserved(s) && PartsOk(Split(s[1..], '/')))
  }

  function Names(parts: seq<string>): set<string> { set part <- parts | Braced(part) :: part[1..|part| - 1] }

  method ValidRoute(s: string) returns (ok: bool)
    ensures ok <==> RouteOk(s)
  {
    if s == "/" { return true; }
    if !Starts(s, '/') || Ends(s, '/') || Reserved(s) { return false; }
    var seen: set<string> := {};
    var parts := Split(s[1..], '/');
    for k := 0 to |parts|
      invariant PartsOk(parts[..k]) && seen == Names(parts[..k])
    {
      var part := parts[k];
      NextPart(parts, k);
      if Starts(part, '{') && Ends(part, '}') {
        var p := part[1..|part| - 1];
        if !ValidLocal(p) || p in seen { return false; }
        seen := seen + {p};
      } else if !ValidLocal(part) {
        return false;
      }
    }
    assert parts[..|parts|] == parts;
    return true;
  }

  lemma BracesInjective(a: string, b: string)
    requires Braced(a) && Braced(b) && a[1..|a| - 1] == b[1..|b| - 1]
    ensures a == b
  {
    assert a == "{" + a[1..|a| - 1] + "}" && b == "{" + b[1..|b| - 1] + "}";
  }

  lemma NextPart(parts: seq<string>, k: nat)
    requires k < |parts| && PartsOk(parts[..k])
    ensures var part := parts[k];
            && (!PartOk(part) || (Braced(part) && part[1..|part| - 1] in Names(parts[..k])) ==> !PartsOk(parts))
            && (PartOk(part) && !(Braced(part) && part[1..|part| - 1] in Names(parts[..k])) ==> PartsOk(parts[..k + 1]))
            && Names(parts[..k + 1]) == Names(parts[..k]) + if Braced(part) then {part[1..|part| - 1]} else {}
  {
    var front, part, next := parts[..k], parts[k], parts[..k + 1];
    assert next == front + [part] && part in parts;
    if Braced(part) {
      var name := part[1..|part| - 1];
      if name in Names(front) {
        var q :| q in front && Braced(q) && q[1..|q| - 1] == name;
        BracesInjective(q, part);
        var i :| 0 <= i < k && front[i] == q;
        assert parts[i] == parts[k];
      } else {
        forall i | 0 <= i < k && Braced(next[i]) ensures next[i] != part { assert next[i] in front; }
      }
    }
  }

  // ---- ambiguity ----

  predicate Parameter(part: string) { Starts(part, '{') }

  predicate Overlapping(a: seq<string>, b: seq<string>) {
    |a| == |b| && forall i :: 0 <= i < |a| ==> a[i] == b[i] || Parameter(a[i]) || Parameter(b[i])
  }

  method Overlap(a: string, b: string) returns (r: bool)
    ensures r <==> Overlapping(Split(a, '/'), Split(b, '/'))
  {
    var xs, ys := Split(a, '/'), Split(b, '/');
    if |xs| != |ys| { return false; }
    for i := 0 to |xs|
      invariant forall k :: 0 <= k < i ==> xs[k] == ys[k] || Parameter(xs[k]) || Parameter(ys[k])
    {
      if xs[i] != ys[i] && !Starts(xs[i], '{') && !Starts(ys[i], '{') { return false; }
    }
    return true;
  }

  predicate PageOk(p: Page) { ValidLocal(p.id) && p.sound && RouteOk(p.path) }

  predicate Apart(p: Page, q: Page) { p.id != q.id && !Overlapping(Split(p.path, '/'), Split(q.path, '/')) }

  predicate PagesOk(pages: seq<Page>) {
    && (forall p <- pages :: PageOk(p))
    && forall i, j :: 0 <= i < j < |pages| ==> Apart(pages[i], pages[j])
  }

  lemma SeenIds(pages: seq<Page>, k: nat, id: string)
    requires k < |pages|
    ensures id in (set p <- pages[..k] :: p.id) <==> exists i :: 0 <= i < k && pages[i].id == id
  {
    assert forall i :: 0 <= i < k ==> pages[..k][i] == pages[i] && pages[i] in pages[..k];
  }

  method ValidatePage(pages: seq<Page>, k: nat, seen: set<string>, patterns: seq<string>) returns (ok: bool)
    requires k < |pages| && seen == (set p <- pages[..k] :: p.id)
    requires |patterns| == k && forall i :: 0 <= i < k ==> patterns[i] == pages[i].path
    ensures ok <==> PageOk(pages[k]) && forall i :: 0 <= i < k ==> Apart(pages[i], pages[k])
  {
    var p := pages[k];
    SeenIds(pages, k, p.id);
    if !ValidLocal(p.id) || p.id in seen || !p.sound { return false; }
    var route := ValidRoute(p.path);
    if !route { return false; }
    for i := 0 to k
      invariant forall j :: 0 <= j < i ==> Apart(pages[j], p)
    {
      var ambiguous := Overlap(patterns[i], p.path);
      if ambiguous { return false; }
    }
    return true;
  }

  method ValidatePages(pages: seq<Page>) returns (ok: bool)
    ensures ok <==> PagesOk(pages)
  {
    var seen: set<string> := {};
    var patterns: seq<string> := [];
    for k := 0 to |pages|
      invariant PagesOk(pages[..k]) && seen == set p <- pages[..k] :: p.id
      invariant |patterns| == k && forall i :: 0 <= i < k ==> patterns[i] == pages[i].path
    {
      assert pages[..k + 1] == pages[..k] + [pages[k]] && pages[k] in pages;
      var page := ValidatePage(pages, k, seen, patterns);
      if !page { return false; }
      seen := seen + {pages[k].id};
      patterns := patterns + [pages[k].path];
    }
    assert pages[..|pages|] == pages;
    return true;
  }
}
