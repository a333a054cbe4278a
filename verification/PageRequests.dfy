/**
From a page and its parameters to a URL and back: plugin-sdk/ui/ui.go:98-120 and
ui/internal/plugins/registry.go:570-590, for the pages of an accepted manifest.
*/
module PageRequests {
  import opened Wrappers
  import opened Sets
  import opened Strings
  import opened PathEscape
  import opened Routes

  const MaxPath: nat := 2048

  // The name inside the braces of a parameter.
  function KeyOf(part: string): string {
    var inner := if Starts(part, '{') then part[1..] else part;
    if Ends(inner, '}') then inner[..|inner| - 1] else inner
  }

  function TrimSlash(s: string): string { if Starts(s, '/') then s[1..] else s }

  // ---- matching a request path ----

  // strings.Contains(s, "..")
  predicate HasDots(s: string) {
    |s| >= 2 && ((s[0] == '.' && s[1] == '.') || HasDots(s[1..]))
  }

  lemma {:induction false} DotsAreAdjacent(s: string)
    ensures HasDots(s) <==> exists i :: 0 < i < |s| && s[i - 1] == s[i] == '.'
  {
    if |s| >= 2 {
      DotsAreAdjacent(s[1..]);
      if i :| 0 < i < |s[1..]| && s[1..][i - 1] == s[1..][i] == '.' { assert s[i + 1 - 1] == s[i + 1] == '.'; }
      if i :| 0 < i < |s| && s[i - 1] == s[i] == '.' {
        if i > 1 { assert s[1..][i - 2] == s[1..][i - 1] == '.'; }
      }
    }
  }

  predicate Refused(value: string) {
    '%' in value || '\\' in value || '\0' in value || HasDots(value) || |value| > MaxPath
  }

  predicate PartFits(part: string, value: string) { if Parameter(part) then value != "" else part == value }

  predicate PartsFit(parts: seq<string>, values: seq<string>) {
    |parts| == |values| && forall i :: 0 <= i < |parts| ==> PartFits(parts[i], values[i])
  }

  function Bound(parts: seq<string>, values: seq<string>): map<string, string>
    requires |parts| == |values|
  {
    if parts == [] then map[]
    else
      var k := |parts| - 1;
      var front := Bound(parts[..k], values[..k]);
      if Parameter(parts[k]) then front[KeyOf(parts[k]) := values[k]] else front
  }

  function Pieces(s: string): seq<string> { Split(TrimSlash(s), '/') }

  function Matched(pattern: string, value: string): Option<map<string, string>> {
    if !Refused(value) && PartsFit(Pieces(pattern), Pieces(value)) then Some(Bound(Pieces(pattern), Pieces(value))) else None
  }

  method Match(pattern: string, value: string) returns (r: Option<map<string, string>>)
    ensures r == Matched(pattern, value)
  {
    if '%' in value || '\\' in value || '\0' in value || HasDots(value) || |value| > MaxPath { return None; }
    r := Bind(Split(TrimSlash(pattern), '/'), Split(TrimSlash(value), '/'));
  }

  method Bind(a: seq<string>, b: seq<string>) returns (r: Option<map<string, string>>)
    ensures r == if PartsFit(a, b) then Some(Bound(a, b)) else None
  {
    if |a| != |b| { return None; }
    var params: map<string, string> := map[];
    for i := 0 to |a|
      invariant params == Bound(a[..i], b[..i])
      invariant forall k :: 0 <= k < i ==> PartFits(a[k], b[k])
    {
      assert a[..i + 1][..i] == a[..i] && b[..i + 1][..i] == b[..i];
      if Starts(a[i], '{') {
        if b[i] == "" { return None; }
        params := params[KeyOf(a[i]) := b[i]];
      } else if a[i] != b[i] {
        return None;
      }
    }
    assert a[..|a|] == a && b[..|b|] == b;
    return Some(params);
  }

  // Routes that both fit one path overlap.
  lemma BothFitOverlaps(xs: seq<string>, ys: seq<string>, values: seq<string>)
    requires PartsFit(xs, values) && PartsFit(ys, values)
    ensures Overlapping([""] + xs, [""] + ys)
  {
    var a, b := [""] + xs, [""] + ys;
    forall k | 0 <= k < |a| ensures a[k] == b[k] || Parameter(a[k]) || Parameter(b[k]) {
      if k > 0 { assert PartFits(xs[k - 1], values[k - 1]) && PartFits(ys[k - 1], values[k - 1]); }
    }
  }

  // No path matches two pages of an accepted manifest.
  lemma NoPathMatchesTwoPages(pages: seq<Page>, i: nat, j: nat, value: string)
    requires PagesOk(pages) && i < j < |pages|
    ensures Matched(pages[i].path, value) == None || Matched(pages[j].path, value) == None
  {
    RouteShape(pages, i);
    RouteShape(pages, j);
    assert Apart(pages[i], pages[j]);
    var xs, ys, values := Pieces(pages[i].path), Pieces(pages[j].path), Pieces(value);
    if PartsFit(xs, values) && PartsFit(ys, values) { BothFitOverlaps(xs, ys, values); }
  }

  // ---- the shape of an accepted route ----

  predicate Literal(part: string) { forall c <- part :: 'a' <= c <= 'z' || '0' <= c <= '9' || c == '-' }

  predicate Shaped(parts: seq<string>) { forall part <- parts :: Parameter(part) || Literal(part) }

  lemma RouteShape(pages: seq<Page>, i: nat)
    requires PagesOk(pages) && i < |pages|
    ensures RouteOk(pages[i].path)
    ensures Split(pages[i].path, '/') == [""] + Pieces(pages[i].path) && Shaped(Pieces(pages[i].path))
  {
    assert PageOk(pages[i]);
    ShapeOf(pages[i].path);
  }

  lemma ShapeOf(path: string)
    requires RouteOk(path)
    ensures Split(path, '/') == [""] + Pieces(path) && Shaped(Pieces(path))
  {
    assert path == ['/'] + path[1..];
    SplitAfter(path[1..], '/');
    if path == "/" { assert Cut("", '/') == None; }
  }

  // ---- what the check for ambiguous routes means ----

  // A path that fits both routes and is refused for its length only.
  ghost predicate Shared(a: string, b: string, value: string) {
    && PartsFit(Pieces(a), Pieces(value)) && PartsFit(Pieces(b), Pieces(value))
    && (Refused(value) ==> |value| > MaxPath)
  }

  predicate Clean(parts: seq<string>) { forall part <- parts :: Literal(part) }

  lemma CleanPath(parts: seq<string>)
    requires |parts| > 0 && Clean(parts)
    ensures Pieces("/" + Join(parts, '/')) == parts
    ensures Refused("/" + Join(parts, '/')) ==> |"/" + Join(parts, '/')| > MaxPath
  {
    var value := "/" + Join(parts, '/');
    SplitOfJoin(parts, '/');
    assert TrimSlash(value) == Join(parts, '/');
    CharsOfParts(parts, '%');
    CharsOfParts(parts, '\\');
    CharsOfParts(parts, '\0');
    DotsOfParts(parts);
    DotsOfJoin("", Join(parts, '/'));
    assert "" + "/" + Join(parts, '/') == value;
    forall part | part in parts ensures !HasDots(part) { NoDotsInLiteral(part); }
  }

  // The literal part of two that overlap, or any text for two parameters.
  function Meet(a: string, b: string): string {
    if !Parameter(a) then a else if !Parameter(b) then b else "x"
  }

  function Meets(xs: seq<string>, ys: seq<string>): (r: seq<string>)
    requires |xs| == |ys|
  {
    seq(|xs|, i requires 0 <= i < |xs| => Meet(xs[i], ys[i]))
  }

  lemma MeetsFit(xs: seq<string>, ys: seq<string>)
    requires Shaped(xs) && Shaped(ys) && Overlapping(xs, ys) && "" !in xs && "" !in ys
    ensures Clean(Meets(xs, ys)) && PartsFit(xs, Meets(xs, ys)) && PartsFit(ys, Meets(xs, ys))
  {
    forall i | 0 <= i < |xs|
      ensures Literal(Meet(xs[i], ys[i])) && PartFits(xs[i], Meet(xs[i], ys[i])) && PartFits(ys[i], Meet(xs[i], ys[i]))
    {
      assert xs[i] in xs && ys[i] in ys;
    }
  }

  // Only the root has an empty piece.
  lemma EmptyPiece(path: string)
    requires RouteOk(path)
    ensures if path == "/" then Pieces(path) == [""] else "" !in Pieces(path)
  {
    if path == "/" { assert Cut("", '/') == None; }
  }

  lemma RootFitsAlone(xs: seq<string>, ys: seq<string>, values: seq<string>)
    requires PartsFit(xs, values) && PartsFit(ys, values)
    ensures xs == [""] ==> "" in ys
    ensures ys == [""] ==> "" in xs
  {
    if |xs| > 0 && |ys| > 0 { assert PartFits(xs[0], values[0]) && PartFits(ys[0], values[0]) && ys[0] in ys && xs[0] in xs; }
  }

  lemma OverlapIsShared(xs: seq<string>, ys: seq<string>) returns (parts: seq<string>)
    requires Shaped(xs) && Shaped(ys) && |xs| > 0 && Overlapping([""] + xs, [""] + ys)
    requires (xs == [""] && ys == [""]) || ("" !in xs && "" !in ys)
    ensures |parts| > 0 && Clean(parts) && PartsFit(xs, parts) && PartsFit(ys, parts)
  {
    assert forall i :: 0 <= i < |xs| ==> ([""] + xs)[i + 1] == xs[i] && ([""] + ys)[i + 1] == ys[i];
    if xs == [""] && ys == [""] {
      parts := [""];
    } else {
      MeetsFit(xs, ys);
      parts := Meets(xs, ys);
    }
  }

  lemma PathIsShared(a: string, b: string, parts: seq<string>)
    requires |parts| > 0 && Clean(parts) && PartsFit(Pieces(a), parts) && PartsFit(Pieces(b), parts)
    ensures Shared(a, b, "/" + Join(parts, '/'))
  {
    CleanPath(parts);
  }

  lemma SharedIsOverlap(a: string, b: string, value: string)
    requires RouteOk(a) && RouteOk(b) && Shared(a, b, value)
    ensures Overlapping([""] + Pieces(a), [""] + Pieces(b)) && (a == "/" <==> b == "/")
  {
    EmptyPiece(a);
    EmptyPiece(b);
    BothFitOverlaps(Pieces(a), Pieces(b), Pieces(value));
    RootFitsAlone(Pieces(a), Pieces(b), Pieces(value));
  }

  // Two routes are refused as ambiguous exactly when some path fits both, except that the root is
  // also refused beside a route of one parameter, which never takes the empty path.
  lemma OverlapIffShared(a: string, b: string)
    requires RouteOk(a) && RouteOk(b)
    ensures (exists value :: Shared(a, b, value)) <==> Overlapping(Split(a, '/'), Split(b, '/')) && (a == "/" <==> b == "/")
  {
    ShapeOf(a);
    ShapeOf(b);
    if value :| Shared(a, b, value) { SharedIsOverlap(a, b, value); }
    if Overlapping([""] + Pieces(a), [""] + Pieces(b)) && (a == "/" <==> b == "/") {
      EmptyPiece(a);
      EmptyPiece(b);
      var parts := OverlapIsShared(Pieces(a), Pieces(b));
      PathIsShared(a, b, parts);
    }
  }

  lemma RootIsRefusedBesideParameter()
    ensures RouteOk("/") && RouteOk("/{i}") && Overlapping(Split("/", '/'), Split("/{i}", '/'))
    ensures forall value :: !Shared("/", "/{i}", value)
  {
    SplitOne();
    ShapeOf("/");
    EmptyPiece("/");
    ShapeOf("/{i}");
    OverlapIffShared("/", "/{i}");
  }

  // ---- building a URL ----

  predicate ValueOk(v: string) {
    v != "" && v != "." && v != ".." && '/' !in v && '\\' !in v && '%' !in v && '\0' !in v
  }

  type Params = params: map<string, string> | forall key <- params :: Bytes(params[key])

  predicate PartGiven(part: string, params: map<string, string>) {
    Parameter(part) ==> KeyOf(part) in params && ValueOk(params[KeyOf(part)])
  }

  predicate Given(parts: seq<string>, params: map<string, string>) {
    forall i :: 0 <= i < |parts| ==> PartGiven(parts[i], params)
  }

  function Used(parts: seq<string>): set<string> { set part <- parts | Parameter(part) :: KeyOf(part) }

  function FilledPart(part: string, params: map<string, string>): string
    requires PartGiven(part, params)
  {
    if Parameter(part) then params[KeyOf(part)] else part
  }

  function EscapedPart(part: string, params: Params): string
    requires PartGiven(part, params)
  {
    if Parameter(part) then Escape(params[KeyOf(part)]) else part
  }

  function Fill(parts: seq<string>, params: map<string, string>): (r: seq<string>)
    requires Given(parts, params)
  {
    seq(|parts|, i requires 0 <= i < |parts| => FilledPart(parts[i], params))
  }

  function EscapedFill(parts: seq<string>, params: Params): seq<string>
    requires Given(parts, params)
  {
    seq(|parts|, i requires 0 <= i < |parts| => EscapedPart(parts[i], params))
  }

  // Every parameter of the route is given a usable value and nothing else is given.
  predicate Buildable(path: string, params: map<string, string>) {
    Given(Split(path, '/'), params) && |Used(Split(path, '/'))| == |params|
  }

  // The part of the URL behind /pages.
  function BuiltPath(path: string, params: Params): string
    requires Buildable(path, params)
  {
    Join(EscapedFill(Split(path, '/'), params), '/')
  }

  // The path the router sees.
  function FilledPath(path: string, params: map<string, string>): string
    requires Buildable(path, params)
  {
    Join(Fill(Split(path, '/'), params), '/')
  }

  predicate IsPage(pages: seq<Page>, id: string, k: nat) {
    k < |pages| && pages[k].id == id && forall i :: 0 <= i < k ==> pages[i].id != id
  }

  lemma NextUsed(route: seq<string>, i: nat)
    requires i < |route|
    ensures Used(route[..i + 1]) == Used(route[..i]) + if Parameter(route[i]) then {KeyOf(route[i])} else {}
  {
    assert route[..i + 1] == route[..i] + [route[i]];
  }

  method FillParts(route: seq<string>, params: Params) returns (r: Option<(seq<string>, set<string>)>)
    ensures r.Some? <==> Given(route, params)
    ensures r.Some? ==> r.value == (EscapedFill(route, params), Used(route))
  {
    var parts := route;
    var used: set<string> := {};
    for i := 0 to |route|
      invariant |parts| == |route| && used == Used(route[..i])
      invariant forall j :: 0 <= j < i ==> PartGiven(route[j], params) && parts[j] == EscapedPart(route[j], params)
      invariant forall j :: i <= j < |route| ==> parts[j] == route[j]
    {
      NextUsed(route, i);
      var s := parts[i];
      if Starts(s, '{') {
        var key := KeyOf(s);
        if key !in params || !ValueOk(params[key]) { return None; }
        parts := parts[i := Escape(params[key])];
        used := used + {key};
      }
    }
    assert route[..|route|] == route;
    assert parts == EscapedFill(route, params);
    return Some((parts, used));
  }

  method PageURL(pages: seq<Page>, id: string, params: Params) returns (r: Option<string>, ghost k: nat)
    ensures r.Some? ==>
              IsPage(pages, id, k) && Buildable(pages[k].path, params) && r.value == BuiltPath(pages[k].path, params)
    ensures r == None ==> forall j: nat :: IsPage(pages, id, j) ==> !Buildable(pages[j].path, params)
  {
    k := 0;
    var i := 0;
    while i < |pages| && pages[i].id != id
      invariant i <= |pages| && forall j :: 0 <= j < i ==> pages[j].id != id
    {
      i := i + 1;
    }
    if i == |pages| { return None, k; }
    k := i;
    assert IsPage(pages, id, k) && forall j: nat :: IsPage(pages, id, j) ==> j == k;
    var filled := FillParts(Split(pages[i].path, '/'), params);
    if filled == None || |filled.value.1| != |params| { return None, k; }
    return Some(Join(filled.value.0, '/')), k;
  }

  // ---- the path a URL decodes to ----

  ghost predicate Decodes(coded: string, plain: string) {
    forall rest :: Unescape(coded + rest) == Prepend(plain, Unescape(rest))
  }

  lemma PartDecodes(part: string, params: Params)
    requires PartGiven(part, params) && (Parameter(part) || '%' !in part)
    ensures Decodes(EscapedPart(part, params), FilledPart(part, params))
  {
    forall rest ensures Unescape(EscapedPart(part, params) + rest) == Prepend(FilledPart(part, params), Unescape(rest)) {
      if Parameter(part) { UnescapeEscaped(params[KeyOf(part)], rest); } else { UnescapePlain(part, rest); }
    }
  }

  lemma DecodesAlone(coded: string, plain: string)
    requires Decodes(coded, plain)
    ensures Unescape(coded) == Some(plain)
  {
    assert coded + "" == coded && plain + "" == plain;
    assert Unescape(coded + "") == Prepend(plain, Unescape(""));
  }

  lemma DecodesBefore(coded: string, plain: string, rest: string, text: string)
    requires Decodes(coded, plain) && Unescape(rest) == Some(text)
    ensures Unescape(coded + ['/'] + rest) == Some(plain + ['/'] + text)
  {
    var tail := ['/'] + rest;
    SlashDecodes(rest, text);
    assert coded + ['/'] + rest == coded + tail && plain + ['/'] + text == plain + (['/'] + text);
    assert Unescape(coded + tail) == Prepend(plain, Unescape(tail));
  }

  lemma SlashDecodes(rest: string, text: string)
    requires Unescape(rest) == Some(text)
    ensures Unescape(['/'] + rest) == Some(['/'] + text)
  {
    assert (['/'] + rest)[1..] == rest;
  }

  lemma {:induction false} UnescapeJoin(coded: seq<string>, plain: seq<string>)
    requires |coded| == |plain| > 0 && forall i :: 0 <= i < |coded| ==> Decodes(coded[i], plain[i])
    ensures Unescape(Join(coded, '/')) == Some(Join(plain, '/'))
  {
    if |coded| == 1 {
      DecodesAlone(coded[0], plain[0]);
    } else {
      UnescapeJoin(coded[1..], plain[1..]);
      DecodesBefore(coded[0], plain[0], Join(coded[1..], '/'), Join(plain[1..], '/'));
    }
  }

  // ---- what the router makes of it ----

  lemma {:induction false} DotsOfJoin(a: string, b: string)
    ensures HasDots(a + "/" + b) <==> HasDots(a) || HasDots(b)
  {
    if a == "" {
      assert (a + "/" + b)[1..] == b;
    } else {
      assert (a + "/" + b)[1..] == a[1..] + "/" + b;
      DotsOfJoin(a[1..], b);
    }
  }

  lemma {:induction false} DotsOfParts(parts: seq<string>)
    requires |parts| > 0
    ensures HasDots(Join(parts, '/')) <==> exists part <- parts :: HasDots(part)
  {
    if |parts| == 1 {
      assert parts[0] in parts;
    } else {
      DotsOfJoin(parts[0], Join(parts[1..], '/'));
      DotsOfParts(parts[1..]);
      assert parts == [parts[0]] + parts[1..];
    }
  }

  lemma {:induction false} CharsOfParts(parts: seq<string>, c: char)
    requires |parts| > 0 && c != '/'
    ensures c in Join(parts, '/') <==> exists part <- parts :: c in part
  {
    if |parts| == 1 {
      assert parts[0] in parts;
    } else {
      CharsOfParts(parts[1..], c);
      assert parts == [parts[0]] + parts[1..];
    }
  }

  lemma {:induction false} NoDotsInLiteral(part: string)
    requires Literal(part)
    ensures !HasDots(part)
  {
    if |part| >= 2 {
      assert part[0] in part && forall c <- part[1..] :: c in part;
      NoDotsInLiteral(part[1..]);
    }
  }

  lemma {:induction false} BoundIsGiven(parts: seq<string>, params: map<string, string>)
    requires Given(parts, params)
    ensures Bound(parts, Fill(parts, params)) == map key | key in Used(parts) :: params[key]
  {
    if parts != [] {
      var k := |parts| - 1;
      assert Fill(parts, params)[..k] == Fill(parts[..k], params);
      BoundIsGiven(parts[..k], params);
      NextUsed(parts, k);
      assert parts[..k + 1] == parts;
    }
  }

  // No text that a route or a usable value could contribute is refused for a single character.
  lemma FilledPartIsClean(part: string, params: map<string, string>)
    requires PartGiven(part, params) && (Parameter(part) || Literal(part))
    ensures '/' !in FilledPart(part, params) && '%' !in FilledPart(part, params)
    ensures '\\' !in FilledPart(part, params) && '\0' !in FilledPart(part, params)
    ensures PartFits(part, FilledPart(part, params))
    ensures HasDots(FilledPart(part, params)) <==> Parameter(part) && HasDots(params[KeyOf(part)])
  {
    if !Parameter(part) { NoDotsInLiteral(part); }
  }

  lemma FilledIsSlashFree(pieces: seq<string>, params: map<string, string>)
    requires Shaped(pieces) && Given(pieces, params)
    ensures forall part <- Fill(pieces, params) :: '/' !in part
  {
    var plain := Fill(pieces, params);
    forall part | part in plain ensures '/' !in part {
      var i :| 0 <= i < |plain| && plain[i] == part;
      assert pieces[i] in pieces;
      FilledPartIsClean(pieces[i], params);
    }
  }

  lemma FilledBehindSlash(pieces: seq<string>, params: map<string, string>)
    requires |pieces| > 0 && Given([""] + pieces, params)
    ensures Given(pieces, params)
    ensures Join(Fill([""] + pieces, params), '/') == "/" + Join(Fill(pieces, params), '/')
  {
    var parts := [""] + pieces;
    assert forall i :: 0 <= i < |pieces| ==> pieces[i] == parts[i + 1] && PartGiven(parts[i + 1], params);
    var all, plain := Fill(parts, params), Fill(pieces, params);
    assert all == [""] + plain && all[1..] == plain;
  }

  // A route with a leading slash filled in: what is behind the slash are its filled pieces.
  lemma FilledPieces(path: string, pieces: seq<string>, params: map<string, string>)
    requires |pieces| > 0 && Split(path, '/') == [""] + pieces && Shaped(pieces) && Buildable(path, params)
    ensures Given(pieces, params) && Used(pieces) == params.Keys
    ensures FilledPath(path, params) == "/" + Join(Fill(pieces, params), '/')
    ensures Pieces(FilledPath(path, params)) == Fill(pieces, params)
  {
    FilledBehindSlash(pieces, params);
    var plain := Fill(pieces, params);
    FilledIsSlashFree(pieces, params);
    SplitOfJoin(plain, '/');
    assert TrimSlash("/" + Join(plain, '/')) == Join(plain, '/');
    UsedIsGiven(path, pieces, params);
  }

  lemma UsedIsGiven(path: string, pieces: seq<string>, params: map<string, string>)
    requires Split(path, '/') == [""] + pieces && Buildable(path, params)
    ensures Used(pieces) == params.Keys
  {
    var parts := [""] + pieces;
    assert Used(parts) == Used(pieces);
    forall key | key in Used(parts) ensures key in params {
      var part :| part in parts && Parameter(part) && KeyOf(part) == key;
      var i :| 0 <= i < |parts| && parts[i] == part;
      assert PartGiven(parts[i], params);
    }
    EqualBySize(Used(parts), params.Keys);
  }

  // What the router accepts of what PageURL builds.
  predicate Routable(path: string, params: map<string, string>)
    requires Buildable(path, params)
  {
    (forall key <- params :: !HasDots(params[key])) && |FilledPath(path, params)| <= MaxPath
  }

  lemma FilledIsRefused(path: string, pieces: seq<string>, params: map<string, string>)
    requires |pieces| > 0 && Split(path, '/') == [""] + pieces && Shaped(pieces) && Buildable(path, params)
    ensures Refused(FilledPath(path, params)) <==> !Routable(path, params)
  {
    FilledPieces(path, pieces, params);
    var plain := Fill(pieces, params);
    var value := Join(plain, '/');
    forall i | 0 <= i < |plain|
      ensures '%' !in plain[i] && '\\' !in plain[i] && '\0' !in plain[i]
      ensures HasDots(plain[i]) <==> Parameter(pieces[i]) && HasDots(params[KeyOf(pieces[i])])
    {
      assert pieces[i] in pieces;
      FilledPartIsClean(pieces[i], params);
    }
    CharsOfParts(plain, '%');
    CharsOfParts(plain, '\\');
    CharsOfParts(plain, '\0');
    DotsOfJoin("", value);
    DotsOfParts(plain);
    DotsOfValues(pieces, params);
    assert "" + "/" + value == FilledPath(path, params);
  }

  lemma DotsOfValues(pieces: seq<string>, params: map<string, string>)
    requires Given(pieces, params) && Used(pieces) == params.Keys
    requires forall i :: 0 <= i < |pieces| ==>
               (HasDots(Fill(pieces, params)[i]) <==> Parameter(pieces[i]) && HasDots(params[KeyOf(pieces[i])]))
    ensures (exists part <- Fill(pieces, params) :: HasDots(part)) <==> (exists key <- params :: HasDots(params[key]))
  {
    var plain := Fill(pieces, params);
    if key :| key in params && HasDots(params[key]) {
      var part :| part in pieces && Parameter(part) && KeyOf(part) == key;
      var i :| 0 <= i < |pieces| && pieces[i] == part;
      assert plain[i] in plain && HasDots(plain[i]);
    }
    if part :| part in plain && HasDots(part) {
      var i :| 0 <= i < |plain| && plain[i] == part;
      assert KeyOf(pieces[i]) in params;
    }
  }

  // A built URL decodes to the filled route. The router finds the page it was built for, with
  // exactly the parameters supplied, if and only if no value holds two dots in a row and the
  // decoded path is within the limit; and it never finds another page.
  lemma BuiltUrlFindsItsPage(pages: seq<Page>, k: nat, params: Params)
    requires PagesOk(pages) && k < |pages| && Buildable(pages[k].path, params)
    ensures var path := FilledPath(pages[k].path, params);
            && Unescape(BuiltPath(pages[k].path, params)) == Some(path)
            && Matched(pages[k].path, path) == (if Routable(pages[k].path, params) then Some(params) else None)
            && forall j :: 0 <= j < |pages| && j != k ==> Matched(pages[j].path, path) == None
  {
    var route := pages[k].path;
    RouteShape(pages, k);
    BuiltDecodes(route, Pieces(route), params);
    OwnPageFound(route, params);
    forall j: nat | j < |pages| && j != k ensures Matched(pages[j].path, FilledPath(route, params)) == None {
      OtherPageNotFound(pages, k, j, FilledPath(route, params));
    }
  }

  lemma OwnPageFound(route: string, params: map<string, string>)
    requires Split(route, '/') == [""] + Pieces(route) && Shaped(Pieces(route)) && Buildable(route, params)
    ensures var path := FilledPath(route, params);
            && Matched(route, path) == (if Routable(route, params) then Some(params) else None)
            && (!Routable(route, params) ==> Refused(path))
  {
    var pieces := Pieces(route);
    FilledPieces(route, pieces, params);
    FilledIsRefused(route, pieces, params);
    FilledFits(pieces, params);
    BoundIsGiven(pieces, params);
    assert (map key | key in Used(pieces) :: params[key]) == params;
  }

  lemma OtherPageNotFound(pages: seq<Page>, k: nat, j: nat, path: string)
    requires PagesOk(pages) && k < |pages| && j < |pages| && j != k
    requires Matched(pages[k].path, path) == None ==> Refused(path)
    ensures Matched(pages[j].path, path) == None
  {
    if j < k { NoPathMatchesTwoPages(pages, j, k, path); } else { NoPathMatchesTwoPages(pages, k, j, path); }
  }

  lemma FilledFits(pieces: seq<string>, params: map<string, string>)
    requires Shaped(pieces) && Given(pieces, params)
    ensures PartsFit(pieces, Fill(pieces, params))
  {
    forall i | 0 <= i < |pieces| ensures PartFits(pieces[i], Fill(pieces, params)[i]) {
      assert pieces[i] in pieces;
      FilledPartIsClean(pieces[i], params);
    }
  }

  lemma BuiltDecodes(path: string, pieces: seq<string>, params: Params)
    requires Split(path, '/') == [""] + pieces && Shaped(pieces) && Buildable(path, params)
    ensures Unescape(BuiltPath(path, params)) == Some(FilledPath(path, params))
  {
    var parts := Split(path, '/');
    var coded, plain := EscapedFill(parts, params), Fill(parts, params);
    forall i | 0 <= i < |parts| ensures Decodes(coded[i], plain[i]) {
      if i > 0 { assert parts[i] == pieces[i - 1] && pieces[i - 1] in pieces; }
      PartDecodes(parts[i], params);
    }
    UnescapeJoin(coded, plain);
  }

  // PageURL builds a URL that no page is found for.
  lemma DotsAreBuiltButNotFound()
    ensures var pages, params := [Page("item", "/{i}", true)], map["i" := "a..b"];
            && PagesOk(pages) && Buildable(pages[0].path, params)
            && Unescape(BuiltPath(pages[0].path, params)) == Some(FilledPath(pages[0].path, params))
            && forall page <- pages :: Matched(page.path, FilledPath(page.path, params)) == None
  {
    var pages, params: Params := [Page("item", "/{i}", true)], map["i" := "a..b"];
    DotsAreBuilt();
    BuiltUrlFindsItsPage(pages, 0, params);
  }

  lemma DotsAreBuilt()
    ensures var pages, params := [Page("item", "/{i}", true)], map["i" := "a..b"];
            PagesOk(pages) && Buildable(pages[0].path, params) && !Routable(pages[0].path, params)
  {
    var path, params := "/{i}", map["i" := "a..b"];
    SplitOne();
    var parts := ["", "{i}"];
    assert Given(parts, params) by { assert ValueOk("a..b"); }
    assert Used(parts) == {"i"};
    assert "a..b"[1..] == "..b" && HasDots("..b") && HasDots(params["i"]);
  }

  lemma SplitOne()
    ensures Split("/{i}", '/') == ["", "{i}"] && KeyOf("{i}") == "i" && RouteOk("/{i}")
  {
    assert Cut("{i}", '/') == None;
    assert "/{i}" == ['/'] + "{i}";
    SplitAfter("{i}", '/');
    assert "{i}"[1..2] == "i" && "{i}"[1..] == "i}" && "i}"[..1] == "i";
    assert "/{i}"[1..] == "{i}";
    assert PartOk("{i}");
  }
}
