/**
The range checks shared by the font readers, internal/adapters/fontvalidate/font.go:32-138 and
175-204. Sums are taken as the source takes them, on 64-bit words, and the contracts are stated
on exact integers.
*/
module FontTables {
  import opened Wrappers
  import opened Base128

  type Bytes = seq<Byte>
  type Word = w: int | 0 <= w < 0x1_0000_0000_0000_0000

  const MaxDecoded: nat := 0x400_0000
  const MaxMetadata: nat := 0x10_0000

  datatype FontError = Bad | Large | Unsupported

  datatype Entry = Entry(tag: string, offset: Word, size: Word, original: Word, transformed: bool)

  // A decompressor gives the whole output of a stream that decodes without error.
  type Decompressor = Bytes -> Option<Bytes>

  type Sorter = seq<Entry> -> seq<Entry>

  function Add64(a: Word, b: Word): Word { (a + b) % 0x1_0000_0000_0000_0000 }

  function RoundUp(x: nat): nat { (x + 3) / 4 * 4 }

  function RoundUp64(x: Word): Word { Add64(x, 3) / 4 * 4 }

  function U16(b: Bytes, o: nat): nat
    requires o + 2 <= |b|
  {
    b[o] as int * 256 + b[o + 1]
  }

  function U32(b: Bytes, o: nat): (r: nat)
    requires o + 4 <= |b|
    ensures r < 0x1_0000_0000
  {
    b[o] as int * 0x100_0000 + b[o + 1] as int * 0x1_0000 + b[o + 2] as int * 0x100 + b[o + 3]
  }

  function Text(b: Bytes): string { seq(|b|, i requires 0 <= i < |b| => b[i] as char) }

  function Region(b: Bytes, offset: Word, size: Word): (r: Result<Bytes, FontError>)
    ensures r.Ok? <==> offset + size <= |b|
    ensures r.Ok? ==> r.value == b[offset..offset + size]
    ensures r.Err? ==> r.error == Bad
  {
    if offset > |b| || size > |b| - offset then Err(Bad) else Ok(b[offset..offset + size])
  }

  predicate MetadataTag(tag: string) {
    tag in ["name", "OS/2", "head", "maxp", "cmap", "hhea", "fvar"]
  }

  // ---- table bounds ----

  function Originals(es: seq<Entry>): nat {
    if es == [] then 0 else Originals(es[..|es| - 1]) + es[|es| - 1].original
  }

  predicate DistinctTags(es: seq<Entry>) {
    forall i, j :: 0 <= i < j < |es| ==> es[i].tag != es[j].tag
  }

  predicate WithinLimit(e: Entry) {
    e.original <= if MetadataTag(e.tag) then MaxMetadata else MaxDecoded
  }

  predicate WithinLimits(es: seq<Entry>) {
    Originals(es) <= MaxDecoded && forall e <- es :: WithinLimit(e)
  }

  predicate BoundsHold(es: seq<Entry>, total: nat) {
    1 <= |es| <= 256 && DistinctTags(es) && WithinLimits(es) && total <= MaxDecoded
  }

  lemma {:induction false} OriginalsGrow(es: seq<Entry>, k: nat)
    requires k <= |es|
    ensures Originals(es[..k]) <= Originals(es)
  {
    if k < |es| {
      assert es[..|es| - 1][..k] == es[..k];
      OriginalsGrow(es[..|es| - 1], k);
    } else {
      assert es[..k] == es;
    }
  }

  lemma NextTag(es: seq<Entry>, k: nat)
    requires k < |es|
    ensures Tags(es[..k + 1]) == Tags(es[..k]) + {es[k].tag}
    ensures es[k].tag in Tags(es[..k]) ==> !DistinctTags(es)
    ensures DistinctTags(es[..k]) && es[k].tag !in Tags(es[..k]) ==> DistinctTags(es[..k + 1])
  {
    assert es[..k + 1] == es[..k] + [es[k]];
  }

  lemma NextLimit(es: seq<Entry>, k: nat)
    requires k < |es|
    ensures Originals(es[..k + 1]) == Originals(es[..k]) + es[k].original
    ensures WithinLimits(es[..k]) && WithinLimit(es[k]) && Originals(es[..k + 1]) <= MaxDecoded ==> WithinLimits(es[..k + 1])
    ensures WithinLimits(es) ==> WithinLimit(es[k]) && Originals(es[..k + 1]) <= MaxDecoded
  {
    assert es[..k + 1][..k] == es[..k] && es[..k + 1] == es[..k] + [es[k]];
    OriginalsGrow(es, k + 1);
    assert es[k] in es;
  }

  // An entry of any 64-bit size is met exactly: the sum that could wrap is refused.
  method TableBounds(es: seq<Entry>, total: Word) returns (r: Option<FontError>)
    ensures r == None <==> BoundsHold(es, total)
    ensures r == Some(Bad) ==> !(1 <= |es| <= 256) || !DistinctTags(es)
    ensures r == Some(Large) ==> !WithinLimits(es) || total > MaxDecoded
    ensures r != Some(Unsupported)
  {
    if |es| == 0 || |es| > 256 { return Some(Bad); }
    var seen: set<string> := {};
    var sum: Word := 0;
    for k := 0 to |es|
      invariant DistinctTags(es[..k]) && WithinLimits(es[..k])
      invariant seen == Tags(es[..k])
      invariant sum == Originals(es[..k])
    {
      var t := es[k];
      NextTag(es, k);
      NextLimit(es, k);
      if t.tag in seen { return Some(Bad); }
      seen := seen + {t.tag};
      sum := Add64(sum, t.original);
      if sum > MaxDecoded || t.original > MaxDecoded || (MetadataTag(t.tag) && t.original > MaxMetadata) {
        return Some(Large);
      }
    }
    assert es[..|es|] == es;
    if total > MaxDecoded { return Some(Large); }
    return None;
  }

  // ---- orders of the same ranges ----

  predicate Ascending(s: seq<Entry>) {
    forall i, j :: 0 <= i < j < |s| ==> s[i].offset <= s[j].offset
  }

  ghost predicate Permutes(sort: Sorter) { forall s :: multiset(sort(s)) == multiset(s) }

  // What the sort is asked for; entries of equal offset may come in any order.
  ghost predicate Sorts(sort: Sorter) {
    forall s :: multiset(sort(s)) == multiset(s) && Ascending(sort(s))
  }

  ghost predicate Pairwise(s: seq<Entry>, related: (Entry, Entry) -> bool) {
    forall i, j :: 0 <= i < j < |s| ==> related(s[i], s[j])
  }

  ghost predicate Symmetric(related: (Entry, Entry) -> bool) {
    forall a, b :: related(a, b) == related(b, a)
  }

  lemma OccursTwice(s: seq<Entry>, x: Entry) returns (i: nat, j: nat)
    requires multiset(s)[x] >= 2
    ensures i < j < |s| && s[i] == s[j] == x
  {
    i :| i < |s| && s[i] == x;
    var rest := s[..i] + s[i + 1..];
    assert s == s[..i] + [s[i]] + s[i + 1..];
    assert multiset(s) == multiset(rest) + multiset{x};
    assert x in rest;
    var k :| 0 <= k < |rest| && rest[k] == x;
    if k < i { i, j := k, i; } else { j := k + 1; }
  }

  lemma TwoPlaces(s: seq<Entry>, i: nat, j: nat)
    requires i < j < |s|
    ensures s[i] == s[j] ==> multiset(s)[s[i]] >= 2
  {
    assert s == s[..i] + [s[i]] + s[i + 1..j] + [s[j]] + s[j + 1..];
  }

  lemma AnyOrder(s: seq<Entry>, t: seq<Entry>, related: (Entry, Entry) -> bool)
    requires multiset(s) == multiset(t) && Symmetric(related) && Pairwise(s, related)
    ensures Pairwise(t, related)
  {
    forall i, j | 0 <= i < j < |t| ensures related(t[i], t[j]) {
      assert t[i] in multiset(s) && t[j] in multiset(s);
      if t[i] == t[j] {
        TwoPlaces(t, i, j);
        var m, n := OccursTwice(s, t[i]);
      } else {
        var m :| 0 <= m < |s| && s[m] == t[i];
        var n :| 0 <= n < |s| && s[n] == t[j];
      }
    }
  }

  predicate Disjoint(a: Entry, b: Entry) {
    a.size == 0 || b.size == 0 || a.offset + a.size <= b.offset || b.offset + b.size <= a.offset
  }

  lemma DisjointInAnyOrder(s: seq<Entry>, t: seq<Entry>)
    requires multiset(s) == multiset(t) && Pairwise(s, Disjoint)
    ensures Pairwise(t, Disjoint)
  {
    assert Symmetric(Disjoint);
    AnyOrder(s, t, Disjoint);
  }

  lemma SameMembers(s: seq<Entry>, t: seq<Entry>)
    requires multiset(s) == multiset(t)
    ensures forall e :: e in s <==> e in t
  {
    forall e ensures e in s <==> e in t {
      assert e in s <==> e in multiset(s);
      assert e in t <==> e in multiset(t);
    }
  }

  // ---- reading the tables ----

  predicate Empty(e: Entry) { e.original == 0 && e.size == 0 }

  // The bytes a table stands for, or None when its stream does not decode.
  function Content(data: Bytes, e: Entry, compressed: bool, inflate: Decompressor): Option<Bytes>
    requires e.offset + e.size <= |data|
  {
    var chunk := data[e.offset..e.offset + e.size];
    if compressed && e.size < e.original then inflate(chunk) else Some(chunk)
  }

  predicate Fits(data: Bytes, e: Entry, start: nat, compressed: bool, inflate: Decompressor) {
    && start <= e.offset && e.offset % 4 == 0 && e.offset + e.size <= |data| && e.size <= e.original
    && var content := Content(data, e, compressed, inflate);
       content.Some? && |content.value| == e.original
  }

  ghost predicate TablesFit(data: Bytes, es: seq<Entry>, start: nat, compressed: bool, inflate: Decompressor) {
    && (forall e <- es :: Empty(e) || Fits(data, e, start, compressed, inflate))
    && Pairwise(es, Disjoint)
  }

  // Metadata tables are kept with their bytes, all others only by name.
  function Kept(data: Bytes, e: Entry, compressed: bool, inflate: Decompressor): Option<Bytes> {
    if Empty(e) || !MetadataTag(e.tag) || e.offset + e.size > |data| then None
    else Content(data, e, compressed, inflate)
  }

  function Tags(es: seq<Entry>): set<string> { set e <- es :: e.tag }

  ghost predicate TablesOf(data: Bytes, es: seq<Entry>, compressed: bool, inflate: Decompressor,
                           tables: map<string, Option<Bytes>>)
  {
    && tables.Keys == Tags(es)
    && forall e <- es :: e.tag in tables && tables[e.tag] == Kept(data, e, compressed, inflate)
  }

  // A walk over ranges in file order, `end` being the end of the last one that is not empty.
  predicate Placed(data: Bytes, s: seq<Entry>, end: nat, compressed: bool, inflate: Decompressor) {
    s == [] ||
    if Empty(s[0]) then Placed(data, s[1..], end, compressed, inflate)
    else
      && Fits(data, s[0], end, compressed, inflate)
      && Placed(data, s[1..], s[0].offset + s[0].size, compressed, inflate)
  }

  function Collected(data: Bytes, s: seq<Entry>, compressed: bool, inflate: Decompressor): map<string, Option<Bytes>> {
    if s == [] then map[]
    else
      var e := s[|s| - 1];
      Collected(data, s[..|s| - 1], compressed, inflate)[e.tag := Kept(data, e, compressed, inflate)]
  }

  lemma FitsIsNotEmpty(data: Bytes, e: Entry, start: nat, compressed: bool, inflate: Decompressor)
    requires inflate([]) == None && !Empty(e) && Fits(data, e, start, compressed, inflate)
    ensures e.size > 0
  {
    var chunk := data[e.offset..e.offset + e.size];
    assert |chunk| == e.size && (chunk == [] || |chunk| > 0);
  }

  lemma FitsBehindFirst(data: Bytes, s: seq<Entry>, end: nat, compressed: bool, inflate: Decompressor)
    requires s != [] && Fits(data, s[0], end, compressed, inflate)
    requires TablesFit(data, s[1..], s[0].offset + s[0].size, compressed, inflate)
    ensures TablesFit(data, s, end, compressed, inflate)
  {
    var t, rest := s[0], s[1..];
    forall e | e in s && !Empty(e) ensures Fits(data, e, end, compressed, inflate) {
      assert e == t || e in rest;
    }
    forall i, j | 0 <= i < j < |s| ensures Disjoint(s[i], s[j]) {
      assert s[j] == rest[j - 1] && s[j] in rest;
      if i > 0 { assert s[i] == rest[i - 1]; }
    }
  }

  // Ranges after the first one, in ascending order, are clear of it only if they start after its end.
  lemma FitsAfterFirst(data: Bytes, s: seq<Entry>, end: nat, compressed: bool, inflate: Decompressor)
    requires s != [] && !Empty(s[0]) && Ascending(s) && inflate([]) == None
    requires TablesFit(data, s, end, compressed, inflate)
    ensures Fits(data, s[0], end, compressed, inflate)
    ensures TablesFit(data, s[1..], s[0].offset + s[0].size, compressed, inflate)
  {
    var t, rest := s[0], s[1..];
    assert t in s;
    FitsIsNotEmpty(data, t, end, compressed, inflate);
    forall e | e in rest && !Empty(e) ensures Fits(data, e, t.offset + t.size, compressed, inflate) {
      var i :| 0 <= i < |rest| && rest[i] == e;
      assert s[i + 1] == e && e in s;
      FitsIsNotEmpty(data, e, end, compressed, inflate);
      assert Disjoint(s[0], s[i + 1]);
    }
    assert forall i, j :: 0 <= i < j < |rest| ==> rest[i] == s[i + 1] && rest[j] == s[j + 1];
  }

  // In whatever order the walk takes them, tables it accepts fit and are disjoint.
  lemma {:induction false} PlacedFit(data: Bytes, s: seq<Entry>, end: nat, compressed: bool, inflate: Decompressor)
    requires Placed(data, s, end, compressed, inflate)
    ensures TablesFit(data, s, end, compressed, inflate)
  {
    if s != [] {
      if Empty(s[0]) {
        PlacedFit(data, s[1..], end, compressed, inflate);
        EmptyFirst(data, s, end, compressed, inflate);
      } else {
        PlacedFit(data, s[1..], s[0].offset + s[0].size, compressed, inflate);
        FitsBehindFirst(data, s, end, compressed, inflate);
      }
    }
  }

  // In ascending order it accepts all that do.
  lemma {:induction false} FitArePlaced(data: Bytes, s: seq<Entry>, end: nat, compressed: bool, inflate: Decompressor)
    requires Ascending(s) && inflate([]) == None && TablesFit(data, s, end, compressed, inflate)
    ensures Placed(data, s, end, compressed, inflate)
  {
    if s != [] {
      if Empty(s[0]) {
        EmptyFirst(data, s, end, compressed, inflate);
        FitArePlaced(data, s[1..], end, compressed, inflate);
      } else {
        FitsAfterFirst(data, s, end, compressed, inflate);
        FitArePlaced(data, s[1..], s[0].offset + s[0].size, compressed, inflate);
      }
    }
  }

  lemma EmptyFirst(data: Bytes, s: seq<Entry>, end: nat, compressed: bool, inflate: Decompressor)
    requires s != [] && Empty(s[0])
    ensures TablesFit(data, s, end, compressed, inflate) <==> TablesFit(data, s[1..], end, compressed, inflate)
  {
    var rest := s[1..];
    assert forall e :: e in s <==> e == s[0] || e in rest;
    assert forall i, j :: 0 <= i < j < |rest| ==> rest[i] == s[i + 1] && rest[j] == s[j + 1];
    if Pairwise(rest, Disjoint) {
      forall i, j | 0 <= i < j < |s| ensures Disjoint(s[i], s[j]) {
        if i > 0 { assert s[i] == rest[i - 1] && s[j] == rest[j - 1]; }
      }
    }
  }

  lemma {:induction false} CollectedAreTables(data: Bytes, s: seq<Entry>, compressed: bool, inflate: Decompressor)
    requires DistinctTags(s)
    ensures TablesOf(data, s, compressed, inflate, Collected(data, s, compressed, inflate))
  {
    if s != [] {
      var front, e := s[..|s| - 1], s[|s| - 1];
      CollectedAreTables(data, front, compressed, inflate);
      assert s == front + [e];
    }
  }

  lemma DistinctInAnyOrder(es: seq<Entry>, ordered: seq<Entry>)
    requires multiset(es) == multiset(ordered) && DistinctTags(es)
    ensures DistinctTags(ordered)
  {
    var differ := (a: Entry, b: Entry) => a.tag != b.tag;
    assert Pairwise(es, differ);
    AnyOrder(es, ordered, differ);
    forall i, j | 0 <= i < j < |ordered| ensures ordered[i].tag != ordered[j].tag {
      assert differ(ordered[i], ordered[j]);
    }
  }

  lemma FitInAnyOrder(data: Bytes, es: seq<Entry>, ordered: seq<Entry>, start: nat, compressed: bool, inflate: Decompressor)
    requires multiset(es) == multiset(ordered) && TablesFit(data, es, start, compressed, inflate)
    ensures TablesFit(data, ordered, start, compressed, inflate)
  {
    SameMembers(es, ordered);
    DisjointInAnyOrder(es, ordered);
  }

  // The order a sort chooses among equal offsets shows neither in the verdict nor in the tables.
  lemma PlacedIffFit(data: Bytes, es: seq<Entry>, start: nat, compressed: bool, inflate: Decompressor, sort: Sorter)
    requires Sorts(sort) && inflate([]) == None
    ensures Placed(data, sort(es), start, compressed, inflate) <==> TablesFit(data, es, start, compressed, inflate)
  {
    var ordered := sort(es);
    if Placed(data, ordered, start, compressed, inflate) {
      PlacedFit(data, ordered, start, compressed, inflate);
      FitInAnyOrder(data, ordered, es, start, compressed, inflate);
    }
    if TablesFit(data, es, start, compressed, inflate) {
      FitInAnyOrder(data, es, ordered, start, compressed, inflate);
      FitArePlaced(data, ordered, start, compressed, inflate);
    }
  }

  // Whatever permutation the sort returns, accepted tables fit and are disjoint.
  method Extract(data: Bytes, es: seq<Entry>, start: Word, compressed: bool, inflate: Decompressor, sort: Sorter)
    returns (r: Result<map<string, Option<Bytes>>, FontError>)
    requires |data| < 0x1_0000_0000_0000_0000 && DistinctTags(es) && Permutes(sort)
    ensures r.Ok? <==> Placed(data, sort(es), start, compressed, inflate)
    ensures r.Ok? ==> TablesFit(data, es, start, compressed, inflate)
    ensures Sorts(sort) && inflate([]) == None ==> (r.Ok? <==> TablesFit(data, es, start, compressed, inflate))
    ensures r.Ok? ==> TablesOf(data, es, compressed, inflate, r.value)
    ensures r.Err? ==> r.error == Bad
  {
    var ordered := sort(es);
    r := ExtractInOrder(data, ordered, start, compressed, inflate);
    if r.Ok? {
      DistinctInAnyOrder(es, ordered);
      CollectedAreTables(data, ordered, compressed, inflate);
      PlacedFit(data, ordered, start, compressed, inflate);
      FitInAnyOrder(data, ordered, es, start, compressed, inflate);
      SameMembers(es, ordered);
    }
    if Sorts(sort) && inflate([]) == None { PlacedIffFit(data, es, start, compressed, inflate, sort); }
  }

  // One table that is not empty, `end` bytes of the file being taken.
  method ReadTable(data: Bytes, t: Entry, end: nat, compressed: bool, inflate: Decompressor)
    returns (r: Option<Bytes>)
    ensures r.Some? <==> Fits(data, t, end, compressed, inflate)
    ensures r.Some? ==> r == Content(data, t, compressed, inflate)
  {
    if t.offset < end || t.offset % 4 != 0 { return None; }
    var chunk := Region(data, t.offset, t.size);
    if chunk.Err? || t.size > t.original { return None; }
    r := Some(chunk.value);
    if compressed && t.size < t.original { r := inflate(chunk.value); }
    if r.Some? && |r.value| != t.original { r := None; }
  }

  method ExtractInOrder(data: Bytes, ordered: seq<Entry>, start: Word, compressed: bool, inflate: Decompressor)
    returns (r: Result<map<string, Option<Bytes>>, FontError>)
    requires |data| < 0x1_0000_0000_0000_0000
    ensures r.Ok? <==> Placed(data, ordered, start, compressed, inflate)
    ensures r.Ok? ==> r.value == Collected(data, ordered, compressed, inflate)
    ensures r.Err? ==> r.error == Bad
  {
    var end: Word := start;
    var tables: map<string, Option<Bytes>> := map[];
    for k := 0 to |ordered|
      invariant Placed(data, ordered, start, compressed, inflate) <==> Placed(data, ordered[k..], end, compressed, inflate)
      invariant tables == Collected(data, ordered[..k], compressed, inflate)
    {
      var t := ordered[k];
      assert ordered[k..][1..] == ordered[k + 1..];
      assert ordered[..k + 1][..k] == ordered[..k];
      if Empty(t) {
        tables := tables[t.tag := None];
        continue;
      }
      var chunk := ReadTable(data, t, end, compressed, inflate);
      if chunk == None { return Err(Bad); }
      end := Add64(t.offset, t.size);
      tables := tables[t.tag := if MetadataTag(t.tag) then chunk else None];
    }
    assert ordered[..|ordered|] == ordered;
    return Ok(tables);
  }
}
