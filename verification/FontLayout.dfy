/**
SFNT and WOFF files, internal/adapters/fontvalidate/font.go:70-87 and 139-204: what is accepted,
and where the accepted ranges lie.
*/
module FontLayout {
  import opened Wrappers
  import opened FontTables

  // Non-empty ranges lie inside a file of `size` bytes and no two of them share a byte.
  ghost predicate SafeLayout(ranges: seq<Entry>, size: nat) {
    Inside(ranges, size) && Pairwise(ranges, Disjoint)
  }

  predicate Inside(ranges: seq<Entry>, size: nat) {
    forall e <- ranges :: e.size > 0 ==> e.offset + e.size <= size
  }

  predicate SumsFit(es: seq<Entry>) {
    forall e <- es :: e.offset + e.size < 0x1_0000_0000_0000_0000
  }

  function Span(offset: Word, size: Word): Entry { Entry("", offset, size, 0, false) }

  // ---- metadata and private blocks ----

  predicate BlockOk(data: Bytes, o: nat)
    requires o + 8 <= |data|
  {
    var offset, size := U32(data, o), U32(data, o + 4);
    || (offset == 0 && size == 0)
    || (offset > 0 && size > 0 && offset % 4 == 0 && offset + size <= |data|)
  }

  function Block(data: Bytes, o: nat): seq<Entry>
    requires o + 8 <= |data|
  {
    var offset, size := U32(data, o), U32(data, o + 4);
    if offset == 0 && size == 0 then [] else [Span(offset, size)]
  }

  // Every range starts at or after the end of the one before it, an empty one included.
  predicate Chain(s: seq<Entry>, end: nat) {
    s == [] || (s[0].offset >= end && Chain(s[1..], s[0].offset + s[0].size))
  }

  method ExtraBlocks(data: Bytes, meta: nat, private: nat, start: Word, entries: seq<Entry>, sort: Sorter)
    returns (r: Option<FontError>)
    requires meta + 8 <= |data| && private + 8 <= |data| && SumsFit(entries) && Permutes(sort)
    ensures r == None <==>
              && BlockOk(data, meta) && BlockOk(data, private)
              && Chain(sort(entries + Block(data, meta) + Block(data, private)), start)
    ensures r.Some? ==> r.value == Bad
  {
    var ranges := entries;
    var at := [meta, private];
    for i := 0 to 2
      invariant i >= 1 ==> BlockOk(data, meta)
      invariant i >= 2 ==> BlockOk(data, private)
      invariant SumsFit(ranges)
      invariant ranges == entries + (if i >= 1 then Block(data, meta) else []) + (if i >= 2 then Block(data, private) else [])
    {
      var offset, size := U32(data, at[i]), U32(data, at[i] + 4);
      if offset == 0 && size == 0 { continue; }
      if offset == 0 || size == 0 || offset % 4 != 0 { return Some(Bad); }
      var block := Region(data, offset, size);
      if block.Err? { return Some(Bad); }
      ranges := ranges + [Span(offset, size)];
    }
    var ordered := sort(ranges);
    SameMembers(ranges, ordered);
    var chained := Chained(ordered, start);
    return if chained then None else Some(Bad);
  }

  method Chained(s: seq<Entry>, start: Word) returns (r: bool)
    requires SumsFit(s)
    ensures r <==> Chain(s, start)
  {
    var end := start;
    for k := 0 to |s|
      invariant Chain(s, start) <==> Chain(s[k..], end)
    {
      assert s[k..][1..] == s[k + 1..];
      if s[k].offset < end { return false; }
      end := Add64(s[k].offset, s[k].size);
    }
    return true;
  }

  predicate Apart(a: Entry, b: Entry) {
    a.offset + a.size <= b.offset || b.offset + b.size <= a.offset
  }

  // An empty range that starts where a non-empty one does comes before it.
  predicate EmptyFirst(s: seq<Entry>) {
    forall i, j :: 0 <= i < j < |s| && s[i].offset == s[j].offset ==> s[i].size == 0
  }

  lemma {:induction false} ChainMeans(s: seq<Entry>, end: nat)
    ensures Chain(s, end) <==>
              && (forall e <- s :: end <= e.offset)
              && (forall i, j :: 0 <= i < j < |s| ==> s[i].offset + s[i].size <= s[j].offset)
  {
    if s != [] {
      var rest := s[1..];
      ChainMeans(rest, s[0].offset + s[0].size);
      assert forall i :: 0 <= i < |rest| ==> rest[i] == s[i + 1];
      if Chain(s, end) {
        forall e | e in s ensures end <= e.offset {
          assert e == s[0] || e in rest;
        }
        forall i, j | 0 <= i < j < |s| ensures s[i].offset + s[i].size <= s[j].offset {
          assert s[j] == rest[j - 1] && s[j] in rest;
          if i > 0 { assert s[i] == rest[i - 1]; }
        }
      } else {
        assert s[0] in s;
        if forall i, j :: 0 <= i < j < |s| ==> s[i].offset + s[i].size <= s[j].offset {
          forall e | e in rest ensures s[0].offset + s[0].size <= e.offset {
            var i :| 0 <= i < |rest| && rest[i] == e;
            assert s[i + 1] == e;
          }
          forall i, j | 0 <= i < j < |rest| ensures rest[i].offset + rest[i].size <= rest[j].offset {
            assert rest[i] == s[i + 1] && rest[j] == s[j + 1];
          }
        }
      }
    }
  }

  // For ranges in ascending order the chain holds exactly when they are apart from each other,
  // behind the directory, and empty ones come before what starts at the same place.
  lemma ChainIffApart(s: seq<Entry>, start: nat)
    requires Ascending(s)
    ensures Chain(s, start) <==> (forall e <- s :: start <= e.offset) && Pairwise(s, Apart) && EmptyFirst(s)
  {
    ChainMeans(s, start);
    if Pairwise(s, Apart) && EmptyFirst(s) {
      forall i, j | 0 <= i < j < |s| ensures s[i].offset + s[i].size <= s[j].offset {
        assert Apart(s[i], s[j]);
      }
    }
  }

  // Whatever permutation the sort returns, a chain keeps its ranges disjoint.
  lemma ChainIsDisjoint(ranges: seq<Entry>, start: nat, sort: Sorter)
    requires Permutes(sort) && Chain(sort(ranges), start)
    ensures Pairwise(ranges, Disjoint) && forall e <- ranges :: start <= e.offset
  {
    ChainMeans(sort(ranges), start);
    assert Pairwise(sort(ranges), Disjoint);
    DisjointInAnyOrder(sort(ranges), ranges);
    SameMembers(sort(ranges), ranges);
  }

  lemma DirectoryFirst(ranges: seq<Entry>, start: Word, size: nat)
    requires SafeLayout(ranges, size) && start <= size
    requires forall e <- ranges :: e.size > 0 ==> start <= e.offset
    ensures SafeLayout([Span(0, start)] + ranges, size)
  {
    var all := [Span(0, start)] + ranges;
    forall i, j | 0 <= i < j < |all| ensures Disjoint(all[i], all[j]) {
      assert all[j] == ranges[j - 1] && all[j] in ranges;
      if i > 0 { assert all[i] == ranges[i - 1]; }
    }
  }

  // ---- SFNT ----

  function SfntEntries(data: Bytes, n: nat): seq<Entry>
    requires 12 + 16 * n <= |data|
  {
    seq(n, i requires 0 <= i < n =>
      var o := 12 + 16 * i;
      Entry(Text(data[o..o + 4]), U32(data, o + 8), U32(data, o + 12), U32(data, o + 12), false))
  }

  function NoStream(b: Bytes): Option<Bytes> { None }

  ghost predicate SfntAccepted(data: Bytes) {
    && |data| >= 12
    && var n := U16(data, 4);
    && 12 + 16 * n <= |data|
    && BoundsHold(SfntEntries(data, n), |data|)
    && TablesFit(data, SfntEntries(data, n), 12 + 16 * n, false, NoStream)
  }

  method Sfnt(data: Bytes, sort: Sorter) returns (r: Result<map<string, Option<Bytes>>, FontError>)
    requires |data| < 0x1_0000_0000_0000_0000 && Permutes(sort)
    ensures r.Ok? ==> SfntAccepted(data)
    ensures Sorts(sort) ==> (r.Ok? <==> SfntAccepted(data))
    ensures r.Ok? ==> TablesOf(data, SfntEntries(data, U16(data, 4)), false, NoStream, r.value)
    ensures r != Err(Unsupported)
  {
    if |data| < 12 { return Err(Bad); }
    var n := U16(data, 4);
    if n == 0 || n > 256 || 12 + 16 * n > |data| { return Err(Bad); }
    var es := [];
    for i := 0 to n
      invariant es == SfntEntries(data, n)[..i]
    {
      var o := 12 + 16 * i;
      es := es + [Entry(Text(data[o..o + 4]), U32(data, o + 8), U32(data, o + 12), U32(data, o + 12), false)];
    }
    assert es == SfntEntries(data, n);
    var fault := TableBounds(es, |data|);
    if fault.Some? { return Err(fault.value); }
    r := Extract(data, es, 12 + 16 * n, false, NoStream, sort);
  }

  // The directory and the non-empty tables of an accepted file are disjoint and inside it.
  lemma SfntLayoutIsSafe(data: Bytes)
    requires SfntAccepted(data)
    ensures var n := U16(data, 4); SafeLayout([Span(0, 12 + 16 * n)] + SfntEntries(data, n), |data|)
  {
    var n := U16(data, 4);
    DirectoryFirst(SfntEntries(data, n), 12 + 16 * n, |data|);
  }

  // ---- WOFF ----

  function WoffEntry(data: Bytes, o: nat): Entry
    requires o + 20 <= |data|
  {
    Entry(Text(data[o..o + 4]), U32(data, o + 4), U32(data, o + 8), U32(data, o + 12), false)
  }

  function WoffEntries(data: Bytes, n: nat): seq<Entry>
    requires 44 + 20 * n <= |data|
  {
    seq(n, i requires 0 <= i < n => WoffEntry(data, 44 + 20 * i))
  }

  // The length of the font the tables unpack to, each padded to four bytes.
  function Unpacked(es: seq<Entry>): nat {
    if es == [] then 0 else Unpacked(es[..|es| - 1]) + RoundUp(es[|es| - 1].original)
  }

  predicate WoffStart(data: Bytes) {
    |data| >= 44 && U32(data, 8) == |data| % 0x1_0000_0000 && U16(data, 14) == 0
  }

  predicate Flavored(data: Bytes)
    requires |data| >= 8
  {
    U32(data, 4) in {0x1_0000, 0x4f54_544f}
  }

  predicate WoffHeader(data: Bytes) {
    && WoffStart(data) && Flavored(data)
    && 1 <= U16(data, 12) <= 256 && 44 + 20 * U16(data, 12) <= |data|
    && U32(data, 16) <= MaxDecoded && U32(data, 32) <= MaxMetadata
  }

  function WoffStartOf(data: Bytes): nat
    requires WoffHeader(data)
  {
    44 + 20 * U16(data, 12)
  }

  // The tables are within the limits and unpack to the announced size.
  predicate WoffSizes(data: Bytes) {
    && WoffHeader(data)
    && var n := U16(data, 12);
    var es := WoffEntries(data, n);
    && U32(data, 16) == 12 + 16 * n + Unpacked(es)
    && BoundsHold(es, U32(data, 16))
  }

  // What does not depend on the sort.
  predicate WoffRest(data: Bytes) { WoffSizes(data) && BlockOk(data, 24) && BlockOk(data, 36) }

  function WoffTables(data: Bytes): seq<Entry>
    requires WoffHeader(data)
  {
    WoffEntries(data, U16(data, 12))
  }

  // The tables and both blocks, as ranges of the file.
  function WoffRanges(data: Bytes): seq<Entry>
    requires WoffHeader(data)
  {
    WoffTables(data) + Block(data, 24) + Block(data, 36)
  }

  // Both walks over the file accept what their own sort gives them: `tables` the one over the
  // tables, `blocks` the one over tables and blocks together.
  predicate RangesAccepted(data: Bytes, es: seq<Entry>, start: nat, inflate: Decompressor, tables: Sorter, blocks: Sorter)
    requires |data| >= 44
  {
    && BlockOk(data, 24) && BlockOk(data, 36)
    && Chain(blocks(es + Block(data, 24) + Block(data, 36)), start)
    && Placed(data, tables(es), start, true, inflate)
  }

  predicate WoffAccepted(data: Bytes, inflate: Decompressor, tables: Sorter, blocks: Sorter) {
    WoffSizes(data) && RangesAccepted(data, WoffTables(data), WoffStartOf(data), inflate, tables, blocks)
  }

  // Where the tables are sorted by offset the walk over them accepts exactly those that fit.
  lemma WoffSorted(data: Bytes, inflate: Decompressor, tables: Sorter, blocks: Sorter)
    requires Sorts(tables) && inflate([]) == None
    ensures WoffAccepted(data, inflate, tables, blocks) <==>
              && WoffRest(data) && TablesFit(data, WoffTables(data), WoffStartOf(data), true, inflate)
              && Chain(blocks(WoffRanges(data)), WoffStartOf(data))
  {
    if WoffRest(data) { PlacedIffFit(data, WoffTables(data), WoffStartOf(data), true, inflate, tables); }
  }

  lemma NoWrap(sum: Word, original: Word)
    requires sum < 0x200_0000_0000_0000 && original < 0x1_0000_0000
    ensures Add64(sum, RoundUp64(original)) == sum + RoundUp(original) <= sum + original + 3
  { }

  method ReadWoffEntries(data: Bytes, n: nat) returns (es: seq<Entry>, sfntSize: Word)
    requires n <= 256 && 44 + 20 * n <= |data|
    ensures es == WoffEntries(data, n) && sfntSize == 12 + 16 * n + Unpacked(es)
  {
    es := [];
    sfntSize := 12 + 16 * n;
    for i := 0 to n
      invariant es == WoffEntries(data, i)
      invariant sfntSize == 12 + 16 * n + Unpacked(es) <= 0x2000 + i * 0x1_0000_0003
    {
      var t := WoffEntry(data, 44 + 20 * i);
      assert (es + [t])[..i] == es;
      NoWrap(sfntSize, t.original);
      es := es + [t];
      sfntSize := Add64(sfntSize, RoundUp64(t.original));
    }
  }

  method ReadWoffSizes(data: Bytes, n: nat) returns (r: Result<seq<Entry>, FontError>)
    requires WoffHeader(data) && n == U16(data, 12)
    ensures r.Ok? <==> WoffSizes(data)
    ensures r.Ok? ==> r.value == WoffTables(data) && SumsFit(r.value) && DistinctTags(r.value)
    ensures r != Err(Unsupported)
  {
    var es, sfntSize := ReadWoffEntries(data, n);
    if sfntSize != U32(data, 16) { return Err(Bad); }
    var fault := TableBounds(es, sfntSize);
    if fault.Some? { return Err(fault.value); }
    WoffSumsFit(data);
    return Ok(es);
  }

  method ReadWoff(data: Bytes, inflate: Decompressor, tables: Sorter, blocks: Sorter)
    returns (r: Result<map<string, Option<Bytes>>, FontError>)
    requires |data| < 0x1_0000_0000_0000_0000 && Permutes(tables) && Permutes(blocks)
    requires WoffHeader(data)
    ensures r.Ok? <==> WoffAccepted(data, inflate, tables, blocks)
    ensures r.Ok? ==> TablesOf(data, WoffTables(data), true, inflate, r.value)
    ensures r != Err(Unsupported)
  {
    var es := ReadWoffSizes(data, U16(data, 12));
    if es.Err? { return Err(es.error); }
    r := ReadWoffRanges(data, es.value, WoffStartOf(data), inflate, tables, blocks);
  }

  method ReadWoffRanges(data: Bytes, es: seq<Entry>, start: Word, inflate: Decompressor, tables: Sorter, blocks: Sorter)
    returns (r: Result<map<string, Option<Bytes>>, FontError>)
    requires 44 <= |data| < 0x1_0000_0000_0000_0000 && Permutes(tables) && Permutes(blocks) && SumsFit(es) && DistinctTags(es)
    ensures r.Ok? <==> RangesAccepted(data, es, start, inflate, tables, blocks)
    ensures r.Ok? ==> TablesOf(data, es, true, inflate, r.value)
    ensures r.Err? ==> r.error == Bad
  {
    var fault := ExtraBlocks(data, 24, 36, start, es, blocks);
    if fault.Some? { return Err(fault.value); }
    r := Extract(data, es, start, true, inflate, tables);
  }

  lemma WoffSumsFit(data: Bytes)
    requires WoffHeader(data)
    ensures SumsFit(WoffTables(data))
  { }

  method Woff(data: Bytes, inflate: Decompressor, tables: Sorter, blocks: Sorter)
    returns (r: Result<map<string, Option<Bytes>>, FontError>)
    requires |data| < 0x1_0000_0000_0000_0000 && Permutes(tables) && Permutes(blocks)
    ensures r.Ok? <==> WoffAccepted(data, inflate, tables, blocks)
    ensures r.Ok? ==> TablesOf(data, WoffTables(data), true, inflate, r.value)
    ensures r == Err(Unsupported) <==> WoffStart(data) && !Flavored(data)
  {
    if |data| < 44 || U32(data, 8) != |data| % 0x1_0000_0000 || U16(data, 14) != 0 { return Err(Bad); }
    var flavor := U32(data, 4);
    if flavor != 0x0001_0000 && flavor != 0x4f54_544f { return Err(Unsupported); }
    var n := U16(data, 12);
    if n == 0 || n > 256 || 44 + 20 * n > |data| { return Err(Bad); }
    if U32(data, 16) > MaxDecoded || U32(data, 32) > MaxMetadata { return Err(Large); }
    r := ReadWoff(data, inflate, tables, blocks);
  }

  // The directory, the non-empty tables and both blocks of an accepted file, whatever
  // permutations the two sorts returned.
  lemma WoffLayoutIsSafe(data: Bytes, inflate: Decompressor, tables: Sorter, blocks: Sorter)
    requires Permutes(tables) && Permutes(blocks) && WoffAccepted(data, inflate, tables, blocks)
    ensures SafeLayout([Span(0, WoffStartOf(data))] + WoffRanges(data), |data|)
  {
    ChainIsDisjoint(WoffRanges(data), WoffStartOf(data), blocks);
    TablesAreInside(data, WoffTables(data), WoffStartOf(data), true, inflate, tables);
    BlockIsInside(data, 24);
    BlockIsInside(data, 36);
    DirectoryFirst(WoffRanges(data), WoffStartOf(data), |data|);
  }

  lemma TablesAreInside(data: Bytes, es: seq<Entry>, start: nat, compressed: bool, inflate: Decompressor, sort: Sorter)
    requires Permutes(sort) && Placed(data, sort(es), start, compressed, inflate)
    ensures Inside(es, |data|)
  {
    PlacedFit(data, sort(es), start, compressed, inflate);
    FitInAnyOrder(data, sort(es), es, start, compressed, inflate);
  }

  lemma BlockIsInside(data: Bytes, o: nat)
    requires o + 8 <= |data| && BlockOk(data, o)
    ensures Inside(Block(data, o), |data|)
  { }
}
