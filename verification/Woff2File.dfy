/**
WOFF2 files, internal/adapters/fontvalidate/font.go:226-338: the header, the place of the
compressed stream, and the tables sliced out of its decoded bytes.
*/
module Woff2File {
  import opened Wrappers
  import opened Records
  import opened FontTables
  import opened FontLayout
  import opened FontOrder
  import opened Woff2Directory

  // ---- the transformed outlines ----

  function Streams(b: Bytes, k: nat): nat
    requires |b| >= 36 && k <= 7
  {
    if k == 0 then 0 else Streams(b, k - 1) + U32(b, 8 + 4 * (k - 1))
  }

  function Bitmap(b: Bytes): nat
    requires |b| >= 36
  {
    if U16(b, 2) % 2 == 1 then (U16(b, 4) + 7) / 8 else 0
  }

  // The seven streams of a transformed glyf table and its overlap bitmap fit into it.
  predicate OutlinesFit(b: Bytes) {
    && |b| >= 36 && U16(b, 0) == 0 && U16(b, 6) <= 1
    && 36 + Streams(b, 7) + Bitmap(b) <= |b|
  }

  method CheckOutlines(b: Bytes) returns (ok: bool)
    requires |b| < 0x1_0000_0000_0000_0000
    ensures ok <==> OutlinesFit(b)
  {
    if |b| < 36 || U16(b, 0) != 0 || U16(b, 6) > 1 { return false; }
    var streamBytes: Word := 36;
    for k := 0 to 7
      invariant streamBytes == 36 + Streams(b, k) <= 36 + k * 0x1_0000_0000
    {
      streamBytes := Add64(streamBytes, U32(b, 8 + 4 * k));
    }
    if U16(b, 2) % 2 != 0 { streamBytes := Add64(streamBytes, (U16(b, 4) + 7) / 8); }
    return streamBytes <= |b|;
  }

  // ---- the tables ----

  predicate InStream(decoded: Bytes, es: seq<Entry>) { forall e <- es :: e.offset + e.size <= |decoded| }

  function Slice(decoded: Bytes, e: Entry): Bytes
    requires e.offset + e.size <= |decoded|
  {
    decoded[e.offset..e.offset + e.size]
  }

  ghost predicate SlicedTables(decoded: Bytes, es: seq<Entry>, tables: map<string, Option<Bytes>>)
    requires InStream(decoded, es)
  {
    && tables.Keys == Tags(es)
    && forall e <- es :: e.tag in tables && tables[e.tag] == TableSlice(decoded, e)
  }

  ghost predicate Found(es: seq<Entry>, tag: string, e: Option<Entry>) {
    if e.Some? then e.value in es && e.value.tag == tag else forall other <- es :: other.tag != tag
  }

  function TableSlice(decoded: Bytes, e: Entry): Option<Bytes>
    requires e.offset + e.size <= |decoded|
  {
    if MetadataTag(e.tag) then Some(Slice(decoded, e)) else None
  }

  lemma OneMoreTable(decoded: Bytes, s: seq<Entry>, t: Entry, tables: map<string, Option<Bytes>>)
    requires InStream(decoded, s + [t]) && DistinctTags(s + [t])
    requires InStream(decoded, s) && SlicedTables(decoded, s, tables) && t in s + [t]
    ensures SlicedTables(decoded, s + [t], tables[t.tag := TableSlice(decoded, t)])
  {
    var more := s + [t];
    forall e | e in s ensures e.tag != t.tag {
      var i :| 0 <= i < |s| && s[i] == e;
      assert more[i] == e && more[|s|] == t;
    }
  }

  function LastOf(s: seq<Entry>, tag: string): Option<Entry> {
    if s == [] then None
    else if s[|s| - 1].tag == tag then Some(s[|s| - 1])
    else LastOf(s[..|s| - 1], tag)
  }

  lemma {:induction false} LastIsFound(s: seq<Entry>, tag: string)
    ensures Found(s, tag, LastOf(s, tag))
  {
    if s != [] {
      LastIsFound(s[..|s| - 1], tag);
      assert s == s[..|s| - 1] + [s[|s| - 1]];
    }
  }

  lemma PrefixOk(decoded: Bytes, es: seq<Entry>, k: nat)
    requires k <= |es| && DistinctTags(es) && InStream(decoded, es)
    ensures DistinctTags(es[..k]) && InStream(decoded, es[..k])
  { }

  method SliceTables(decoded: Bytes, es: seq<Entry>)
    returns (tables: map<string, Option<Bytes>>, glyf: Option<Entry>, loca: Option<Entry>)
    requires DistinctTags(es) && InStream(decoded, es)
    ensures SlicedTables(decoded, es, tables) && Found(es, "glyf", glyf) && Found(es, "loca", loca)
  {
    tables, glyf, loca := map[], None, None;
    for k := 0 to |es|
      invariant InStream(decoded, es[..k]) && SlicedTables(decoded, es[..k], tables)
      invariant glyf == LastOf(es[..k], "glyf") && loca == LastOf(es[..k], "loca")
    {
      var t := es[k];
      PrefixOk(decoded, es, k + 1);
      assert t in es && es[..k + 1] == es[..k] + [t];
      OneMoreTable(decoded, es[..k], t, tables);
      if t.tag == "glyf" { glyf := Some(t); }
      if t.tag == "loca" { loca := Some(t); }
      tables := tables[t.tag := if MetadataTag(t.tag) then Some(Slice(decoded, t)) else None];
    }
    assert es[..|es|] == es;
    LastIsFound(es, "glyf");
    LastIsFound(es, "loca");
  }

  // glyf and loca come together, both transformed or neither.
  ghost predicate OutlinesOk(decoded: Bytes, es: seq<Entry>)
    requires InStream(decoded, es)
  {
    && ((exists g <- es :: g.tag == "glyf") <==> (exists l <- es :: l.tag == "loca"))
    && (forall g <- es, l <- es :: g.tag == "glyf" && l.tag == "loca" ==> g.transformed == l.transformed)
    && (forall g <- es :: g.tag == "glyf" && g.transformed ==> OutlinesFit(Slice(decoded, g)))
  }

  lemma FoundIsOnly(es: seq<Entry>, tag: string, found: Option<Entry>)
    requires DistinctTags(es) && Found(es, tag, found)
    ensures forall e <- es :: e.tag == tag <==> found == Some(e)
  {
    forall e | e in es && e.tag == tag ensures found == Some(e) {
      var i :| 0 <= i < |es| && es[i] == e;
      var j :| 0 <= j < |es| && es[j] == found.value;
    }
  }

  method ReadTables(decoded: Bytes, es: seq<Entry>) returns (r: Option<map<string, Option<Bytes>>>)
    requires |decoded| < 0x1_0000_0000_0000_0000 && DistinctTags(es) && InStream(decoded, es)
    ensures r.Some? <==> OutlinesOk(decoded, es)
    ensures r.Some? ==> SlicedTables(decoded, es, r.value)
  {
    var tables, glyf, loca := SliceTables(decoded, es);
    FoundIsOnly(es, "glyf", glyf);
    FoundIsOnly(es, "loca", loca);
    if glyf.None? != loca.None? || (glyf.Some? && glyf.value.transformed != loca.value.transformed) { return None; }
    if glyf.Some? && glyf.value.transformed {
      var ok := CheckOutlines(Slice(decoded, glyf.value));
      if !ok { return None; }
    }
    return Some(tables);
  }

  // ---- the file ----

  predicate Woff2Start(data: Bytes) {
    |data| >= 48 && U32(data, 8) == |data| % 0x1_0000_0000 && U16(data, 14) == 0
  }

  predicate Woff2Header(data: Bytes) {
    && Woff2Start(data) && Flavored(data) && 1 <= U16(data, 12) <= 256
    && U32(data, 16) <= MaxDecoded && U32(data, 36) <= MaxMetadata
  }

  // The directory end, the stream and the blocks, as ranges of the file.
  function Ranges(data: Bytes, pos: Word): seq<Entry>
    requires |data| >= 48
  {
    [Span(pos, U32(data, 20))] + Block(data, 28) + Block(data, 40)
  }

  ghost predicate StreamPlaced(data: Bytes, pos: Word, sort: Sorter)
    requires |data| >= 48
  {
    && U32(data, 20) > 0 && pos + U32(data, 20) <= |data|
    && BlockOk(data, 28) && BlockOk(data, 40) && Chain(sort(Ranges(data, pos)), pos)
  }

  function Decoded(data: Bytes, pos: nat, unbrotli: Decompressor): Option<Bytes>
    requires |data| >= 48 && pos + U32(data, 20) <= |data|
  {
    unbrotli(data[pos..pos + U32(data, 20)])
  }

  // The bytes of `rows` stand behind the header and the rest of the file bears them out.
  ghost predicate DirectoryFits(data: Bytes, rows: seq<Row>) {
    && Woff2Header(data) && |rows| == U16(data, 12) && AllOk(RowOk, rows)
    && StandsAt(data, 48, Codes(Code, rows)) && |data| < 0x1_0000_0000_0000_0000
    && Bounded(rows) && BoundsHold(Tables(rows), FontSize(rows))
  }

  // The stream lies at `pos` and decodes to the tables.
  ghost predicate StreamFits(data: Bytes, pos: nat, es: seq<Entry>, total: nat, unbrotli: Decompressor, sort: Sorter)
    requires |data| >= 48
  {
    && pos <= |data| < 0x1_0000_0000_0000_0000 && StreamPlaced(data, pos, sort)
    && var decoded := Decoded(data, pos, unbrotli);
    && decoded.Some? && |decoded.value| == total
    && InStream(decoded.value, es) && OutlinesOk(decoded.value, es)
  }

  function DirectoryEnd(rows: seq<Row>): nat { 48 + |Codes(Code, rows)| }

  ghost predicate Woff2Accepted(data: Bytes, rows: seq<Row>, unbrotli: Decompressor, sort: Sorter) {
    && DirectoryFits(data, rows)
    && StreamFits(data, DirectoryEnd(rows), Tables(rows), StreamSize(rows), unbrotli, sort)
  }

  method PlaceStream(data: Bytes, pos: Word, sort: Sorter) returns (compressed: Option<Bytes>)
    requires |data| >= 48 && pos <= |data| < 0x1_0000_0000_0000_0000 && Permutes(sort)
    ensures compressed.Some? <==> StreamPlaced(data, pos, sort)
    ensures compressed.Some? ==> compressed.value == data[pos..pos + U32(data, 20)]
  {
    var compressedSize := U32(data, 20);
    var region := Region(data, pos, compressedSize);
    if region.Err? || compressedSize == 0 { return None; }
    var fault := ExtraBlocks(data, 28, 40, pos, [Span(pos, compressedSize)], sort);
    if fault.Some? { return None; }
    return Some(region.value);
  }

  lemma OnlyReading(data: Bytes, rows: seq<Row>)
    requires DirectoryFits(data, rows)
    ensures ParseRows(data, 48, U16(data, 12)) == Some((rows, DirectoryEnd(rows)))
  {
    RowsStand(data, 48, rows, DirectoryEnd(rows));
  }

  // The directory of a file, if it has one that fits.
  method Woff2Rows(data: Bytes, n: nat) returns (r: Result<Directory, FontError>)
    requires |data| < 0x1_0000_0000_0000_0000 && Woff2Header(data) && n == U16(data, 12)
    ensures r.Ok? ==>
              && DirectoryFits(data, r.value.rows) && r.value.es == Tables(r.value.rows)
              && r.value.total == StreamSize(r.value.rows) && r.value.pos == DirectoryEnd(r.value.rows) <= |data|
    ensures r.Err? ==> r.error != Unsupported && forall rows :: !DirectoryFits(data, rows)
    ensures r.Ok? ==> forall rows :: DirectoryFits(data, rows) ==> rows == r.value.rows
  {
    forall rows | DirectoryFits(data, rows)
      ensures ParseRows(data, 48, n) == Some((rows, DirectoryEnd(rows))) && Bounded(rows)
    {
      OnlyReading(data, rows);
    }
    r := ReadDirectory(data, 48, n);
    if r.Err? { return; }
    ReadsRows();
    ReadRecordsStand(ParseRow, Code, RowOk, data, 48, n);
    var fault := TableBounds(r.value.es, r.value.original);
    if fault.Some? { return Err(fault.value); }
  }

  method StreamTables(data: Bytes, pos: Word, es: seq<Entry>, total: Word, unbrotli: Decompressor, sort: Sorter)
    returns (r: Option<map<string, Option<Bytes>>>)
    requires 48 <= |data| < 0x1_0000_0000_0000_0000 && pos <= |data| && Permutes(sort) && DistinctTags(es)
    requires forall e <- es :: e.offset + e.size <= total
    ensures r.Some? <==> StreamFits(data, pos, es, total, unbrotli, sort)
    ensures r.Some? ==> SlicedTables(Decoded(data, pos, unbrotli).value, es, r.value)
  {
    var compressed := PlaceStream(data, pos, sort);
    if compressed == None { return None; }
    var decoded := unbrotli(compressed.value);
    if decoded == None || |decoded.value| != total { return None; }
    r := ReadTables(decoded.value, es);
  }

  method CheckHeader(data: Bytes) returns (fault: Option<FontError>)
    ensures fault == None <==> Woff2Header(data)
    ensures fault == Some(Unsupported) <==> Woff2Start(data) && !Flavored(data)
  {
    if |data| < 48 || U32(data, 8) != |data| % 0x1_0000_0000 || U16(data, 14) != 0 { return Some(Bad); }
    var flavor := U32(data, 4);
    if flavor != 0x0001_0000 && flavor != 0x4f54_544f { return Some(Unsupported); }
    var n := U16(data, 12);
    if n == 0 || n > 256 { return Some(Bad); }
    if U32(data, 16) > MaxDecoded || U32(data, 36) > MaxMetadata { return Some(Large); }
    return None;
  }

  // The verdict and the tables; `rows` is the directory of an accepted file, and a refused file
  // has no directory that would make it acceptable.
  method Woff2(data: Bytes, unbrotli: Decompressor, sort: Sorter)
    returns (r: Result<map<string, Option<Bytes>>, FontError>, ghost rows: seq<Row>)
    requires |data| < 0x1_0000_0000_0000_0000 && Permutes(sort)
    ensures r.Ok? ==>
              && Woff2Accepted(data, rows, unbrotli, sort)
              && SlicedTables(Decoded(data, DirectoryEnd(rows), unbrotli).value, Tables(rows), r.value)
    ensures r.Err? ==> forall other :: !Woff2Accepted(data, other, unbrotli, sort)
    ensures r == Err(Unsupported) <==> Woff2Start(data) && !Flavored(data)
  {
    rows := [];
    var fault := CheckHeader(data);
    if fault.Some? { return Err(fault.value), rows; }
    var d := Woff2Rows(data, U16(data, 12));
    if d.Err? { return Err(d.error), rows; }
    rows := d.value.rows;
    TablesFollowEachOther(rows);
    var tables := StreamTables(data, d.value.pos, d.value.es, d.value.total, unbrotli, sort);
    if tables == None { return Err(Bad), rows; }
    return Ok(tables.value), rows;
  }

  lemma StreamLayoutIsSafe(data: Bytes, pos: Word, sort: Sorter)
    requires 48 <= |data| && pos <= |data| && Permutes(sort) && StreamPlaced(data, pos, sort)
    ensures SafeLayout([Span(0, pos)] + Ranges(data, pos), |data|)
  {
    ChainIsDisjoint(Ranges(data, pos), pos, sort);
    BlockIsInside(data, 28);
    BlockIsInside(data, 40);
    DirectoryFirst(Ranges(data, pos), pos, |data|);
  }

  lemma WholeStreamPartitioned(decoded: Bytes, rows: seq<Row>)
    requires StreamSize(rows) <= MaxDecoded && |decoded| == StreamSize(rows)
    ensures Slices(decoded, Tables(rows)) == decoded
  {
    TablesPartitionStream(decoded, rows);
    WholePrefix(decoded, Slices(decoded, Tables(rows)), StreamSize(rows));
  }

  lemma WholePrefix<T>(s: seq<T>, t: seq<T>, n: nat)
    requires n == |s| && t == s[..n]
    ensures t == s
  { }

  // In an accepted file the directory, the stream and both blocks are disjoint and inside it,
  // and the tables partition the decoded stream.
  lemma Woff2LayoutIsSafe(data: Bytes, rows: seq<Row>, unbrotli: Decompressor, sort: Sorter)
    requires Permutes(sort)
    ensures Woff2Accepted(data, rows, unbrotli, sort) ==>
              && SafeLayout([Span(0, DirectoryEnd(rows))] + Ranges(data, DirectoryEnd(rows)), |data|)
              && var decoded := Decoded(data, DirectoryEnd(rows), unbrotli).value;
                 Slices(decoded, Tables(rows)) == decoded && Pairwise(Tables(rows), Disjoint)
  {
    if Woff2Accepted(data, rows, unbrotli, sort) {
      StreamLayoutIsSafe(data, DirectoryEnd(rows), sort);
      TablesFollowEachOther(rows);
      WholeStreamPartitioned(Decoded(data, DirectoryEnd(rows), unbrotli).value, rows);
    }
  }

  // No range of a WOFF2 file is empty, so the sort decides nothing.
  lemma Woff2VerdictIgnoresTheSort(data: Bytes, rows: seq<Row>, unbrotli: Decompressor, one: Sorter, other: Sorter)
    requires Sorts(one) && Sorts(other) && Woff2Accepted(data, rows, unbrotli, one)
    ensures Woff2Accepted(data, rows, unbrotli, other)
  {
    StreamPlacedAnyway(data, DirectoryEnd(rows), one, other);
  }

  lemma StreamPlacedAnyway(data: Bytes, pos: Word, one: Sorter, other: Sorter)
    requires |data| >= 48 && Sorts(one) && Sorts(other) && StreamPlaced(data, pos, one)
    ensures StreamPlaced(data, pos, other)
  {
    ChainIsChainable(Ranges(data, pos), pos, one);
    UntiedChains(Ranges(data, pos), pos, other);
  }
}
