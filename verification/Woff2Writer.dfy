/**
A writer of WOFF 2.0 files (W3C WOFF 2.0, sections on the header, the table directory and the
compressed data), and what internal/adapters/fontvalidate/font.go:226-338 makes of them.
*/
module Woff2Writer {
  import opened Wrappers
  import opened Base128
  import opened Records
  import opened FontTables
  import opened FontLayout
  import opened FontOrder
  import opened Woff2Directory
  import opened Woff2File
  import FontWriter

  // `parts` are the tables as they lie in the decoded stream, one for each row; `advised` is the
  // size nobody relies on; `gap` and `metaGap` are the padding behind the stream and the metadata.
  datatype Font = Font(flavor: nat, version: Bytes, advised: nat, rows: seq<Row>, parts: seq<Bytes>, compressed: Bytes,
                       gap: Bytes, meta: Bytes, metaSize: nat, metaGap: Bytes, private: Bytes)

  const Signature: Bytes := [0x77, 0x4f, 0x46, 0x32]

  function StreamEnd(f: Font): nat { DirectoryEnd(f.rows) + |f.compressed| }

  function BlocksAt(f: Font): nat { StreamEnd(f) + |f.gap| }

  function PrivateStart(f: Font): nat { BlocksAt(f) + |f.meta| + |f.metaGap| }

  function MetaAt(f: Font): nat { if f.meta == [] then 0 else BlocksAt(f) }

  function PrivateAt(f: Font): nat { if f.private == [] then 0 else PrivateStart(f) }

  function Tail(f: Font): Bytes { f.gap + f.meta + f.metaGap + f.private }

  predicate Aligned(f: Font) { BlocksAt(f) % 4 == 0 && PrivateStart(f) % 4 == 0 }

  function Length(f: Font): nat { StreamEnd(f) + |Tail(f)| }

  function Header(f: Font): Bytes {
    FontWriter.Four(Signature, FontWriter.Be32(f.flavor), FontWriter.Be32(Length(f)), FontWriter.Be16(|f.rows|)) +
    (FontWriter.Four(FontWriter.Be16(0), FontWriter.Be32(f.advised), FontWriter.Be32(|f.compressed|), f.version) +
     (FontWriter.Four(FontWriter.Be32(MetaAt(f)), FontWriter.Be32(|f.meta|), FontWriter.Be32(f.metaSize), FontWriter.Be32(PrivateAt(f))) +
      FontWriter.Be32(|f.private|)))
  }

  function Woff2Bytes(f: Font): Bytes { Header(f) + (Codes(Code, f.rows) + (f.compressed + Tail(f))) }

  function NameAt(f: Font, i: nat): string
    requires i < |f.rows|
  {
    NameOf(f.rows[i].flags, f.rows[i].named)
  }

  // The directory describes the parts, the stream holds them, and all numbers fit their fields.
  predicate FontOk(f: Font, unbrotli: Decompressor) {
    && f.flavor in {0x1_0000, 0x4f54_544f} && |f.version| == 4
    && 1 <= |f.rows| <= 256 && |f.parts| == |f.rows|
    && (forall i | 0 <= i < |f.rows| :: RowOk(f.rows[i]) && f.rows[i].size == |f.parts[i]|)
    && (forall i, j | 0 <= i < j < |f.rows| :: NameAt(f, i) != NameAt(f, j))
    && f.compressed != [] && unbrotli(f.compressed) == Some(FontWriter.Join(f.parts))
    && Length(f) < Limit && f.advised < Limit && f.metaSize < Limit && Aligned(f)
  }

  // The tables unpacked, each padded, with nothing in them.
  function Blank(f: Font): seq<Bytes> {
    seq(|f.rows|, i requires 0 <= i < |f.rows| => FontWriter.Pad(FontWriter.Zeros(f.rows[i].length)))
  }

  predicate Small(f: Font) {
    && |FontWriter.Join(f.parts)| <= MaxDecoded && |FontWriter.Join(Blank(f))| <= MaxDecoded
    && f.advised <= MaxDecoded && f.metaSize <= MaxMetadata && MetadataSmall(f)
  }

  predicate MetadataSmall(f: Font) {
    forall i | 0 <= i < |f.rows| :: MetadataTag(NameAt(f, i)) ==> f.rows[i].length <= MaxMetadata
  }

  predicate IsTable(f: Font, i: int, tag: string) { 0 <= i < |f.rows| && NameAt(f, i) == tag }

  predicate Transforms(f: Font, i: nat)
    requires i < |f.rows|
  {
    RowKind(f.rows[i]).Transformed?
  }

  // glyf and loca come together, both transformed or neither, and a transformed glyf is in order.
  ghost predicate Paired(f: Font)
    requires |f.parts| == |f.rows|
  {
    && ((exists i :: IsTable(f, i, "glyf")) <==> (exists j :: IsTable(f, j, "loca")))
    && (forall i, j :: IsTable(f, i, "glyf") && IsTable(f, j, "loca") ==> Transforms(f, i) == Transforms(f, j))
    && (forall i :: IsTable(f, i, "glyf") && Transforms(f, i) ==> OutlinesFit(f.parts[i]))
  }

  predicate GivenAt(f: Font, i: nat, tables: map<string, Option<Bytes>>)
    requires i < |f.rows| == |f.parts|
  {
    NameAt(f, i) in tables && tables[NameAt(f, i)] == if MetadataTag(NameAt(f, i)) then Some(f.parts[i]) else None
  }

  predicate GivesBack(f: Font, tables: map<string, Option<Bytes>>)
    requires |f.rows| == |f.parts|
  {
    && tables.Keys == (set i | 0 <= i < |f.rows| :: NameAt(f, i))
    && forall i | 0 <= i < |f.rows| :: GivenAt(f, i, tables)
  }

  // ---- the file ----

  lemma BytesStand(f: Font)
    requires |f.version| == 4
    ensures var data := Woff2Bytes(f);
            && |data| == Length(f) && StandsAt(data, 0, Header(f)) && StandsAt(data, 48, Codes(Code, f.rows))
            && StandsAt(data, DirectoryEnd(f.rows), f.compressed)
  {
    var data, codes := Woff2Bytes(f), Codes(Code, f.rows);
    assert data[0..|data|] == data;
    StandsSplit(data, 0, Header(f), codes + (f.compressed + Tail(f)));
    StandsSplit(data, 48, codes, f.compressed + Tail(f));
    StandsSplit(data, DirectoryEnd(f.rows), f.compressed, Tail(f));
  }

  lemma NumbersStand(data: Bytes, o: nat, a: nat, b: nat, c: nat, d: nat)
    requires a < Limit && b < Limit && c < Limit && d < Limit
    requires StandsAt(data, o, FontWriter.Four(FontWriter.Be32(a), FontWriter.Be32(b), FontWriter.Be32(c), FontWriter.Be32(d)))
    ensures o + 16 <= |data| && U32(data, o) == a && U32(data, o + 4) == b && U32(data, o + 8) == c && U32(data, o + 12) == d
  {
    FontWriter.FourStand(data, o, FontWriter.Be32(a), FontWriter.Be32(b), FontWriter.Be32(c), FontWriter.Be32(d));
    FontWriter.ReadsBe32(data, o, a);
    FontWriter.ReadsBe32(data, o + 4, b);
    FontWriter.ReadsBe32(data, o + 8, c);
    FontWriter.ReadsBe32(data, o + 12, d);
  }

  lemma FrontStands(data: Bytes, a: nat, b: nat, n: nat)
    requires a < Limit && b < Limit && n < 0x1_0000
    requires StandsAt(data, 0, FontWriter.Four(Signature, FontWriter.Be32(a), FontWriter.Be32(b), FontWriter.Be16(n)))
    ensures 14 <= |data| && U32(data, 4) == a && U32(data, 8) == b && U16(data, 12) == n
  {
    FontWriter.FourStand(data, 0, Signature, FontWriter.Be32(a), FontWriter.Be32(b), FontWriter.Be16(n));
    FontWriter.ReadsBe32(data, 4, a);
    FontWriter.ReadsBe32(data, 8, b);
    FontWriter.ReadsBe16(data, 12, n);
  }

  lemma MiddleStands(data: Bytes, a: nat, b: nat, version: Bytes)
    requires a < Limit && b < Limit && StandsAt(data, 14, FontWriter.Four(FontWriter.Be16(0), FontWriter.Be32(a), FontWriter.Be32(b), version))
    ensures 24 <= |data| && U16(data, 14) == 0 && U32(data, 16) == a && U32(data, 20) == b
  {
    FontWriter.FourStand(data, 14, FontWriter.Be16(0), FontWriter.Be32(a), FontWriter.Be32(b), version);
    FontWriter.ReadsBe16(data, 14, 0);
    FontWriter.ReadsBe32(data, 16, a);
    FontWriter.ReadsBe32(data, 20, b);
  }

  lemma FourGroups(data: Bytes, a: Bytes, b: Bytes, c: Bytes, d: Bytes)
    requires StandsAt(data, 0, a + (b + (c + d)))
    ensures StandsAt(data, 0, a) && StandsAt(data, |a|, b) && StandsAt(data, |a| + |b|, c) && StandsAt(data, |a| + |b| + |c|, d)
  {
    FontWriter.FourStand(data, 0, a, b, c, d);
  }

  // What the header says.
  predicate Announces(data: Bytes, f: Font) {
    && |data| >= 48 && |data| == Length(f) < Limit
    && U32(data, 4) == f.flavor && U32(data, 8) == Length(f) && U16(data, 12) == |f.rows| && U16(data, 14) == 0
    && U32(data, 16) == f.advised && U32(data, 20) == |f.compressed|
    && U32(data, 28) == MetaAt(f) && U32(data, 32) == |f.meta| && U32(data, 36) == f.metaSize
    && U32(data, 40) == PrivateAt(f) && U32(data, 44) == |f.private|
  }

  lemma HeaderReads(data: Bytes, f: Font)
    requires |f.version| == 4 && StandsAt(data, 0, Header(f)) && |f.rows| <= 256 && |data| == Length(f) < Limit
    requires f.flavor < Limit && f.advised < Limit && f.metaSize < Limit
    ensures Announces(data, f)
  {
    FourGroups(data,
      FontWriter.Four(Signature, FontWriter.Be32(f.flavor), FontWriter.Be32(Length(f)), FontWriter.Be16(|f.rows|)),
      FontWriter.Four(FontWriter.Be16(0), FontWriter.Be32(f.advised), FontWriter.Be32(|f.compressed|), f.version),
      FontWriter.Four(FontWriter.Be32(MetaAt(f)), FontWriter.Be32(|f.meta|), FontWriter.Be32(f.metaSize), FontWriter.Be32(PrivateAt(f))),
      FontWriter.Be32(|f.private|));
    FrontStands(data, f.flavor, Length(f), |f.rows|);
    MiddleStands(data, f.advised, |f.compressed|, f.version);
    NumbersStand(data, 28, MetaAt(f), |f.meta|, f.metaSize, PrivateAt(f));
    FontWriter.ReadsBe32(data, 44, |f.private|);
  }

  ghost predicate Written(data: Bytes, f: Font) {
    Announces(data, f) && StandsAt(data, 48, Codes(Code, f.rows)) && StandsAt(data, DirectoryEnd(f.rows), f.compressed)
  }

  lemma FileIsWritten(f: Font, unbrotli: Decompressor)
    requires FontOk(f, unbrotli)
    ensures Written(Woff2Bytes(f), f)
  {
    BytesStand(f);
    HeaderReads(Woff2Bytes(f), f);
  }

  // ---- the directory ----

  lemma {:induction false} StreamSizeIsLength(rows: seq<Row>, parts: seq<Bytes>)
    requires |rows| == |parts| && forall i | 0 <= i < |rows| :: rows[i].size == |parts[i]|
    ensures StreamSize(rows) == |FontWriter.Join(parts)|
  {
    if rows != [] { StreamSizeIsLength(rows[..|rows| - 1], parts[..|parts| - 1]); }
  }

  lemma {:induction false} FontSizeIsLength(rows: seq<Row>, parts: seq<Bytes>)
    requires |rows| == |parts| && forall i | 0 <= i < |rows| :: RoundUp(rows[i].length) == |parts[i]|
    ensures FontSize(rows) == |FontWriter.Join(parts)|
  {
    if rows != [] { FontSizeIsLength(rows[..|rows| - 1], parts[..|parts| - 1]); }
  }

  // Table i lies in the stream behind all parts before it.
  lemma {:induction false} TableIsPart(rows: seq<Row>, parts: seq<Bytes>, i: nat)
    requires |rows| == |parts| && (forall k | 0 <= k < |rows| :: rows[k].size == |parts[k]|) && i < |rows|
    requires StreamSize(rows) <= MaxDecoded
    ensures |FontWriter.Join(parts[..i])| <= MaxDecoded && Tables(rows)[i] == TableOf(rows[i], |FontWriter.Join(parts[..i])|)
    decreases |rows|
  {
    var front := rows[..|rows| - 1];
    if i == |rows| - 1 {
      StreamSizeIsLength(front, parts[..i]);
    } else {
      TableIsPart(front, parts[..|parts| - 1], i);
      assert parts[..|parts| - 1][..i] == parts[..i];
    }
  }

  lemma {:induction false} OriginalsAddUp(es: seq<Entry>, rows: seq<Row>)
    requires |es| == |rows| && forall i | 0 <= i < |es| :: es[i].original == rows[i].length
    ensures Originals(es) <= FontSize(rows)
    ensures forall i | 0 <= i < |rows| :: rows[i].length <= FontSize(rows)
  {
    if es != [] {
      var n := |es| - 1;
      OriginalsAddUp(es[..n], rows[..n]);
      forall i | 0 <= i < |rows| ensures rows[i].length <= FontSize(rows) {
        assert i < n ==> rows[..n][i] == rows[i];
      }
    }
  }

  // What the tables say.
  ghost predicate Described(es: seq<Entry>, f: Font) {
    && |es| == |f.rows| == |f.parts|
    && forall i | 0 <= i < |es| :: DescribedAt(es, f, i)
  }

  predicate DescribedAt(es: seq<Entry>, f: Font, i: nat)
    requires i < |es| == |f.rows| == |f.parts|
  {
    && es[i].tag == NameAt(f, i) && es[i].offset == |FontWriter.Join(f.parts[..i])| && es[i].size == |f.parts[i]|
    && es[i].original == f.rows[i].length && es[i].transformed == Transforms(f, i)
  }

  lemma TablesAreDescribed(f: Font, unbrotli: Decompressor)
    requires FontOk(f, unbrotli) && StreamSize(f.rows) <= MaxDecoded
    ensures Described(Tables(f.rows), f) && DistinctTags(Tables(f.rows))
  {
    forall i | 0 <= i < |f.rows| ensures DescribedAt(Tables(f.rows), f, i) { TableIsPart(f.rows, f.parts, i); }
    forall i, j | 0 <= i < j < |f.rows| ensures Tables(f.rows)[i].tag != Tables(f.rows)[j].tag {
      assert DescribedAt(Tables(f.rows), f, i) && DescribedAt(Tables(f.rows), f, j);
    }
  }

  lemma SizesAre(f: Font, unbrotli: Decompressor)
    requires FontOk(f, unbrotli)
    ensures StreamSize(f.rows) == |FontWriter.Join(f.parts)| && FontSize(f.rows) == |FontWriter.Join(Blank(f))|
  {
    StreamSizeIsLength(f.rows, f.parts);
    FontSizeIsLength(f.rows, Blank(f));
  }

  lemma LimitsHold(es: seq<Entry>, f: Font)
    requires Described(es, f) && DistinctTags(es) && 1 <= |f.rows| <= 256
    ensures BoundsHold(es, FontSize(f.rows)) <==> FontSize(f.rows) <= MaxDecoded && MetadataSmall(f)
  {
    forall i | 0 <= i < |es| ensures es[i].original == f.rows[i].length { assert DescribedAt(es, f, i); }
    OriginalsAddUp(es, f.rows);
    if FontSize(f.rows) <= MaxDecoded && MetadataSmall(f) {
      forall e | e in es ensures WithinLimit(e) {
        var i :| 0 <= i < |es| && es[i] == e;
        assert DescribedAt(es, f, i);
      }
    }
    if BoundsHold(es, FontSize(f.rows)) {
      forall i | 0 <= i < |f.rows| && MetadataTag(NameAt(f, i)) ensures f.rows[i].length <= MaxMetadata {
        assert DescribedAt(es, f, i) && es[i] in es && WithinLimit(es[i]);
      }
    }
  }

  lemma HeaderVerdict(data: Bytes, f: Font)
    requires Announces(data, f) && f.flavor in {0x1_0000, 0x4f54_544f} && 1 <= |f.rows| <= 256
    ensures Woff2Header(data) <==> f.advised <= MaxDecoded && f.metaSize <= MaxMetadata
  {
    LimitsOfHeader(data);
  }

  lemma LimitsOfHeader(data: Bytes)
    requires |data| >= 48 && U32(data, 8) == |data| < Limit && U16(data, 14) == 0
    requires U32(data, 4) in {0x1_0000, 0x4f54_544f} && 1 <= U16(data, 12) <= 256
    ensures Woff2Header(data) <==> U32(data, 16) <= MaxDecoded && U32(data, 36) <= MaxMetadata
  { }

  lemma TablesVerdict(f: Font, unbrotli: Decompressor)
    requires FontOk(f, unbrotli)
    ensures Bounded(f.rows) && BoundsHold(Tables(f.rows), FontSize(f.rows)) <==>
              StreamSize(f.rows) <= MaxDecoded && FontSize(f.rows) <= MaxDecoded && MetadataSmall(f)
  {
    if StreamSize(f.rows) <= MaxDecoded {
      TablesAreDescribed(f, unbrotli);
      LimitsHold(Tables(f.rows), f);
    }
  }

  lemma DirectoryVerdict(data: Bytes, f: Font, unbrotli: Decompressor)
    requires FontOk(f, unbrotli) && Written(data, f)
    ensures DirectoryFits(data, f.rows) <==> Small(f)
  {
    HeaderVerdict(data, f);
    SizesAre(f, unbrotli);
    TablesVerdict(f, unbrotli);
  }

  // ---- the stream ----

  function MetaBlock(f: Font): seq<Entry>
    requires Length(f) < Limit
  {
    if f.meta == [] then [] else [Span(BlocksAt(f), |f.meta|)]
  }

  function PrivateBlock(f: Font): seq<Entry>
    requires Length(f) < Limit
  {
    if f.private == [] then [] else [Span(PrivateStart(f), |f.private|)]
  }

  lemma BlocksAreRead(data: Bytes, f: Font)
    requires Announces(data, f) && Aligned(f)
    ensures BlockOk(data, 28) && Block(data, 28) == MetaBlock(f)
    ensures BlockOk(data, 40) && Block(data, 40) == PrivateBlock(f)
  { }

  lemma RangesChain(data: Bytes, f: Font, sort: Sorter)
    requires Written(data, f) && Aligned(f) && f.compressed != [] && Sorts(sort)
    ensures StreamPlaced(data, DirectoryEnd(f.rows), sort)
  {
    BlocksAreRead(data, f);
    var ranges := Ranges(data, DirectoryEnd(f.rows));
    assert ranges == [Span(DirectoryEnd(f.rows), |f.compressed|)] + MetaBlock(f) + PrivateBlock(f);
    UntiedChains(ranges, DirectoryEnd(f.rows), sort);
  }

  lemma SliceIsPart(f: Font, es: seq<Entry>, i: nat)
    requires Described(es, f) && i < |es|
    ensures es[i].offset + es[i].size <= |FontWriter.Join(f.parts)|
    ensures Slice(FontWriter.Join(f.parts), es[i]) == f.parts[i]
  {
    assert DescribedAt(es, f, i);
    FontWriter.PartStands(f.parts, i);
    FontWriter.PartsAscend(f.parts, i + 1, |f.parts|);
    assert f.parts[..|f.parts|] == f.parts;
  }

  lemma AllInStream(f: Font, es: seq<Entry>)
    requires Described(es, f)
    ensures InStream(FontWriter.Join(f.parts), es)
  {
    forall e | e in es ensures e.offset + e.size <= |FontWriter.Join(f.parts)| {
      var i :| 0 <= i < |es| && es[i] == e;
      SliceIsPart(f, es, i);
    }
  }

  lemma TableOfTag(f: Font, es: seq<Entry>, tag: string)
    requires Described(es, f)
    ensures (exists e <- es :: e.tag == tag) <==> (exists i :: IsTable(f, i, tag))
  {
    if e :| e in es && e.tag == tag {
      var i :| 0 <= i < |es| && es[i] == e;
      assert DescribedAt(es, f, i) && IsTable(f, i, tag);
    }
    if i :| IsTable(f, i, tag) {
      assert DescribedAt(es, f, i) && es[i] in es;
    }
  }

  lemma PairedMeans(f: Font, es: seq<Entry>)
    requires Described(es, f) && InStream(FontWriter.Join(f.parts), es)
    ensures OutlinesOk(FontWriter.Join(f.parts), es) ==> Paired(f)
  {
    var decoded := FontWriter.Join(f.parts);
    TableOfTag(f, es, "glyf");
    TableOfTag(f, es, "loca");
    if OutlinesOk(decoded, es) {
      forall i, j | IsTable(f, i, "glyf") && IsTable(f, j, "loca") ensures Transforms(f, i) == Transforms(f, j) {
        assert DescribedAt(es, f, i) && DescribedAt(es, f, j) && es[i] in es && es[j] in es;
      }
      forall i | IsTable(f, i, "glyf") && Transforms(f, i) ensures OutlinesFit(f.parts[i]) {
        assert DescribedAt(es, f, i) && es[i] in es;
        SliceIsPart(f, es, i);
      }
    }
  }

  lemma PairedSuffices(f: Font, es: seq<Entry>)
    requires Described(es, f) && InStream(FontWriter.Join(f.parts), es) && Paired(f)
    ensures OutlinesOk(FontWriter.Join(f.parts), es)
  {
    var decoded := FontWriter.Join(f.parts);
    TableOfTag(f, es, "glyf");
    TableOfTag(f, es, "loca");
    forall g, l | g in es && l in es && g.tag == "glyf" && l.tag == "loca" ensures g.transformed == l.transformed {
      var i :| 0 <= i < |es| && es[i] == g;
      var j :| 0 <= j < |es| && es[j] == l;
      assert DescribedAt(es, f, i) && DescribedAt(es, f, j) && IsTable(f, i, "glyf") && IsTable(f, j, "loca");
    }
    forall g | g in es && g.tag == "glyf" && g.transformed ensures OutlinesFit(Slice(decoded, g)) {
      var i :| 0 <= i < |es| && es[i] == g;
      assert DescribedAt(es, f, i) && IsTable(f, i, "glyf");
      SliceIsPart(f, es, i);
    }
  }

  lemma SlicesGiveBack(f: Font, es: seq<Entry>, tables: map<string, Option<Bytes>>)
    requires Described(es, f) && InStream(FontWriter.Join(f.parts), es) && SlicedTables(FontWriter.Join(f.parts), es, tables)
    ensures GivesBack(f, tables)
  {
    forall i | 0 <= i < |f.rows| ensures GivenAt(f, i, tables) {
      assert DescribedAt(es, f, i) && es[i] in es;
      SliceIsPart(f, es, i);
    }
    var names := set i | 0 <= i < |f.rows| :: NameAt(f, i);
    forall tag | tag in names ensures tag in tables {
      var i :| 0 <= i < |f.rows| && NameAt(f, i) == tag;
      assert GivenAt(f, i, tables);
    }
    forall tag | tag in tables ensures tag in (set i | 0 <= i < |f.rows| :: NameAt(f, i)) {
      var e :| e in es && e.tag == tag;
      var i :| 0 <= i < |es| && es[i] == e;
      assert DescribedAt(es, f, i) && NameAt(f, i) == tag;
    }
  }

  lemma StreamIsDecoded(data: Bytes, f: Font, unbrotli: Decompressor)
    requires FontOk(f, unbrotli) && Written(data, f)
    ensures DirectoryEnd(f.rows) + U32(data, 20) <= |data|
    ensures Decoded(data, DirectoryEnd(f.rows), unbrotli) == Some(FontWriter.Join(f.parts))
  {
    DecodedAt(data, DirectoryEnd(f.rows), f.compressed, unbrotli);
  }

  lemma DecodedAt(data: Bytes, pos: nat, compressed: Bytes, unbrotli: Decompressor)
    requires |data| >= 48 && U32(data, 20) == |compressed| && StandsAt(data, pos, compressed)
    ensures pos + U32(data, 20) <= |data| && Decoded(data, pos, unbrotli) == unbrotli(compressed)
  { }

  lemma StreamVerdict(data: Bytes, f: Font, unbrotli: Decompressor, sort: Sorter)
    requires FontOk(f, unbrotli) && Written(data, f) && Sorts(sort) && StreamSize(f.rows) <= MaxDecoded
    ensures StreamFits(data, DirectoryEnd(f.rows), Tables(f.rows), StreamSize(f.rows), unbrotli, sort) <==> Paired(f)
  {
    RangesChain(data, f, sort);
    StreamIsDecoded(data, f, unbrotli);
    SizesAre(f, unbrotli);
    TablesAreDescribed(f, unbrotli);
    AllInStream(f, Tables(f.rows));
    PairedMeans(f, Tables(f.rows));
    if Paired(f) { PairedSuffices(f, Tables(f.rows)); }
  }

  // The directory of a written file can be read in one way only.
  lemma OnlyDirectory(data: Bytes, f: Font, unbrotli: Decompressor, rows: seq<Row>)
    requires FontOk(f, unbrotli) && Written(data, f) && DirectoryFits(data, rows)
    ensures rows == f.rows
  {
    RowsStand(data, 48, f.rows, DirectoryEnd(f.rows));
    OnlyReading(data, rows);
  }

  lemma BothFit(data: Bytes, rows: seq<Row>, unbrotli: Decompressor, sort: Sorter)
    requires DirectoryFits(data, rows)
    requires StreamFits(data, DirectoryEnd(rows), Tables(rows), StreamSize(rows), unbrotli, sort)
    ensures Woff2Accepted(data, rows, unbrotli, sort)
  { }

  lemma StreamIsFound(data: Bytes, f: Font, unbrotli: Decompressor, sort: Sorter)
    requires FontOk(f, unbrotli) && Written(data, f) && Sorts(sort) && Small(f) && Paired(f)
    ensures StreamSize(f.rows) <= MaxDecoded
    ensures StreamFits(data, DirectoryEnd(f.rows), Tables(f.rows), StreamSize(f.rows), unbrotli, sort)
  {
    SizesAre(f, unbrotli);
    StreamVerdict(data, f, unbrotli, sort);
  }

  lemma SmallIsAccepted(data: Bytes, f: Font, unbrotli: Decompressor, sort: Sorter)
    requires FontOk(f, unbrotli) && Written(data, f) && Sorts(sort) && Small(f) && Paired(f)
    ensures Woff2Accepted(data, f.rows, unbrotli, sort)
  {
    DirectoryVerdict(data, f, unbrotli);
    StreamIsFound(data, f, unbrotli, sort);
    BothFit(data, f.rows, unbrotli, sort);
  }

  lemma AcceptedIsSmall(data: Bytes, f: Font, unbrotli: Decompressor, sort: Sorter)
    requires FontOk(f, unbrotli) && Written(data, f) && Sorts(sort) && Woff2Accepted(data, f.rows, unbrotli, sort)
    ensures Small(f) && Paired(f)
  {
    DirectoryVerdict(data, f, unbrotli);
    SizesAre(f, unbrotli);
    StreamVerdict(data, f, unbrotli, sort);
  }

  lemma TablesComeBack(data: Bytes, f: Font, unbrotli: Decompressor, tables: map<string, Option<Bytes>>)
    requires FontOk(f, unbrotli) && Written(data, f) && StreamSize(f.rows) <= MaxDecoded
    requires DirectoryEnd(f.rows) + U32(data, 20) <= |data| && Decoded(data, DirectoryEnd(f.rows), unbrotli).Some?
    requires InStream(Decoded(data, DirectoryEnd(f.rows), unbrotli).value, Tables(f.rows))
    requires SlicedTables(Decoded(data, DirectoryEnd(f.rows), unbrotli).value, Tables(f.rows), tables)
    ensures GivesBack(f, tables)
  {
    StreamIsDecoded(data, f, unbrotli);
    TablesAreDescribed(f, unbrotli);
    SlicesGiveBack(f, Tables(f.rows), tables);
  }

  // A written file within the limits whose outlines are in order, and no other, is accepted by any
  // sort by offset, and its metadata tables come back out of the stream.
  method ReadWoff2Back(f: Font, unbrotli: Decompressor, sort: Sorter)
    returns (r: Result<map<string, Option<Bytes>>, FontError>)
    requires FontOk(f, unbrotli) && Sorts(sort)
    ensures r.Ok? <==> Small(f) && Paired(f)
    ensures r.Ok? ==> GivesBack(f, r.value)
  {
    var data := Woff2Bytes(f);
    FileIsWritten(f, unbrotli);
    r := ReadWritten(data, f, unbrotli, sort);
  }

  method ReadWritten(data: Bytes, f: Font, unbrotli: Decompressor, sort: Sorter)
    returns (r: Result<map<string, Option<Bytes>>, FontError>)
    requires FontOk(f, unbrotli) && Written(data, f) && Sorts(sort)
    ensures r.Ok? <==> Small(f) && Paired(f)
    ensures r.Ok? ==> GivesBack(f, r.value)
  {
    ghost var rows;
    r, rows := Woff2(data, unbrotli, sort);
    if r.Ok? {
      OnlyDirectory(data, f, unbrotli, rows);
      AcceptedIsSmall(data, f, unbrotli, sort);
      TablesComeBack(data, f, unbrotli, r.value);
    } else if Small(f) && Paired(f) {
      SmallIsAccepted(data, f, unbrotli, sort);
    }
  }

  // ---- transformed outlines ----

  // A transformed glyf table: seven streams behind their sizes, and what is behind them.
  datatype Outlines = Outlines(flags: nat, glyphs: nat, format: nat, streams: seq<Bytes>, rest: Bytes)

  function StreamSizes(o: Outlines): seq<Bytes> {
    seq(|o.streams|, i requires 0 <= i < |o.streams| => FontWriter.Be32(|o.streams[i]|))
  }

  function OutlineHeader(o: Outlines): Bytes {
    FontWriter.Four(FontWriter.Be16(0), FontWriter.Be16(o.flags), FontWriter.Be16(o.glyphs), FontWriter.Be16(o.format))
  }

  function GlyfTable(o: Outlines): Bytes {
    OutlineHeader(o) + (FontWriter.Join(StreamSizes(o)) + (FontWriter.Join(o.streams) + o.rest))
  }

  predicate OutlinesStored(o: Outlines) {
    && o.flags < 0x1_0000 && o.glyphs < 0x1_0000 && o.format < 0x1_0000
    && |o.streams| == 7 && forall b <- o.streams :: |b| < Limit
  }

  lemma OutlineParts(o: Outlines)
    requires OutlinesStored(o)
    ensures var b := GlyfTable(o);
            && |b| == 36 + |FontWriter.Join(o.streams)| + |o.rest|
            && StandsAt(b, 0, OutlineHeader(o)) && StandsAt(b, 8, FontWriter.Join(StreamSizes(o)))
  {
    var b, sizes := GlyfTable(o), FontWriter.Join(StreamSizes(o));
    FontWriter.EvenParts(StreamSizes(o), 4);
    assert b[0..|b|] == b;
    StandsSplit(b, 0, OutlineHeader(o), sizes + (FontWriter.Join(o.streams) + o.rest));
    StandsSplit(b, 8, sizes, FontWriter.Join(o.streams) + o.rest);
  }

  lemma OutlineNumbers(b: Bytes, o: Outlines)
    requires OutlinesStored(o) && |b| >= 36 && StandsAt(b, 0, OutlineHeader(o))
    ensures U16(b, 0) == 0 && U16(b, 2) == o.flags && U16(b, 4) == o.glyphs && U16(b, 6) == o.format
  {
    FontWriter.FourStand(b, 0, FontWriter.Be16(0), FontWriter.Be16(o.flags), FontWriter.Be16(o.glyphs), FontWriter.Be16(o.format));
    FontWriter.ReadsBe16(b, 0, 0);
    FontWriter.ReadsBe16(b, 2, o.flags);
    FontWriter.ReadsBe16(b, 4, o.glyphs);
    FontWriter.ReadsBe16(b, 6, o.format);
  }

  lemma StreamSizeStands(b: Bytes, sizes: seq<Bytes>, k: nat)
    requires k < |sizes| && (forall size <- sizes :: |size| == 4) && StandsAt(b, 8, FontWriter.Join(sizes))
    ensures StandsAt(b, 8 + 4 * k, sizes[k])
  {
    FontWriter.PartStands(sizes, k);
    FontWriter.EvenParts(sizes[..k], 4);
    FontWriter.StandsWithin(b, 8, FontWriter.Join(sizes), 4 * k, sizes[k]);
  }

  lemma StreamSizeReads(b: Bytes, o: Outlines, k: nat)
    requires OutlinesStored(o) && k < 7 && |b| >= 36 && StandsAt(b, 8, FontWriter.Join(StreamSizes(o)))
    ensures U32(b, 8 + 4 * k) == |o.streams[k]|
  {
    StreamSizeStands(b, StreamSizes(o), k);
    assert o.streams[k] in o.streams;
    FontWriter.ReadsBe32(b, 8 + 4 * k, |o.streams[k]|);
  }

  lemma {:induction false} StreamsAddUp(b: Bytes, o: Outlines, k: nat)
    requires OutlinesStored(o) && k <= 7 && |b| >= 36 && StandsAt(b, 8, FontWriter.Join(StreamSizes(o)))
    ensures Streams(b, k) == |FontWriter.Join(o.streams[..k])|
  {
    if k > 0 {
      StreamsAddUp(b, o, k - 1);
      StreamSizeReads(b, o, k - 1);
      FontWriter.PartStands(o.streams, k - 1);
    }
  }

  // A table put together so is in order exactly when its index format is known and, with a bitmap
  // announced, a bit for each glyph is left behind the streams.
  lemma WrittenOutlinesFit(o: Outlines)
    requires OutlinesStored(o)
    ensures OutlinesFit(GlyfTable(o)) <==> o.format <= 1 && (o.flags % 2 == 1 ==> (o.glyphs + 7) / 8 <= |o.rest|)
  {
    var b := GlyfTable(o);
    OutlineParts(o);
    OutlineNumbers(b, o);
    StreamsAddUp(b, o, 7);
    assert o.streams[..7] == o.streams;
  }
}
