/**
A writer of whole WOFF 1.0 files (W3C WOFF 1.0, sections on the header, the table directory and
the metadata and private blocks), and what internal/adapters/fontvalidate/font.go:139-204 makes of them.
*/
module WoffWriter {
  import opened Wrappers
  import opened Base128
  import opened Records
  import opened FontTables
  import opened FontLayout
  import opened FontOrder
  import opened FontWriter

  // `version` is the font's own version, `metaSize` the length of the metadata when unpacked and
  // `metaGap` its padding; a block that is empty is absent.
  datatype Font = Font(flavor: nat, version: Bytes, tables: seq<Table>, meta: Bytes, metaSize: nat, metaGap: Bytes, private: Bytes)

  const Signature: Bytes := [0x77, 0x4f, 0x46, 0x46]

  function Start(f: Font): nat { 44 + 20 * |f.tables| }

  function TablesEnd(f: Font): nat { Start(f) + |Join(Bodies(f.tables))| }

  function MetaAt(f: Font): nat { if f.meta == [] then 0 else TablesEnd(f) }

  function PrivateStart(f: Font): nat { TablesEnd(f) + |f.meta| + |f.metaGap| }

  function PrivateAt(f: Font): nat { if f.private == [] then 0 else PrivateStart(f) }

  function Tail(f: Font): Bytes { f.meta + f.metaGap + f.private }

  function Length(f: Font): nat { TablesEnd(f) + |Tail(f)| }

  // The length of the SFNT file the tables unpack to.
  function SfntSize(f: Font): nat { 12 + 16 * |f.tables| + |Join(Bodies(Plain(f.tables)))| }

  function Header(f: Font): Bytes {
    Four(Signature, Be32(f.flavor), Be32(Length(f)), Be16(|f.tables|)) +
    (Four(Be16(0), Be32(SfntSize(f)), f.version, Be32(MetaAt(f))) +
     Four(Be32(|f.meta|), Be32(f.metaSize), Be32(PrivateAt(f)), Be32(|f.private|)))
  }

  function WoffRow(t: Table, offset: nat): Bytes {
    Four(t.tag, Be32(offset), Be32(|t.stored|), Be32(|t.original|) + t.checksum)
  }

  function WoffRows(f: Font): seq<Bytes> {
    seq(|f.tables|, i requires 0 <= i < |f.tables| => WoffRow(f.tables[i], Place(f.tables, Start(f), i)))
  }

  function WoffFile(f: Font): Bytes { Header(f) + (Join(WoffRows(f)) + (Join(Bodies(f.tables)) + Tail(f))) }

  // All numbers fit their fields.
  predicate FontOk(f: Font, inflate: Decompressor) {
    && f.flavor in {0x1_0000, 0x4f54_544f} && |f.version| == 4 && TablesOk(f.tables, inflate)
    && Length(f) < Limit && SfntSize(f) < Limit && f.metaSize < Limit && PrivateStart(f) % 4 == 0
  }

  predicate Small(f: Font) { SfntSize(f) <= MaxDecoded && f.metaSize <= MaxMetadata && SmallMetadata(f.tables) }

  // The size announced is the length of the file of the unpacked tables.
  lemma SfntSizeIsLength(f: Font, version: Bytes, search: Bytes)
    requires |version| == 4 && |search| == 6 && forall t <- f.tables :: |t.tag| == 4 && |t.checksum| == 4
    ensures SfntSize(f) == |SfntFile(version, search, Plain(f.tables))|
  {
    forall t | t in Plain(f.tables) ensures |t.tag| == 4 && |t.checksum| == 4 {
      var i :| 0 <= i < |f.tables| && Plain(f.tables)[i] == t;
      assert f.tables[i] in f.tables;
    }
    SfntParts(version, search, Plain(f.tables));
  }

  // ---- where the parts stand ----

  lemma WoffRowsAreEven(f: Font)
    requires forall t <- f.tables :: |t.tag| == 4 && |t.checksum| == 4
    ensures forall i | 0 <= i < |f.tables| :: |WoffRows(f)[i]| == 20 && |f.tables[i].tag| == 4 && |f.tables[i].checksum| == 4
  {
    forall i | 0 <= i < |f.tables|
      ensures |WoffRows(f)[i]| == 20 && |f.tables[i].tag| == 4 && |f.tables[i].checksum| == 4
    {
      assert f.tables[i] in f.tables;
    }
  }

  lemma ThreeStand(a: Bytes, b: Bytes, c: Bytes, d: Bytes)
    ensures var data := a + (b + (c + d));
            && |data| == |a| + |b| + |c| + |d| && StandsAt(data, 0, a) && StandsAt(data, |a|, b)
            && StandsAt(data, |a| + |b|, c) && StandsAt(data, |a| + |b| + |c|, d)
  {
    var data := a + (b + (c + d));
    assert data[0..|data|] == data;
    StandsSplit(data, 0, a, b + (c + d));
    StandsSplit(data, |a|, b, c + d);
    StandsSplit(data, |a| + |b|, c, d);
  }

  lemma WoffParts(f: Font)
    requires |f.version| == 4 && forall t <- f.tables :: |t.tag| == 4 && |t.checksum| == 4
    ensures var data := WoffFile(f);
            && |data| == Length(f) && StandsAt(data, 0, Header(f)) && StandsAt(data, 44, Join(WoffRows(f)))
            && StandsAt(data, Start(f), Join(Bodies(f.tables))) && StandsAt(data, TablesEnd(f), Tail(f))
  {
    HeaderLength(f);
    RowsLength(f);
    ThreeStand(Header(f), Join(WoffRows(f)), Join(Bodies(f.tables)), Tail(f));
  }

  lemma HeaderLength(f: Font)
    requires |f.version| == 4
    ensures |Header(f)| == 44
  { }

  lemma RowsLength(f: Font)
    requires forall t <- f.tables :: |t.tag| == 4 && |t.checksum| == 4
    ensures |Join(WoffRows(f))| == 20 * |f.tables|
  {
    WoffRowsAreEven(f);
    RowsAreEven(WoffRows(f), 20);
  }

  // ---- the header ----

  lemma ThreeGroups(data: Bytes, a: Bytes, b: Bytes, c: Bytes)
    requires StandsAt(data, 0, a + (b + c))
    ensures StandsAt(data, 0, a) && StandsAt(data, |a|, b) && StandsAt(data, |a| + |b|, c)
  {
    StandsSplit(data, 0, a, b + c);
    StandsSplit(data, |a|, b, c);
  }

  lemma HeaderStands(data: Bytes, f: Font)
    requires |f.version| == 4 && StandsAt(data, 0, Header(f))
    ensures StandsAt(data, 4, Be32(f.flavor)) && StandsAt(data, 8, Be32(Length(f))) && StandsAt(data, 12, Be16(|f.tables|))
    ensures StandsAt(data, 14, Be16(0)) && StandsAt(data, 16, Be32(SfntSize(f))) && StandsAt(data, 24, Be32(MetaAt(f)))
    ensures StandsAt(data, 28, Be32(|f.meta|)) && StandsAt(data, 32, Be32(f.metaSize))
    ensures StandsAt(data, 36, Be32(PrivateAt(f))) && StandsAt(data, 40, Be32(|f.private|))
  {
    var a := Four(Signature, Be32(f.flavor), Be32(Length(f)), Be16(|f.tables|));
    var b := Four(Be16(0), Be32(SfntSize(f)), f.version, Be32(MetaAt(f)));
    var c := Four(Be32(|f.meta|), Be32(f.metaSize), Be32(PrivateAt(f)), Be32(|f.private|));
    ThreeGroups(data, a, b, c);
    FourStand(data, 0, Signature, Be32(f.flavor), Be32(Length(f)), Be16(|f.tables|));
    FourStand(data, 14, Be16(0), Be32(SfntSize(f)), f.version, Be32(MetaAt(f)));
    FourStand(data, 28, Be32(|f.meta|), Be32(f.metaSize), Be32(PrivateAt(f)), Be32(|f.private|));
  }

  lemma HeaderReads(data: Bytes, f: Font)
    requires |f.version| == 4 && StandsAt(data, 0, Header(f)) && |f.tables| <= 256
    requires f.flavor < Limit && Length(f) < Limit && SfntSize(f) < Limit && f.metaSize < Limit
    ensures |data| >= 44 && U32(data, 4) == f.flavor && U32(data, 8) == Length(f) && U16(data, 12) == |f.tables|
    ensures U16(data, 14) == 0 && U32(data, 16) == SfntSize(f) && U32(data, 32) == f.metaSize
    ensures U32(data, 24) == MetaAt(f) && U32(data, 28) == |f.meta|
    ensures U32(data, 36) == PrivateAt(f) && U32(data, 40) == |f.private|
  {
    HeaderStands(data, f);
    ReadsBe32(data, 4, f.flavor);
    ReadsBe32(data, 8, Length(f));
    ReadsBe16(data, 12, |f.tables|);
    ReadsBe16(data, 14, 0);
    ReadsBe32(data, 16, SfntSize(f));
    ReadsBe32(data, 24, MetaAt(f));
    ReadsBe32(data, 28, |f.meta|);
    ReadsBe32(data, 32, f.metaSize);
    ReadsBe32(data, 36, PrivateAt(f));
    ReadsBe32(data, 40, |f.private|);
  }

  // ---- the directory ----

  lemma WoffRowReads(data: Bytes, o: nat, t: Table, offset: nat)
    requires |t.tag| == 4 && |t.checksum| == 4 && offset < Limit && |t.stored| < Limit && |t.original| < Limit
    requires StandsAt(data, o, WoffRow(t, offset))
    ensures o + 20 <= |data| && WoffEntry(data, o) == Entry(Name(t), offset, |t.stored|, |t.original|, false)
  {
    FourStand(data, o, t.tag, Be32(offset), Be32(|t.stored|), Be32(|t.original|) + t.checksum);
    StandsSplit(data, o + 12, Be32(|t.original|), t.checksum);
    ReadsBe32(data, o + 4, offset);
    ReadsBe32(data, o + 8, |t.stored|);
    ReadsBe32(data, o + 12, |t.original|);
  }

  lemma WoffRowDescribes(data: Bytes, f: Font, i: nat)
    requires i < |f.tables| && Start(f) <= |data| < Limit && forall t <- f.tables :: |t.tag| == 4 && |t.checksum| == 4
    requires StandsAt(data, 44, Join(WoffRows(f))) && StandsAt(data, Start(f), Join(Bodies(f.tables)))
    requires |f.tables[i].original| < Limit
    ensures Describes(WoffEntries(data, |f.tables|)[i], f.tables, Start(f), i)
  {
    WoffRowsAreEven(f);
    PlaceIsInside(data, f.tables, Start(f), i);
    WoffRowGives(data, WoffRows(f), i, f.tables[i], Place(f.tables, Start(f), i));
  }

  lemma WoffRowGives(data: Bytes, rows: seq<Bytes>, i: nat, t: Table, offset: nat)
    requires i < |rows| && StandsAt(data, 44, Join(rows)) && forall k | 0 <= k < |rows| :: |rows[k]| == 20
    requires 44 + 20 * |rows| <= |data| && |t.tag| == 4 && |t.checksum| == 4
    requires offset < Limit && |t.stored| < Limit && |t.original| < Limit && rows[i] == WoffRow(t, offset)
    ensures WoffEntries(data, |rows|)[i] == Entry(Name(t), offset, |t.stored|, |t.original|, false)
  {
    RowStandsAt(data, 44, rows, 20, i);
    WoffRowReads(data, 44 + 20 * i, t, offset);
  }

  lemma OriginalsAreInside(f: Font, i: nat)
    requires i < |f.tables|
    ensures |f.tables[i].original| <= SfntSize(f)
  {
    PlacesAscend(Plain(f.tables), 0, i);
  }

  lemma WoffDescribed(f: Font, inflate: Decompressor)
    requires FontOk(f, inflate)
    ensures var data := WoffFile(f); |data| >= Start(f) && AllDescribed(WoffEntries(data, |f.tables|), f.tables, Start(f))
  {
    var data := WoffFile(f);
    assert forall t <- f.tables :: TableOk(t, inflate);
    WoffParts(f);
    forall i | 0 <= i < |f.tables| ensures Describes(WoffEntries(data, |f.tables|)[i], f.tables, Start(f), i) {
      OriginalsAreInside(f, i);
      WoffRowDescribes(data, f, i);
    }
  }

  // ---- the verdict ----

  function MetaBlock(f: Font): seq<Entry>
    requires Length(f) < Limit
  {
    if f.meta == [] then [] else [Span(TablesEnd(f), |f.meta|)]
  }

  function PrivateBlock(f: Font): seq<Entry>
    requires Length(f) < Limit
  {
    if f.private == [] then [] else [Span(PrivateStart(f), |f.private|)]
  }

  // What the header says.
  predicate Announces(data: Bytes, f: Font) {
    && |data| >= 44 && |data| == Length(f) < Limit && U32(data, 8) == Length(f) && U16(data, 12) == |f.tables| && U16(data, 14) == 0
    && U32(data, 4) == f.flavor && U32(data, 16) == SfntSize(f) && U32(data, 32) == f.metaSize
    && U32(data, 24) == MetaAt(f) && U32(data, 28) == |f.meta|
    && U32(data, 36) == PrivateAt(f) && U32(data, 40) == |f.private|
  }

  ghost predicate Written(data: Bytes, f: Font) {
    && Announces(data, f) && Start(f) <= |data| && StandsAt(data, Start(f), Join(Bodies(f.tables)))
    && AllDescribed(WoffEntries(data, |f.tables|), f.tables, Start(f))
  }

  lemma FileIsWritten(f: Font, inflate: Decompressor)
    requires FontOk(f, inflate)
    ensures Written(WoffFile(f), f)
  {
    assert forall t <- f.tables :: TableOk(t, inflate);
    WoffParts(f);
    HeaderReads(WoffFile(f), f);
    WoffDescribed(f, inflate);
  }

  lemma EndIsAligned(f: Font)
    ensures TablesEnd(f) % 4 == 0
  {
    BodiesArePadded(f.tables, |f.tables|);
    assert Bodies(f.tables)[..|f.tables|] == Bodies(f.tables);
    FoursAddUp(Start(f), |Join(Bodies(f.tables))|);
  }

  lemma BlocksAreRead(data: Bytes, f: Font)
    requires Announces(data, f) && PrivateStart(f) % 4 == 0
    ensures BlockOk(data, 24) && Block(data, 24) == MetaBlock(f)
    ensures BlockOk(data, 36) && Block(data, 36) == PrivateBlock(f)
  {
    EndIsAligned(f);
  }

  // Tables and blocks as the writer lays them out.
  ghost predicate LaidOut(es: seq<Entry>, f: Font) {
    && Length(f) < Limit
    && (forall e <- es :: Start(f) <= e.offset && e.offset + e.size <= TablesEnd(f)) && Pairwise(es, Apart)
  }

  lemma BlocksComeLast(es: seq<Entry>, f: Font)
    requires LaidOut(es, f)
    ensures Chainable(es + MetaBlock(f) + PrivateBlock(f), Start(f))
  {
    var all := es + MetaBlock(f) + PrivateBlock(f);
    forall i, j | 0 <= i < j < |all| ensures Apart(all[i], all[j]) {
      assert j < |es| ==> Apart(es[i], es[j]);
      assert i < |es| ==> es[i] in es;
    }
  }

  lemma DescribedAreLaidOut(data: Bytes, es: seq<Entry>, f: Font, inflate: Decompressor)
    requires FontOk(f, inflate) && AllDescribed(es, f.tables, Start(f)) && StandsAt(data, Start(f), Join(Bodies(f.tables)))
    ensures LaidOut(es, f) && DistinctTags(es) && TablesFit(data, es, Start(f), true, inflate)
  {
    DescribedFit(data, es, f.tables, Start(f), true, inflate);
    forall e | e in es ensures Start(f) <= e.offset && e.offset + e.size <= TablesEnd(f) {
      var i :| 0 <= i < |es| && es[i] == e;
      assert Describes(es[i], f.tables, Start(f), i);
      PlacesAscend(f.tables, Start(f), i);
    }
  }

  lemma ChainsIffEmptiesFirst(ranges: seq<Entry>, start: nat, sort: Sorter)
    requires Sorts(sort) && Chainable(ranges, start)
    ensures Chain(sort(ranges), start) <==> FontLayout.EmptyFirst(sort(ranges))
  {
    ChainableInAnyOrder(ranges, sort(ranges), start);
    ChainIffApart(sort(ranges), start);
  }

  lemma HeaderWritten(data: Bytes, f: Font)
    requires Announces(data, f) && Start(f) <= |data| && 1 <= |f.tables| <= 256 && f.flavor in {0x1_0000, 0x4f54_544f}
    ensures WoffHeader(data) <==> SfntSize(f) <= MaxDecoded && f.metaSize <= MaxMetadata
  {
    LimitsOfHeader(data);
  }

  lemma LimitsOfHeader(data: Bytes)
    requires |data| >= 44 && U32(data, 8) == |data| < Limit && U16(data, 14) == 0
    requires U32(data, 4) in {0x1_0000, 0x4f54_544f} && 1 <= U16(data, 12) <= 256 && 44 + 20 * U16(data, 12) <= |data|
    ensures WoffHeader(data) <==> U32(data, 16) <= MaxDecoded && U32(data, 32) <= MaxMetadata
  { }

  lemma SizesWritten(data: Bytes, es: seq<Entry>, f: Font, inflate: Decompressor)
    requires FontOk(f, inflate) && StandsAt(data, Start(f), Join(Bodies(f.tables))) && AllDescribed(es, f.tables, Start(f))
    ensures SfntSize(f) == 12 + 16 * |f.tables| + Unpacked(es)
    ensures BoundsHold(es, SfntSize(f)) <==> SfntSize(f) <= MaxDecoded && SmallMetadata(f.tables)
  {
    DescribedAreLaidOut(data, es, f, inflate);
    DescribedAddUp(es, f.tables, Start(f));
    DescribedBounds(es, f.tables, Start(f), SfntSize(f));
  }

  lemma WoffSizesWritten(data: Bytes, f: Font, inflate: Decompressor)
    requires FontOk(f, inflate) && Written(data, f)
    ensures WoffHeader(data) <==> SfntSize(f) <= MaxDecoded && f.metaSize <= MaxMetadata
    ensures WoffSizes(data) <==> Small(f)
  {
    HeaderWritten(data, f);
    SizesWritten(data, WoffEntries(data, |f.tables|), f, inflate);
  }

  lemma WoffIsLaidOut(data: Bytes, f: Font, inflate: Decompressor)
    requires FontOk(f, inflate) && Written(data, f) && WoffHeader(data)
    ensures WoffRest(data) == WoffSizes(data) && TablesFit(data, WoffTables(data), Start(f), true, inflate)
    ensures Chainable(WoffRanges(data), Start(f))
  {
    BlocksAreRead(data, f);
    DescribedAreLaidOut(data, WoffTables(data), f, inflate);
    BlocksComeLast(WoffTables(data), f);
  }

  lemma WoffVerdict(data: Bytes, f: Font, inflate: Decompressor, tables: Sorter, blocks: Sorter)
    requires FontOk(f, inflate) && Written(data, f) && Sorts(tables) && Sorts(blocks) && inflate([]) == None
    ensures WoffAccepted(data, inflate, tables, blocks) ==> Small(f)
    ensures Small(f) ==> WoffHeader(data)
    ensures Small(f) ==> (WoffAccepted(data, inflate, tables, blocks) <==> FontLayout.EmptyFirst(blocks(WoffRanges(data))))
  {
    WoffSizesWritten(data, f, inflate);
    if Small(f) {
      WoffIsLaidOut(data, f, inflate);
      WoffSorted(data, inflate, tables, blocks);
      ChainsIffEmptiesFirst(WoffRanges(data), Start(f), blocks);
    }
  }

  lemma RangesAreNotEmpty(data: Bytes, f: Font)
    requires Written(data, f) && PrivateStart(f) % 4 == 0 && WoffHeader(data) && forall t <- f.tables :: t.stored != []
    ensures forall e <- WoffRanges(data) :: e.size > 0
  {
    BlocksAreRead(data, f);
    forall e | e in WoffTables(data) ensures e.size > 0 {
      var i :| 0 <= i < |f.tables| && WoffTables(data)[i] == e;
      assert f.tables[i] in f.tables && Describes(e, f.tables, Start(f), i);
    }
  }

  // Ranges that are not empty do not start at one place.
  lemma NothingEmpty(ranges: seq<Entry>, start: nat, sort: Sorter)
    requires Sorts(sort) && Chainable(ranges, start) && forall e <- ranges :: e.size > 0
    ensures FontLayout.EmptyFirst(sort(ranges))
  {
    UntiedChains(ranges, start, sort);
    ChainIffApart(sort(ranges), start);
  }

  lemma TablesAreWritten(data: Bytes, f: Font)
    requires Written(data, f) && WoffHeader(data)
    ensures WoffTables(data) == WoffEntries(data, |f.tables|)
  { }

  lemma WoffGivesBack(data: Bytes, es: seq<Entry>, f: Font, inflate: Decompressor, tables: map<string, Option<Bytes>>)
    requires FontOk(f, inflate) && inflate([]) == None && StandsAt(data, Start(f), Join(Bodies(f.tables)))
    requires AllDescribed(es, f.tables, Start(f)) && TablesOf(data, es, true, inflate, tables)
    ensures GivesBack(f.tables, tables)
  {
    DescribedGiveBack(data, es, f.tables, Start(f), true, inflate, tables);
  }

  lemma NoEmptyTable(data: Bytes, f: Font, inflate: Decompressor, sort: Sorter)
    requires FontOk(f, inflate) && Written(data, f) && WoffHeader(data) && Sorts(sort) && forall t <- f.tables :: t.stored != []
    ensures FontLayout.EmptyFirst(sort(WoffRanges(data)))
  {
    WoffIsLaidOut(data, f, inflate);
    RangesAreNotEmpty(data, f);
    NothingEmpty(WoffRanges(data), Start(f), sort);
  }

  // A written file within the limits, and no other, is accepted by any sorts by offset, and its
  // tables come back unpacked; only where a table is empty may the sort of the blocks refuse it.
  method ReadWoffBack(f: Font, inflate: Decompressor, tables: Sorter, blocks: Sorter)
    returns (r: Result<map<string, Option<Bytes>>, FontError>)
    requires FontOk(f, inflate) && Sorts(tables) && Sorts(blocks) && inflate([]) == None
    ensures r.Ok? ==> Small(f) && GivesBack(f.tables, r.value)
    ensures Small(f) && (forall t <- f.tables :: t.stored != []) ==> r.Ok?
    ensures Small(f) ==> WoffHeader(WoffFile(f))
    ensures Small(f) ==> (r.Ok? <==> FontLayout.EmptyFirst(blocks(WoffRanges(WoffFile(f)))))
  {
    var data := WoffFile(f);
    FileIsWritten(f, inflate);
    r := ReadWritten(data, f, inflate, tables, blocks);
  }

  method ReadWritten(data: Bytes, f: Font, inflate: Decompressor, tables: Sorter, blocks: Sorter)
    returns (r: Result<map<string, Option<Bytes>>, FontError>)
    requires FontOk(f, inflate) && Written(data, f) && Sorts(tables) && Sorts(blocks) && inflate([]) == None
    ensures r.Ok? ==> Small(f) && GivesBack(f.tables, r.value)
    ensures Small(f) && (forall t <- f.tables :: t.stored != []) ==> r.Ok?
    ensures Small(f) ==> WoffHeader(data)
    ensures Small(f) ==> (r.Ok? <==> FontLayout.EmptyFirst(blocks(WoffRanges(data))))
  {
    WoffVerdict(data, f, inflate, tables, blocks);
    r := Woff(data, inflate, tables, blocks);
    if r.Ok? {
      TablesAreWritten(data, f);
      WoffGivesBack(data, WoffEntries(data, |f.tables|), f, inflate, r.value);
    }
    if Small(f) && (forall t <- f.tables :: t.stored != []) { NoEmptyTable(data, f, inflate, blocks); }
  }
}
