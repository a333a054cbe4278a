/**
The parts of font files a writer puts together, and a writer of SFNT files. It shares nothing with
the readers in internal/adapters/fontvalidate/font.go:32-138, which read back what it writes.
*/
module FontWriter {
  import opened Wrappers
  import opened Base128
  import opened Records
  import opened FontTables
  import opened FontLayout

  // ---- bytes ----

  // Big-endian numbers.
  function Be16(n: nat): Bytes { [n / 0x100 % 0x100, n % 0x100] }

  function Be32(n: nat): Bytes { [n / 0x100_0000 % 0x100, n / 0x1_0000 % 0x100, n / 0x100 % 0x100, n % 0x100] }

  function Zeros(n: nat): Bytes { seq(n, _ => 0) }

  // Zeros up to the next multiple of four.
  function Pad(b: Bytes): (r: Bytes)
    ensures |r| % 4 == 0 && |b| <= |r| <= |b| + 3 && r[..|b|] == b
  {
    b + Zeros(3 - (|b| + 3) % 4)
  }

  function Join(parts: seq<Bytes>): Bytes {
    if parts == [] then [] else Join(parts[..|parts| - 1]) + parts[|parts| - 1]
  }

  lemma ReadsBe16(data: Bytes, o: nat, n: nat)
    requires n < 0x1_0000 && StandsAt(data, o, Be16(n))
    ensures U16(data, o) == n
  {
    assert data[o..o + 2][0] == data[o] && data[o..o + 2][1] == data[o + 1];
  }

  lemma ReadsBe32(data: Bytes, o: nat, n: nat)
    requires n < Limit && StandsAt(data, o, Be32(n))
    ensures U32(data, o) == n
  {
    var b := data[o..o + 4];
    assert b[0] == data[o] && b[1] == data[o + 1] && b[2] == data[o + 2] && b[3] == data[o + 3];
    FourBytes(n);
  }

  lemma FourBytes(n: nat)
    requires n < Limit
    ensures n / 0x100_0000 % 0x100 * 0x100_0000 + n / 0x1_0000 % 0x100 * 0x1_0000 + n / 0x100 % 0x100 * 0x100 + n % 0x100 == n
  {
    assert n / 0x100 / 0x100 == n / 0x1_0000 && n / 0x1_0000 / 0x100 == n / 0x100_0000;
  }

  lemma StandsWithin(data: Bytes, p: nat, outer: Bytes, q: nat, inner: Bytes)
    requires StandsAt(data, p, outer) && StandsAt(outer, q, inner)
    ensures StandsAt(data, p + q, inner)
  {
    forall k | 0 <= k < |inner| ensures data[p + q + k] == inner[k] {
      assert data[p + q + k] == data[p..p + |outer|][q + k] && inner[k] == outer[q..q + |inner|][k];
    }
    assert data[p + q..p + q + |inner|] == inner;
  }

  function Four(a: Bytes, b: Bytes, c: Bytes, d: Bytes): Bytes { a + (b + (c + d)) }

  lemma FourStand(data: Bytes, o: nat, a: Bytes, b: Bytes, c: Bytes, d: Bytes)
    requires StandsAt(data, o, Four(a, b, c, d))
    ensures StandsAt(data, o, a) && StandsAt(data, o + |a|, b) && StandsAt(data, o + |a| + |b|, c)
    ensures StandsAt(data, o + |a| + |b| + |c|, d)
  {
    StandsSplit(data, o, a, b + (c + d));
    StandsSplit(data, o + |a|, b, c + d);
    StandsSplit(data, o + |a| + |b|, c, d);
  }

  // Each part stands behind all parts before it.
  lemma {:induction false} PartStands(parts: seq<Bytes>, i: nat)
    requires i < |parts|
    ensures StandsAt(Join(parts), |Join(parts[..i])|, parts[i])
    ensures |Join(parts[..i + 1])| == |Join(parts[..i])| + |parts[i]|
    decreases |parts|
  {
    var front := parts[..|parts| - 1];
    if i == |parts| - 1 {
      assert parts[..i] == front && parts[..i + 1] == parts;
    } else {
      PartStands(front, i);
      assert front[..i] == parts[..i] && front[..i + 1] == parts[..i + 1];
      StandsInFront(Join(front), parts[|parts| - 1], |Join(parts[..i])|, parts[i]);
    }
  }

  lemma StandsInFront(a: Bytes, b: Bytes, at: nat, part: Bytes)
    requires StandsAt(a, at, part)
    ensures StandsAt(a + b, at, part)
  {
    assert (a + b)[at..at + |part|] == a[at..at + |part|];
  }

  // Later parts start later.
  lemma {:induction false} PartsAscend(parts: seq<Bytes>, i: nat, j: nat)
    requires i <= j <= |parts|
    ensures |Join(parts[..i])| <= |Join(parts[..j])|
    decreases j
  {
    if i < j {
      PartsAscend(parts, i, j - 1);
      PartStands(parts, j - 1);
    }
  }

  lemma {:induction false} EvenParts(parts: seq<Bytes>, length: nat)
    requires forall p <- parts :: |p| == length
    ensures |Join(parts)| == length * |parts|
  {
    if parts != [] {
      EvenParts(parts[..|parts| - 1], length);
      assert parts[|parts| - 1] in parts;
      OneMoreTimes(length, |parts| - 1);
    }
  }

  lemma OneMoreTimes(length: nat, n: nat)
    ensures length * (n + 1) == length * n + length
  { }

  lemma {:induction false} PaddedParts(parts: seq<Bytes>)
    requires forall p <- parts :: |p| % 4 == 0
    ensures |Join(parts)| % 4 == 0
  {
    if parts != [] {
      PaddedParts(parts[..|parts| - 1]);
      assert parts[|parts| - 1] in parts;
      FoursAddUp(|Join(parts[..|parts| - 1])|, |parts[|parts| - 1]|);
    }
  }

  lemma FoursAddUp(m: nat, n: nat)
    requires m % 4 == 0 && n % 4 == 0
    ensures (m + n) % 4 == 0
  { }

  // ---- tables ----

  // A table of four bytes of tag, and how it is stored.
  datatype Table = Table(tag: Bytes, checksum: Bytes, original: Bytes, stored: Bytes)

  function Bodies(ts: seq<Table>): seq<Bytes> { seq(|ts|, i requires 0 <= i < |ts| => Pad(ts[i].stored)) }

  // Where a table lies if the first one lies at `start`.
  function Place(ts: seq<Table>, start: nat, i: nat): nat
    requires i <= |ts|
  {
    start + |Join(Bodies(ts)[..i])|
  }

  function Name(t: Table): string { Text(t.tag) }

  // The table takes four bytes of tag and of checksum, and is stored as it is, or shorter and so
  // that it can be unpacked.
  predicate TableOk(t: Table, inflate: Decompressor) {
    && |t.tag| == 4 && |t.checksum| == 4
    && (t.stored == t.original || (|t.stored| < |t.original| && inflate(t.stored) == Some(t.original)))
  }

  predicate TablesOk(ts: seq<Table>, inflate: Decompressor) {
    && 1 <= |ts| <= 256 && (forall t <- ts :: TableOk(t, inflate))
    && (forall i, j | 0 <= i < j < |ts| :: ts[i].tag != ts[j].tag)
  }

  predicate SmallMetadata(ts: seq<Table>) { forall t <- ts :: MetadataTag(Name(t)) ==> |t.original| <= MaxMetadata }

  // The tables as they are when unpacked.
  function Plain(ts: seq<Table>): seq<Table> {
    seq(|ts|, i requires 0 <= i < |ts| => ts[i].(stored := ts[i].original))
  }

  // Every table is named, and a metadata table that is not empty comes with its bytes.
  predicate GivesBack(ts: seq<Table>, tables: map<string, Option<Bytes>>) {
    && tables.Keys == (set t <- ts :: Name(t))
    && forall t <- ts :: Name(t) in tables && tables[Name(t)] ==
         if MetadataTag(Name(t)) && t.original != [] then Some(t.original) else None
  }

  // What a directory says about table i.
  ghost predicate Describes(e: Entry, ts: seq<Table>, start: nat, i: nat)
    requires i < |ts|
  {
    e.tag == Name(ts[i]) && e.offset == Place(ts, start, i) && e.size == |ts[i].stored| && e.original == |ts[i].original|
  }

  ghost predicate AllDescribed(es: seq<Entry>, ts: seq<Table>, start: nat) {
    |es| == |ts| && forall i | 0 <= i < |ts| :: Describes(es[i], ts, start, i)
  }

  lemma BodiesArePadded(ts: seq<Table>, k: nat)
    requires k <= |ts|
    ensures |Join(Bodies(ts)[..k])| % 4 == 0
  {
    PaddedParts(Bodies(ts)[..k]);
  }

  // The stored bytes of a table stand where its offset says.
  lemma StoredStands(data: Bytes, ts: seq<Table>, start: nat, i: nat)
    requires i < |ts| && StandsAt(data, start, Join(Bodies(ts)))
    ensures StandsAt(data, Place(ts, start, i), ts[i].stored)
    ensures Place(ts, start, i) + |ts[i].stored| <= Place(ts, start, i + 1) <= start + |Join(Bodies(ts))|
    ensures start % 4 == 0 ==> Place(ts, start, i) % 4 == 0
  {
    PlacesAscend(ts, start, i);
    PartStands(Bodies(ts), i);
    PadStands(data, start, Join(Bodies(ts)), |Join(Bodies(ts)[..i])|, ts[i].stored);
  }

  lemma PlacesAscend(ts: seq<Table>, start: nat, i: nat)
    requires i < |ts|
    ensures Place(ts, start, i) + |ts[i].stored| <= Place(ts, start, i + 1) <= start + |Join(Bodies(ts))|
    ensures start % 4 == 0 ==> Place(ts, start, i) % 4 == 0
  {
    var bodies := Bodies(ts);
    PartStands(bodies, i);
    PartsAscend(bodies, i + 1, |ts|);
    assert bodies[..|ts|] == bodies;
    BodiesArePadded(ts, i);
    if start % 4 == 0 { FoursAddUp(start, |Join(bodies[..i])|); }
  }

  lemma PadStands(data: Bytes, start: nat, all: Bytes, at: nat, b: Bytes)
    requires StandsAt(data, start, all) && StandsAt(all, at, Pad(b))
    ensures StandsAt(data, start + at, b)
  {
    StandsWithin(all, at, Pad(b), 0, b);
    StandsWithin(data, start, all, at, b);
  }

  lemma PlaceIsInside(data: Bytes, ts: seq<Table>, start: nat, i: nat)
    requires i < |ts| && StandsAt(data, start, Join(Bodies(ts)))
    ensures Place(ts, start, i) + |ts[i].stored| <= |data|
  {
    StoredStands(data, ts, start, i);
  }

  lemma TableFits(data: Bytes, e: Entry, ts: seq<Table>, start: nat, i: nat, compressed: bool, inflate: Decompressor)
    requires i < |ts| && start % 4 == 0 && StandsAt(data, start, Join(Bodies(ts))) && Describes(e, ts, start, i)
    requires TableOk(ts[i], inflate) && (!compressed ==> ts[i].stored == ts[i].original)
    ensures Fits(data, e, start, compressed, inflate)
    ensures Content(data, e, compressed, inflate) == Some(ts[i].original)
  {
    StoredStands(data, ts, start, i);
  }

  lemma DescribedFit(data: Bytes, es: seq<Entry>, ts: seq<Table>, start: nat, compressed: bool, inflate: Decompressor)
    requires start % 4 == 0 && StandsAt(data, start, Join(Bodies(ts))) && AllDescribed(es, ts, start)
    requires TablesOk(ts, inflate) && (!compressed ==> forall t <- ts :: t.stored == t.original)
    ensures TablesFit(data, es, start, compressed, inflate) && DistinctTags(es) && Pairwise(es, Apart)
  {
    forall e | e in es ensures Fits(data, e, start, compressed, inflate) {
      var i :| 0 <= i < |es| && es[i] == e;
      assert ts[i] in ts;
      TableFits(data, e, ts, start, i, compressed, inflate);
    }
    forall i, j | 0 <= i < j < |es| ensures Apart(es[i], es[j]) && es[i].tag != es[j].tag {
      StoredStands(data, ts, start, i);
      PartsAscend(Bodies(ts), i + 1, j);
      assert ts[i] in ts && ts[j] in ts;
      TagsDiffer(ts[i], ts[j]);
    }
  }

  lemma TagsDiffer(t: Table, u: Table)
    requires |t.tag| == |u.tag| && t.tag != u.tag
    ensures Name(t) != Name(u)
  {
    var k :| 0 <= k < |t.tag| && t.tag[k] != u.tag[k];
    assert Name(t)[k] != Name(u)[k];
  }

  lemma DescribedGiveBack(data: Bytes, es: seq<Entry>, ts: seq<Table>, start: nat, compressed: bool, inflate: Decompressor,
                          tables: map<string, Option<Bytes>>)
    requires start % 4 == 0 && StandsAt(data, start, Join(Bodies(ts))) && AllDescribed(es, ts, start)
    requires TablesOk(ts, inflate) && (!compressed ==> forall t <- ts :: t.stored == t.original)
    requires inflate([]) == None && TablesOf(data, es, compressed, inflate, tables)
    ensures GivesBack(ts, tables)
  {
    forall t | t in ts
      ensures Name(t) in tables && tables[Name(t)] == if MetadataTag(Name(t)) && t.original != [] then Some(t.original) else None
    {
      var i :| 0 <= i < |ts| && ts[i] == t;
      TableFits(data, es[i], ts, start, i, compressed, inflate);
      assert es[i] in es;
    }
    forall tag | tag in tables.Keys ensures tag in (set t <- ts :: Name(t)) {
      var e :| e in es && e.tag == tag;
      var i :| 0 <= i < |es| && es[i] == e;
      assert ts[i] in ts && Name(ts[i]) == tag;
    }
  }

  // Sizes add up to the length of the unpacked tables.
  lemma {:induction false} SizesAddUp(es: seq<Entry>, parts: seq<Bytes>)
    requires |es| == |parts| && forall i | 0 <= i < |es| :: |parts[i]| == RoundUp(es[i].original)
    ensures Unpacked(es) == |Join(parts)| && Originals(es) <= |Join(parts)|
  {
    if es != [] { SizesAddUp(es[..|es| - 1], parts[..|parts| - 1]); }
  }

  lemma {:induction false} DescribedAddUp(es: seq<Entry>, ts: seq<Table>, start: nat)
    requires AllDescribed(es, ts, start)
    ensures Unpacked(es) == |Join(Bodies(Plain(ts)))| && Originals(es) <= Unpacked(es)
    ensures forall i | 0 <= i < |es| :: es[i].original <= Unpacked(es)
  {
    var parts := Bodies(Plain(ts));
    forall i | 0 <= i < |es| ensures |parts[i]| == RoundUp(es[i].original) {
      assert Describes(es[i], ts, start, i);
    }
    SizesAddUp(es, parts);
    forall i | 0 <= i < |es| ensures es[i].original <= Unpacked(es) {
      PartStands(parts, i);
    }
  }

  lemma DescribedBounds(es: seq<Entry>, ts: seq<Table>, start: nat, total: nat)
    requires AllDescribed(es, ts, start) && 1 <= |ts| <= 256 && DistinctTags(es) && |Join(Bodies(Plain(ts)))| <= total
    ensures BoundsHold(es, total) <==> total <= MaxDecoded && SmallMetadata(ts)
  {
    DescribedAddUp(es, ts, start);
    if total <= MaxDecoded && SmallMetadata(ts) {
      forall e | e in es ensures WithinLimit(e) {
        var i :| 0 <= i < |es| && es[i] == e;
        assert Describes(es[i], ts, start, i) && ts[i] in ts;
      }
    }
    if BoundsHold(es, total) {
      forall t | t in ts && MetadataTag(Name(t)) ensures |t.original| <= MaxMetadata {
        var i :| 0 <= i < |ts| && ts[i] == t;
        assert Describes(es[i], ts, start, i) && es[i] in es && WithinLimit(es[i]);
      }
    }
  }

  // ---- SFNT ----

  function SfntRow(t: Table, offset: nat): Bytes { t.tag + (t.checksum + (Be32(offset) + Be32(|t.stored|))) }

  function SfntRows(ts: seq<Table>): seq<Bytes> {
    seq(|ts|, i requires 0 <= i < |ts| => SfntRow(ts[i], Place(ts, 12 + 16 * |ts|, i)))
  }

  // `version` is the first four bytes, `search` the six that speed up a search.
  function SfntFile(version: Bytes, search: Bytes, ts: seq<Table>): Bytes {
    version + (Be16(|ts|) + (search + (Join(SfntRows(ts)) + Join(Bodies(ts)))))
  }

  lemma RowsAreEven(rows: seq<Bytes>, length: nat)
    requires forall i | 0 <= i < |rows| :: |rows[i]| == length
    ensures |Join(rows)| == length * |rows|
    ensures forall i | 0 <= i < |rows| :: |Join(rows[..i])| == length * i
  {
    EvenParts(rows, length);
    forall i | 0 <= i < |rows| ensures |Join(rows[..i])| == length * i { EvenParts(rows[..i], length); }
  }

  lemma RowStandsAt(data: Bytes, start: nat, rows: seq<Bytes>, length: nat, i: nat)
    requires i < |rows| && StandsAt(data, start, Join(rows)) && forall k | 0 <= k < |rows| :: |rows[k]| == length
    ensures StandsAt(data, start + length * i, rows[i])
  {
    RowsAreEven(rows, length);
    PartStands(rows, i);
    StandsWithin(data, start, Join(rows), length * i, rows[i]);
  }

  lemma SfntParts(version: Bytes, search: Bytes, ts: seq<Table>)
    requires |version| == 4 && |search| == 6 && forall t <- ts :: |t.tag| == 4 && |t.checksum| == 4
    ensures var data, n := SfntFile(version, search, ts), |ts|;
            && |data| == 12 + 16 * n + |Join(Bodies(ts))|
            && StandsAt(data, 4, Be16(n)) && StandsAt(data, 12, Join(SfntRows(ts)))
            && StandsAt(data, 12 + 16 * n, Join(Bodies(ts)))
  {
    var data, rows := SfntFile(version, search, ts), Join(SfntRows(ts));
    RowsAreEven(SfntRows(ts), 16);
    assert data[0..|data|] == data;
    StandsSplit(data, 0, version, Be16(|ts|) + (search + (rows + Join(Bodies(ts)))));
    StandsSplit(data, 4, Be16(|ts|), search + (rows + Join(Bodies(ts))));
    StandsSplit(data, 6, search, rows + Join(Bodies(ts)));
    StandsSplit(data, 12, rows, Join(Bodies(ts)));
  }

  lemma SfntRowIsRead(data: Bytes, o: nat, t: Table, offset: nat)
    requires |t.tag| == 4 && |t.checksum| == 4 && offset < Limit && |t.stored| < Limit
    requires StandsAt(data, o, SfntRow(t, offset))
    ensures o + 16 <= |data| && data[o..o + 4] == t.tag && U32(data, o + 8) == offset && U32(data, o + 12) == |t.stored|
  {
    StandsSplit(data, o, t.tag, t.checksum + (Be32(offset) + Be32(|t.stored|)));
    StandsSplit(data, o + 4, t.checksum, Be32(offset) + Be32(|t.stored|));
    StandsSplit(data, o + 8, Be32(offset), Be32(|t.stored|));
    ReadsBe32(data, o + 8, offset);
    ReadsBe32(data, o + 12, |t.stored|);
  }

  lemma SfntEntryAt(data: Bytes, n: nat, i: nat)
    requires i < n && 12 + 16 * n <= |data|
    ensures var e, o := SfntEntries(data, n)[i], 12 + 16 * i;
            e == Entry(Text(data[o..o + 4]), U32(data, o + 8), U32(data, o + 12), U32(data, o + 12), false)
  { }

  lemma SfntRowsAreEven(ts: seq<Table>)
    requires forall t <- ts :: |t.tag| == 4 && |t.checksum| == 4
    ensures forall i | 0 <= i < |ts| :: |SfntRows(ts)[i]| == 16 && |ts[i].tag| == 4 && |ts[i].checksum| == 4
  {
    forall i | 0 <= i < |ts| ensures |SfntRows(ts)[i]| == 16 && |ts[i].tag| == 4 && |ts[i].checksum| == 4 { assert ts[i] in ts; }
  }

  lemma SfntRowReads(data: Bytes, rows: seq<Bytes>, i: nat, t: Table, offset: nat)
    requires i < |rows| && StandsAt(data, 12, Join(rows)) && forall k | 0 <= k < |rows| :: |rows[k]| == 16
    requires |t.tag| == 4 && |t.checksum| == 4 && offset < Limit && |t.stored| < Limit && rows[i] == SfntRow(t, offset)
    ensures var o := 12 + 16 * i;
            o + 16 <= |data| && data[o..o + 4] == t.tag && U32(data, o + 8) == offset && U32(data, o + 12) == |t.stored|
  {
    RowStandsAt(data, 12, rows, 16, i);
    SfntRowIsRead(data, 12 + 16 * i, t, offset);
  }

  lemma SfntRowDescribes(data: Bytes, ts: seq<Table>, i: nat)
    requires i < |ts| && 12 + 16 * |ts| <= |data| < Limit && forall t <- ts :: |t.tag| == 4 && |t.checksum| == 4
    requires StandsAt(data, 12, Join(SfntRows(ts))) && StandsAt(data, 12 + 16 * |ts|, Join(Bodies(ts)))
    requires ts[i].stored == ts[i].original
    ensures Describes(SfntEntries(data, |ts|)[i], ts, 12 + 16 * |ts|, i)
  {
    SfntRowsAreEven(ts);
    PlaceIsInside(data, ts, 12 + 16 * |ts|, i);
    SfntRowGives(data, SfntRows(ts), i, ts[i], Place(ts, 12 + 16 * |ts|, i));
  }

  lemma SfntRowGives(data: Bytes, rows: seq<Bytes>, i: nat, t: Table, offset: nat)
    requires i < |rows| && StandsAt(data, 12, Join(rows)) && forall k | 0 <= k < |rows| :: |rows[k]| == 16
    requires 12 + 16 * |rows| <= |data| && |t.tag| == 4 && |t.checksum| == 4 && offset < Limit && |t.stored| < Limit
    requires rows[i] == SfntRow(t, offset)
    ensures SfntEntries(data, |rows|)[i] == Entry(Name(t), offset, |t.stored|, |t.stored|, false)
  {
    SfntRowReads(data, rows, i, t, offset);
    SfntEntryAt(data, |rows|, i);
  }

  lemma SfntDescribed(version: Bytes, search: Bytes, ts: seq<Table>)
    requires |version| == 4 && |search| == 6 && |ts| <= 256 && forall t <- ts :: TableOk(t, NoStream) && t.stored == t.original
    requires |SfntFile(version, search, ts)| < Limit
    ensures var data, n := SfntFile(version, search, ts), |ts|;
            && 12 + 16 * n <= |data| && U16(data, 4) == n
            && AllDescribed(SfntEntries(data, n), ts, 12 + 16 * n)
  {
    var data, n := SfntFile(version, search, ts), |ts|;
    SfntParts(version, search, ts);
    ReadsBe16(data, 4, n);
    var es := SfntEntries(data, n);
    forall i | 0 <= i < n ensures Describes(es[i], ts, 12 + 16 * n, i) {
      SfntRowDescribes(data, ts, i);
    }
  }

  lemma SfntVerdict(version: Bytes, search: Bytes, ts: seq<Table>)
    requires |version| == 4 && |search| == 6 && TablesOk(ts, NoStream) && |SfntFile(version, search, ts)| < Limit
    ensures var data := SfntFile(version, search, ts);
            SfntAccepted(data) <==> |data| <= MaxDecoded && SmallMetadata(ts)
  {
    SfntParts(version, search, ts);
    NothingUnpacks(ts);
    SfntDescribed(version, search, ts);
    DescribedSfnt(SfntFile(version, search, ts), ts);
  }

  lemma DescribedSfnt(data: Bytes, ts: seq<Table>)
    requires TablesOk(ts, NoStream) && 12 + 16 * |ts| + |Join(Bodies(ts))| == |data| && U16(data, 4) == |ts|
    requires AllDescribed(SfntEntries(data, |ts|), ts, 12 + 16 * |ts|)
    requires StandsAt(data, 12 + 16 * |ts|, Join(Bodies(ts)))
    ensures SfntAccepted(data) <==> |data| <= MaxDecoded && SmallMetadata(ts)
  {
    NothingUnpacks(ts);
    DescribedFit(data, SfntEntries(data, |ts|), ts, 12 + 16 * |ts|, false, NoStream);
    DescribedBounds(SfntEntries(data, |ts|), ts, 12 + 16 * |ts|, |data|);
  }

  lemma NothingUnpacks(ts: seq<Table>)
    requires forall t <- ts :: TableOk(t, NoStream)
    ensures Plain(ts) == ts && forall t <- ts :: t.stored == t.original
  {
    forall i | 0 <= i < |ts| ensures Plain(ts)[i] == ts[i] { assert ts[i] in ts; }
  }

  lemma SfntGivesBack(version: Bytes, search: Bytes, ts: seq<Table>, tables: map<string, Option<Bytes>>)
    requires |version| == 4 && |search| == 6 && TablesOk(ts, NoStream) && |SfntFile(version, search, ts)| < Limit
    requires var data := SfntFile(version, search, ts);
             && |data| >= 12 && 12 + 16 * U16(data, 4) <= |data|
             && TablesOf(data, SfntEntries(data, U16(data, 4)), false, NoStream, tables)
    ensures GivesBack(ts, tables)
  {
    var data := SfntFile(version, search, ts);
    NothingUnpacks(ts);
    SfntParts(version, search, ts);
    SfntDescribed(version, search, ts);
    DescribedGiveBack(data, SfntEntries(data, |ts|), ts, 12 + 16 * |ts|, false, NoStream, tables);
  }

  // A written SFNT file within the limits, and no other, is accepted, and its tables come back.
  method ReadSfntBack(version: Bytes, search: Bytes, ts: seq<Table>, sort: Sorter)
    returns (r: Result<map<string, Option<Bytes>>, FontError>)
    requires |version| == 4 && |search| == 6 && TablesOk(ts, NoStream) && |SfntFile(version, search, ts)| < Limit && Sorts(sort)
    ensures r.Ok? <==> |SfntFile(version, search, ts)| <= MaxDecoded && SmallMetadata(ts)
    ensures r.Ok? ==> GivesBack(ts, r.value)
  {
    SfntVerdict(version, search, ts);
    var data := SfntFile(version, search, ts);
    r := Sfnt(data, sort);
    if r.Ok? { SfntGivesBack(version, search, ts, r.value); }
  }
}
