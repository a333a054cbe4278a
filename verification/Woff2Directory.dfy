/**
The directory of a WOFF2 file, internal/adapters/fontvalidate/font.go:206 and 241-283: rows of
variable length, each naming a table and its size in one decoded stream.
*/
module Woff2Directory {
  import opened Wrappers
  import opened Base128
  import opened Records
  import opened FontTables

  const Names: seq<string> := [
    "cmap", "head", "hhea", "hmtx", "maxp", "name", "OS/2", "post", "cvt ", "fpgm", "glyf", "loca", "prep", "CFF ",
    "VORG", "EBDT", "EBLC", "gasp", "hdmx", "kern", "LTSH", "PCLT", "VDMX", "vhea", "vmtx", "BASE", "GDEF", "GPOS",
    "GSUB", "EBSC", "JSTF", "MATH", "CBDT", "CBLC", "COLR", "CPAL", "SVG ", "sbix", "acnt", "avar", "bdat", "bloc",
    "bsln", "cvar", "fdsc", "feat", "fmtx", "fvar", "gvar", "hsty", "just", "lcar", "mort", "morx", "opbd", "prop",
    "trak", "Zapf", "Silf", "Glat", "Gloc", "Feat", "Sill"]

  type Half = w: int | 0 <= w < Limit

  // One directory row: `named` holds the four bytes of a tag outside the table of names.
  datatype Row = Row(flags: Byte, named: Bytes, length: Half, size: Half)

  function NameOf(flags: Byte, named: Bytes): string {
    if flags % 64 == 63 then Text(named) else Names[flags % 64]
  }

  predicate Outline(tag: string) { tag == "glyf" || tag == "loca" }

  // What the version bits mean for a tag: only a transformed table has a size of its own,
  // which must be zero for loca and must not be zero otherwise.
  datatype Kind = Unknown | Plain | Transformed(emptied: bool)

  function KindOf(version: nat, tag: string): Kind {
    if (Outline(tag) && version == 0) || (tag == "hmtx" && version == 1) then Transformed(tag == "loca")
    else if version == 0 || (Outline(tag) && version == 3) then Plain else Unknown
  }

  predicate SizesOk(kind: Kind, length: Half, size: Half) {
    match kind
    case Unknown => false
    case Plain => size == length
    case Transformed(emptied) => emptied <==> size == 0
  }

  // The bytes of a row after its tag.
  function Sizes(encode: Half -> Bytes, kind: Kind, length: Half, size: Half): Bytes {
    encode(length) + if kind.Transformed? then encode(size) else []
  }

  function Digits(v: Half): Bytes { Encode(v) }

  function RowKind(row: Row): Kind { KindOf(row.flags / 64, NameOf(row.flags, row.named)) }

  predicate RowOk(row: Row) {
    && |row.named| == (if row.flags % 64 == 63 then 4 else 0)
    && SizesOk(RowKind(row), row.length, row.size)
  }

  // W3C WOFF 2.0 by table: glyf and loca are transformed by default and plain in version 3, hmtx is
  // plain by default and transformed in version 1, every other table is plain. A transformed loca
  // takes nothing in the stream, any other transformed table something.
  lemma SizesByTable(row: Row)
    requires |row.named| == (if row.flags % 64 == 63 then 4 else 0)
    ensures var tag, version := NameOf(row.flags, row.named), row.flags / 64;
            RowOk(row) <==>
              if tag == "loca" then (version == 0 && row.size == 0) || (version == 3 && row.size == row.length)
              else if tag == "glyf" then (version == 0 && row.size > 0) || (version == 3 && row.size == row.length)
              else if tag == "hmtx" then (version == 0 && row.size == row.length) || (version == 1 && row.size > 0)
              else version == 0 && row.size == row.length
  { }

  // The bytes of a row.
  function CodeWith(encode: Half -> Bytes, row: Row): Bytes {
    [row.flags] + row.named + Sizes(encode, RowKind(row), row.length, row.size)
  }

  function Code(row: Row): Bytes { CodeWith(Digits, row) }

  // ---- one row ----

  function ParseNamed(data: Bytes, pos: nat, flags: Byte): Option<(Bytes, nat)> {
    if flags % 64 != 63 then Some(([], pos))
    else if pos + 4 <= |data| then Some((data[pos..pos + 4], pos + 4)) else None
  }

  lemma NumberFits(data: Bytes, pos: nat)
    requires ReadFrom(data, pos, 0, 0).Some?
    ensures pos < |data| && ReadFrom(data, pos, 0, 0).value.0 < Limit
  {
    AcceptedIsEncoded(data, pos, pos, 0, 0);
  }

  function Number(data: Bytes, pos: nat): (r: Option<(Half, nat)>)
    ensures r == ReadFrom(data, pos, 0, 0)
  {
    var r := ReadFrom(data, pos, 0, 0);
    if r.Some? then NumberFits(data, pos); Some((r.value.0, r.value.1)) else None
  }

  // The numbers of a row: the length of the table, and its size in the stream.
  function ParseSizes(number: Parser<Byte, Half>, data: Bytes, pos: nat, kind: Kind): Option<(Half, Half, nat)> {
    var length := number(data, pos);
    if length == None || kind == Unknown then None
    else if kind == Plain then Some((length.value.0, length.value.0, length.value.1))
    else
      var size := number(data, length.value.1);
      if size.Some? && (kind.emptied <==> size.value.0 == 0) then Some((length.value.0, size.value.0, size.value.1)) else None
  }

  function ParseRowWith(number: Parser<Byte, Half>, data: Bytes, pos: nat): Option<(Row, nat)> {
    if pos >= |data| then None else
    var named := ParseNamed(data, pos + 1, data[pos]);
    if named == None then None else
    var sizes := ParseSizes(number, data, named.value.1, KindOf(data[pos] / 64, NameOf(data[pos], named.value.0)));
    if sizes == None then None else
    Some((Row(data[pos], named.value.0, sizes.value.0, sizes.value.1), sizes.value.2))
  }

  function ParseRow(data: Bytes, pos: nat): Option<(Row, nat)> { ParseRowWith(Number, data, pos) }

  method ReadNumber(data: Bytes, start: nat) returns (r: Option<Half>, pos: nat)
    ensures r.Some? <==> Number(data, start).Some?
    ensures r.Some? ==> Number(data, start) == Some((r.value, pos))
  {
    var v;
    v, pos := Read(data, start);
    if v == None { return None, pos; }
    NumberFits(data, start);
    return Some(v.value), pos;
  }

  method ReadSizes(data: Bytes, start: nat, version: nat, tag: string) returns (r: Option<(Half, Half)>, pos: nat)
    ensures r.Some? <==> ParseSizes(Number, data, start, KindOf(version, tag)).Some?
    ensures r.Some? ==> ParseSizes(Number, data, start, KindOf(version, tag)) == Some((r.value.0, r.value.1, pos))
  {
    var length;
    length, pos := ReadNumber(data, start);
    if length == None { return None, pos; }
    var transformed := (Outline(tag) && version == 0) || (tag == "hmtx" && version == 1);
    if !transformed && version != 0 && !(Outline(tag) && version == 3) { return None, pos; }
    var size := length;
    if transformed {
      size, pos := ReadNumber(data, pos);
      if size == None || (tag == "loca" && size.value != 0) || (tag != "loca" && size.value == 0) { return None, pos; }
    }
    return Some((length.value, size.value)), pos;
  }

  method ReadRow(data: Bytes, start: nat) returns (r: Option<Row>, pos: nat)
    requires |data| < 0x1_0000_0000_0000_0000 && start <= |data|
    ensures r.Some? <==> ParseRow(data, start).Some?
    ensures r.Some? ==> ParseRow(data, start) == Some((r.value, pos))
  {
    pos := start;
    if pos >= |data| { return None, pos; }
    var flags := data[pos];
    pos := pos + 1;
    var index, version := flags % 64, flags / 64;
    var tag, named := "", [];
    if index == 63 {
      var b := Region(data, pos, 4);
      if b.Err? { return None, pos; }
      tag, named := Text(b.value), b.value;
      pos := pos + 4;
    } else {
      tag := Names[index];
    }
    var sizes;
    sizes, pos := ReadSizes(data, pos, version, tag);
    if sizes == None { return None, pos; }
    return Some(Row(flags, named, sizes.value.0, sizes.value.1)), pos;
  }

  predicate Any(v: Half) { true }

  lemma ReadsNumbers()
    ensures Reads(Number, Digits, Any)
  {
    forall data: Bytes, pos: nat ensures ReadsAt(Number, Digits, Any, data, pos) {
      if pos <= |data| {
        var r := Number(data, pos);
        if r.Some? { ReadsExactlyEncodings(data, pos, r.value.0, r.value.1); }
        forall v: Half | StandsAt(data, pos, Digits(v)) ensures r == Some((v, pos + |Digits(v)|)) {
          ReadsExactlyEncodings(data, pos, v, pos + |Digits(v)|);
        }
      }
    }
  }

  lemma ReadSizesStand(number: Parser<Byte, Half>, encode: Half -> Bytes, data: Bytes, pos: nat, kind: Kind)
    requires Reads(number, encode, Any) && ParseSizes(number, data, pos, kind).Some?
    ensures var (length, size, next) := ParseSizes(number, data, pos, kind).value;
            var code := Sizes(encode, kind, length, size);
            SizesOk(kind, length, size) && StandsAt(data, pos, code) && next == pos + |code|
  {
    assert ReadsAt(number, encode, Any, data, pos);
    var (length, after) := number(data, pos).value;
    if kind.Transformed? {
      assert ReadsAt(number, encode, Any, data, after);
      StandsSplit(data, pos, encode(length), encode(number(data, after).value.0));
    } else {
      assert Sizes(encode, kind, length, length) == encode(length);
    }
  }

  lemma StandingSizesAreRead(number: Parser<Byte, Half>, encode: Half -> Bytes, data: Bytes, pos: nat, kind: Kind,
                             length: Half, size: Half)
    requires Reads(number, encode, Any) && SizesOk(kind, length, size)
    requires StandsAt(data, pos, Sizes(encode, kind, length, size))
    ensures ParseSizes(number, data, pos, kind) == Some((length, size, pos + |Sizes(encode, kind, length, size)|))
  {
    assert ReadsAt(number, encode, Any, data, pos) && Any(length) && Any(size);
    if kind.Transformed? {
      StandsSplit(data, pos, encode(length), encode(size));
      assert ReadsAt(number, encode, Any, data, pos + |encode(length)|);
    } else {
      assert Sizes(encode, kind, length, size) == encode(length);
    }
  }

  lemma SizesStand(number: Parser<Byte, Half>, encode: Half -> Bytes, data: Bytes, pos: nat, kind: Kind,
                   length: Half, size: Half, next: nat)
    requires Reads(number, encode, Any)
    ensures var code := Sizes(encode, kind, length, size);
            ParseSizes(number, data, pos, kind) == Some((length, size, next)) <==>
              SizesOk(kind, length, size) && StandsAt(data, pos, code) && next == pos + |code|
  {
    if ParseSizes(number, data, pos, kind).Some? { ReadSizesStand(number, encode, data, pos, kind); }
    if SizesOk(kind, length, size) && StandsAt(data, pos, Sizes(encode, kind, length, size)) {
      StandingSizesAreRead(number, encode, data, pos, kind, length, size);
    }
  }

  lemma NamedStands(data: Bytes, pos: nat, flags: Byte, named: Bytes, next: nat)
    ensures ParseNamed(data, pos, flags) == Some((named, next)) && pos <= |data| <==>
              |named| == (if flags % 64 == 63 then 4 else 0) && StandsAt(data, pos, named) && next == pos + |named|
  {
  }

  lemma RowStandsWith(number: Parser<Byte, Half>, encode: Half -> Bytes, data: Bytes, pos: nat, row: Row, next: nat)
    requires Reads(number, encode, Any)
    ensures ParseRowWith(number, data, pos) == Some((row, next)) <==>
              RowOk(row) && StandsAt(data, pos, CodeWith(encode, row)) && next == pos + |CodeWith(encode, row)|
  {
    var sizes := Sizes(encode, RowKind(row), row.length, row.size);
    var at := pos + 1 + |row.named|;
    assert CodeWith(encode, row) == [row.flags] + (row.named + sizes);
    StandsSplit(data, pos, [row.flags], row.named + sizes);
    StandsSplit(data, pos + 1, row.named, sizes);
    NamedStands(data, pos + 1, row.flags, row.named, at);
    SizesStand(number, encode, data, at, RowKind(row), row.length, row.size, next);
    if pos < |data| { assert data[pos..pos + 1] == [data[pos]]; }
  }

  // A row is read exactly where its bytes stand.
  lemma RowStands(data: Bytes, pos: nat, row: Row, next: nat)
    ensures ParseRow(data, pos) == Some((row, next)) <==>
              RowOk(row) && StandsAt(data, pos, Code(row)) && next == pos + |Code(row)|
  {
    ReadsNumbers();
    RowStandsWith(Number, Digits, data, pos, row, next);
  }

  lemma StandingRowIsRead(data: Bytes, pos: nat, row: Row)
    ensures RowOk(row) && StandsAt(data, pos, Code(row)) ==> ParseRow(data, pos) == Some((row, pos + |Code(row)|))
  {
    RowStands(data, pos, row, pos + |Code(row)|);
  }

  lemma RowReadsAt(data: Bytes, pos: nat)
    ensures ReadsAt(ParseRow, Code, RowOk, data, pos)
  {
    if ParseRow(data, pos).Some? { RowStands(data, pos, ParseRow(data, pos).value.0, ParseRow(data, pos).value.1); }
    forall row { StandingRowIsRead(data, pos, row); }
  }

  lemma ReadsRows()
    ensures Reads(ParseRow, Code, RowOk)
  {
    forall data: Bytes, pos: nat ensures ReadsAt(ParseRow, Code, RowOk, data, pos) { RowReadsAt(data, pos); }
  }

  function ParseRows(data: Bytes, pos: nat, n: nat): Option<(seq<Row>, nat)> { ParseMany(ParseRow, data, pos, n) }

  // A directory of n rows is read exactly where their bytes stand, so it has only one reading.
  lemma RowsStand(data: Bytes, pos: nat, rows: seq<Row>, next: nat)
    requires pos <= |data|
    ensures ParseRows(data, pos, |rows|) == Some((rows, next)) <==>
              AllOk(RowOk, rows) && StandsAt(data, pos, Codes(Code, rows)) && next == pos + |Codes(Code, rows)|
  {
    ReadsRows();
    RecordsStand(ParseRow, Code, RowOk, data, pos, rows, next);
  }

  // ---- where the tables lie in the stream ----

  function StreamSize(rows: seq<Row>): nat {
    if rows == [] then 0 else StreamSize(rows[..|rows| - 1]) + rows[|rows| - 1].size
  }

  function FontSize(rows: seq<Row>): nat {
    if rows == [] then 0 else FontSize(rows[..|rows| - 1]) + RoundUp(rows[|rows| - 1].length)
  }

  predicate Bounded(rows: seq<Row>) { StreamSize(rows) <= MaxDecoded && FontSize(rows) <= MaxDecoded }

  function TableOf(row: Row, offset: Word): Entry {
    Entry(NameOf(row.flags, row.named), offset, row.size, row.length, RowKind(row).Transformed?)
  }

  function Tables(rows: seq<Row>): (es: seq<Entry>)
    requires StreamSize(rows) <= MaxDecoded
    ensures |es| == |rows|
  {
    if rows == [] then []
    else
      var front := rows[..|rows| - 1];
      Tables(front) + [TableOf(rows[|rows| - 1], StreamSize(front))]
  }

  lemma {:induction false} PrefixBounded(rows: seq<Row>, k: nat)
    requires k <= |rows| && Bounded(rows)
    ensures Bounded(rows[..k])
  {
    if k < |rows| {
      assert rows[..|rows| - 1][..k] == rows[..k];
      PrefixBounded(rows[..|rows| - 1], k);
    } else {
      assert rows[..k] == rows;
    }
  }

  // The slices of the stream that the tables name, one after the other.
  function Slices(decoded: Bytes, es: seq<Entry>): Bytes {
    if es == [] then []
    else
      var e := es[|es| - 1];
      Slices(decoded, es[..|es| - 1]) + if e.offset + e.size <= |decoded| then decoded[e.offset..e.offset + e.size] else []
  }

  lemma {:induction false} TablesFollowEachOther(rows: seq<Row>)
    requires StreamSize(rows) <= MaxDecoded
    ensures forall e <- Tables(rows) :: e.offset + e.size <= StreamSize(rows)
    ensures Pairwise(Tables(rows), Disjoint)
  {
    if rows != [] {
      var front, es := rows[..|rows| - 1], Tables(rows);
      TablesFollowEachOther(front);
      forall i, j | 0 <= i < j < |es| ensures Disjoint(es[i], es[j]) {
        assert es[i] == Tables(front)[i] && es[i] in Tables(front);
      }
    }
  }

  // In directory order the slices give back the stream, so there is no gap and no overlap.
  lemma {:induction false} TablesPartitionStream(decoded: Bytes, rows: seq<Row>)
    requires StreamSize(rows) <= MaxDecoded && StreamSize(rows) <= |decoded|
    ensures Slices(decoded, Tables(rows)) == decoded[..StreamSize(rows)]
  {
    if rows != [] {
      var front, es := rows[..|rows| - 1], Tables(rows);
      TablesPartitionStream(decoded, front);
      assert es[..|es| - 1] == Tables(front);
    }
  }

  // ---- the loop over the directory ----

  datatype Directory = Directory(rows: seq<Row>, es: seq<Entry>, pos: nat, total: Word, original: Word)

  ghost predicate DirectoryAt(data: Bytes, start: nat, n: nat, d: Directory) {
    && ParseRows(data, start, n) == Some((d.rows, d.pos)) && Bounded(d.rows)
    && d.es == Tables(d.rows) && d.total == StreamSize(d.rows) && d.original == FontSize(d.rows)
  }

  function Before(rows: seq<Row>, rest: Option<(seq<Row>, nat)>): Option<(seq<Row>, nat)> {
    if rest == None then None else Some((rows + rest.value.0, rest.value.1))
  }

  lemma TooLarge(rows: seq<Row>, more: seq<Row>)
    requires !Bounded(rows)
    ensures !Bounded(rows + more)
  {
    assert (rows + more)[..|rows|] == rows;
    if Bounded(rows + more) { PrefixBounded(rows + more, |rows|); }
  }

  // `i` of `n` rows have been read.
  ghost predicate Reading(data: Bytes, start: nat, n: nat, i: nat, d: Directory) {
    && i <= n && start <= d.pos <= |data| && Bounded(d.rows)
    && d.es == Tables(d.rows) && d.total == StreamSize(d.rows) && d.original == FontSize(d.rows)
    && ParseRows(data, start, n) == Before(d.rows, ParseRows(data, d.pos, n - i))
  }

  lemma RowRead(data: Bytes, start: nat, n: nat, i: nat, d: Directory, row: Row, pos: nat)
    requires i < n && Reading(data, start, n, i, d) && ParseRow(data, d.pos) == Some((row, pos))
    ensures d.pos <= pos <= |data|
    ensures ParseRows(data, start, n) == Before(d.rows + [row], ParseRows(data, pos, n - i - 1))
  {
    RowStands(data, d.pos, row, pos);
    var rest := ParseRows(data, pos, n - i - 1);
    assert rest.Some? ==> d.rows + [row] + rest.value.0 == d.rows + ([row] + rest.value.0);
  }

  lemma SumsAreExact(rows: seq<Row>, row: Row)
    requires Bounded(rows)
    ensures Add64(StreamSize(rows), row.size) == StreamSize(rows + [row])
    ensures Add64(FontSize(rows), RoundUp64(row.length)) == FontSize(rows + [row])
    ensures Bounded(rows + [row]) ==> Tables(rows + [row]) == Tables(rows) + [TableOf(row, StreamSize(rows))]
  {
    assert (rows + [row])[..|rows|] == rows;
  }

  method NextRow(data: Bytes, ghost start: nat, ghost n: nat, ghost i: nat, d: Directory)
    returns (r: Result<Directory, FontError>)
    requires |data| < 0x1_0000_0000_0000_0000 && i < n && Reading(data, start, n, i, d)
    ensures r.Ok? ==> Reading(data, start, n, i + 1, r.value)
    ensures r.Err? ==> r.error != Unsupported
    ensures r.Err? && ParseRows(data, start, n).Some? ==> !Bounded(ParseRows(data, start, n).value.0)
  {
    var row, pos := ReadRow(data, d.pos);
    if row == None { return Err(Bad); }
    RowRead(data, start, n, i, d, row.value, pos);
    SumsAreExact(d.rows, row.value);
    var rows := d.rows + [row.value];
    var total, original := Add64(d.total, row.value.size), Add64(d.original, RoundUp64(row.value.length));
    if total > MaxDecoded || original > MaxDecoded {
      if ParseRows(data, pos, n - i - 1).Some? { TooLarge(rows, ParseRows(data, pos, n - i - 1).value.0); }
      return Err(Large);
    }
    return Ok(Directory(rows, d.es + [TableOf(row.value, d.total)], pos, total, original));
  }

  // Running totals stop the reading early; what is accepted depends on the whole sums alone.
  method ReadDirectory(data: Bytes, start: nat, n: nat) returns (r: Result<Directory, FontError>)
    requires |data| < 0x1_0000_0000_0000_0000 && start <= |data|
    ensures r.Ok? <==> ParseRows(data, start, n).Some? && Bounded(ParseRows(data, start, n).value.0)
    ensures r.Ok? ==> DirectoryAt(data, start, n, r.value) && start <= r.value.pos <= |data|
    ensures r != Err(Unsupported)
  {
    var d := Directory([], [], start, 0, 0);
    assert Before([], ParseRows(data, start, n)) == ParseRows(data, start, n) by {
      if ParseRows(data, start, n).Some? { assert [] + ParseRows(data, start, n).value.0 == ParseRows(data, start, n).value.0; }
    }
    for i := 0 to n
      invariant Reading(data, start, n, i, d)
    {
      var next := NextRow(data, start, n, i, d);
      if next.Err? { return Err(next.error); }
      d := next.value;
    }
    assert d.rows + [] == d.rows;
    return Ok(d);
  }
}
