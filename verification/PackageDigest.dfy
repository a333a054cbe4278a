/**
The byte stream that pins a package, plugin-sdk/manifest/digest.go:15-56: one record for each
regular file in walk order. Bytes are characters below 256; hashing is not part of this model.
*/
module PackageDigest {
  import opened Wrappers
  import opened Numerals
  import opened Records

  const MaxFiles: nat := 128
  const MaxTotal: nat := 0x1000_0000

  // `size` is what the directory entry says, `content` what reading the file gives.
  datatype File = File(name: string, perm: nat, size: nat, content: string)

  datatype Entry =
    | Directory(name: string)
    | Regular(file: File)
    | Special(name: string)
    | Broken

  // The parts of a record, each behind the one before it.
  function Head(f: File): string { Decimal(|f.name|) + ":" }
  function Name(f: File): string { f.name + ":" }
  function Perm(f: File): string { Numeral(f.perm, 8) + ":" }
  function Size(f: File): string { Decimal(f.size) + ":" }

  function Record(f: File): string { Head(f) + (Name(f) + (Perm(f) + (Size(f) + f.content))) }

  // ---- what is accepted ----

  predicate FileOk(f: File) { |f.content| == f.size }

  predicate EntryOk(e: Entry) { e.Directory? || (e.Regular? && FileOk(e.file)) }

  function Files(entries: seq<Entry>): seq<File> {
    if entries == [] then []
    else
      var front, last := Files(entries[..|entries| - 1]), entries[|entries| - 1];
      if last.Regular? then front + [last.file] else front
  }

  function Total(files: seq<File>): nat {
    if files == [] then 0 else Total(files[..|files| - 1]) + files[|files| - 1].size
  }

  ghost predicate Accepted(entries: seq<Entry>) {
    && (forall e <- entries :: EntryOk(e))
    && |Files(entries)| <= MaxFiles && Total(Files(entries)) <= MaxTotal
  }

  function Stream(files: seq<File>): string {
    if files == [] then "" else Stream(files[..|files| - 1]) + Record(files[|files| - 1])
  }

  lemma OneMore(files: seq<File>, f: File)
    ensures Total(files + [f]) == Total(files) + f.size && Stream(files + [f]) == Stream(files) + Record(f)
  {
    assert (files + [f])[..|files|] == files;
  }

  lemma {:induction false} PrefixFits(entries: seq<Entry>, k: nat)
    requires k <= |entries|
    ensures |Files(entries[..k])| <= |Files(entries)| && Total(Files(entries[..k])) <= Total(Files(entries))
  {
    if k < |entries| {
      var front := entries[..|entries| - 1];
      assert front[..k] == entries[..k];
      PrefixFits(front, k);
      if entries[|entries| - 1].Regular? { OneMore(Files(front), entries[|entries| - 1].file); }
    } else {
      assert entries[..k] == entries;
    }
  }

  lemma Refused(entries: seq<Entry>, k: nat)
    requires k < |entries|
    requires !EntryOk(entries[k]) || |Files(entries[..k + 1])| > MaxFiles || Total(Files(entries[..k + 1])) > MaxTotal
    ensures !Accepted(entries)
  {
    PrefixFits(entries, k + 1);
    assert entries[k] in entries;
  }

  lemma Regroup(a: string, b: string, c: string, d: string, e: string)
    ensures a + ":" + b + ":" + c + ":" + d + ":" + e == (a + ":") + ((b + ":") + ((c + ":") + ((d + ":") + e)))
  { }

  // One more byte than announced is asked for, so that a file that grew shows.
  method CopyFile(h: string, f: File) returns (next: string, ok: bool)
    ensures ok <==> FileOk(f)
    ensures ok ==> next == h + Record(f)
  {
    var header := Decimal(|f.name|) + ":" + f.name + ":" + Numeral(f.perm, 8) + ":" + Decimal(f.size) + ":";
    var n := if |f.content| < f.size + 1 then |f.content| else f.size + 1;
    next := h + header + f.content[..n];
    ok := n == f.size;
    if ok {
      assert f.content[..n] == f.content;
      Regroup(Decimal(|f.name|), f.name, Numeral(f.perm, 8), Decimal(f.size), f.content);
      assert header + f.content == Record(f);
    }
  }

  // What has been written for the entries so far.
  predicate Written(entries: seq<Entry>, h: string, total: nat, count: nat) {
    && h == Stream(Files(entries)) && total == Total(Files(entries)) <= MaxTotal && count == |Files(entries)| <= MaxFiles
    && forall e <- entries :: EntryOk(e)
  }

  method NextFile(ghost before: seq<Entry>, e: Entry, h: string, total: nat, count: nat)
    returns (ok: bool, next: string, sum: nat, files: nat)
    requires Written(before, h, total, count) && !e.Directory?
    ensures ok ==> Written(before + [e], next, sum, files)
    ensures !ok ==> !EntryOk(e) || |Files(before + [e])| > MaxFiles || Total(Files(before + [e])) > MaxTotal
    ensures sum <= MaxTotal
  {
    assert (before + [e])[..|before|] == before;
    ok, next, sum, files := false, h, total, count + 1;
    if e.Regular? { OneMore(Files(before), e.file); }
    if !e.Regular? || files > MaxFiles || e.file.size > MaxTotal - total { return; }
    sum := total + e.file.size;
    next, ok := CopyFile(h, e.file);
  }

  // ---- by position ----

  function Regulars(entries: seq<Entry>): set<int> { set i | 0 <= i < |entries| && entries[i].Regular? }

  // What the entries announce; only regular files announce anything.
  function Announced(entries: seq<Entry>): nat {
    if entries == [] then 0
    else Announced(entries[1..]) + if entries[0].Regular? then entries[0].file.size else 0
  }

  // The places of all regular files, in walk order.
  ghost predicate Lists(entries: seq<Entry>, places: seq<int>) {
    && (forall k, l | 0 <= k < l < |places| :: places[k] < places[l])
    && (forall i :: i in places <==> 0 <= i < |entries| && entries[i].Regular?)
  }

  // Every regular file of one package is that of the other, the k-th the k-th, and there are no more.
  ghost predicate SameFiles(a: seq<Entry>, p: seq<int>, b: seq<Entry>, q: seq<int>)
    requires Lists(a, p) && Lists(b, q)
  {
    |p| == |q| && forall k | 0 <= k < |p| :: p[k] in p && q[k] in q && a[p[k]].file == b[q[k]].file
  }

  ghost predicate FilesAt(entries: seq<Entry>, places: seq<int>)
    requires Lists(entries, places)
  {
    && |Files(entries)| == |places|
    && forall k | 0 <= k < |places| :: places[k] in places && Files(entries)[k] == entries[places[k]].file
  }

  lemma {:induction false} CountRegulars(entries: seq<Entry>)
    ensures |Regulars(entries)| == |Files(entries)|
  {
    if entries != [] {
      var n := |entries| - 1;
      CountRegulars(entries[..n]);
      assert Regulars(entries) == Regulars(entries[..n]) + if entries[n].Regular? then {n} else {};
    }
  }

  lemma {:induction false} AnnouncedLast(entries: seq<Entry>, e: Entry)
    ensures Announced(entries + [e]) == Announced(entries) + if e.Regular? then e.file.size else 0
  {
    var all := entries + [e];
    if entries == [] {
      assert all[1..] == [];
    } else {
      assert all[1..] == entries[1..] + [e];
      AnnouncedLast(entries[1..], e);
    }
  }

  lemma {:induction false} AnnouncedIsTotal(entries: seq<Entry>)
    ensures Announced(entries) == Total(Files(entries))
  {
    if entries != [] {
      var front, e := entries[..|entries| - 1], entries[|entries| - 1];
      AnnouncedIsTotal(front);
      AnnouncedLast(front, e);
      assert entries == front + [e];
      if e.Regular? { OneMore(Files(front), e.file); }
    }
  }

  lemma ListsFront(entries: seq<Entry>, places: seq<int>)
    requires entries != [] && Lists(entries, places)
    ensures var n := |entries| - 1;
            if entries[n].Regular? then places != [] && places[|places| - 1] == n && Lists(entries[..n], places[..|places| - 1])
            else Lists(entries[..n], places)
  {
    var n := |entries| - 1;
    if entries[n].Regular? {
      var k :| 0 <= k < |places| && places[k] == n;
      assert places[|places| - 1] in places;
      var front := places[..|places| - 1];
      forall i ensures i in front <==> 0 <= i < n && entries[i].Regular? {
        if i in front {
          var l :| 0 <= l < |front| && front[l] == i;
          assert places[l] in places && places[l] < n;
        }
        if 0 <= i < n && entries[i].Regular? {
          assert i in places;
          var l :| 0 <= l < |places| && places[l] == i;
          assert front[l] == i;
        }
      }
    }
  }

  lemma {:induction false} ListedFiles(entries: seq<Entry>, places: seq<int>)
    requires Lists(entries, places)
    ensures FilesAt(entries, places)
    decreases |entries|
  {
    if entries == [] {
      assert forall k | 0 <= k < |places| :: places[k] in places;
    } else {
      var n := |entries| - 1;
      ListsFront(entries, places);
      ListedFiles(entries[..n], if entries[n].Regular? then places[..|places| - 1] else places);
      assert forall k | 0 <= k < |places| :: places[k] in places;
    }
  }

  // Every package has such a list.
  lemma {:induction false} ListRegulars(entries: seq<Entry>) returns (places: seq<int>)
    ensures Lists(entries, places)
  {
    if entries == [] {
      places := [];
    } else {
      var n := |entries| - 1;
      places := ListRegulars(entries[..n]);
      assert forall k | 0 <= k < |places| :: places[k] in places;
      if entries[n].Regular? { places := places + [n]; }
    }
  }

  // `total` is the running sum of sizes, within its limit whatever the package holds.
  method ContentStream(entries: seq<Entry>) returns (r: Option<string>, total: nat)
    ensures r.Some? <==> (forall e <- entries :: e.Directory? || (e.Regular? && |e.file.content| == e.file.size))
                         && |Regulars(entries)| <= 128 && Announced(entries) <= 256 * 1024 * 1024
    ensures r.Some? <==> Accepted(entries)
    ensures r.Some? ==> r.value == Stream(Files(entries)) && total == Announced(entries)
    ensures total <= MaxTotal
  {
    r, total := WalkFiles(entries);
    CountRegulars(entries);
    AnnouncedIsTotal(entries);
  }

  method WalkFiles(entries: seq<Entry>) returns (r: Option<string>, total: nat)
    ensures r.Some? <==> Accepted(entries)
    ensures r.Some? ==> r.value == Stream(Files(entries)) && total == Total(Files(entries))
    ensures total <= MaxTotal
  {
    var h := "";
    total := 0;
    var count := 0;
    for k := 0 to |entries|
      invariant Written(entries[..k], h, total, count)
    {
      var e := entries[k];
      assert entries[..k + 1] == entries[..k] + [e] && entries[..k + 1][..k] == entries[..k];
      if e.Directory? { continue; }
      var ok;
      ok, h, total, count := NextFile(entries[..k], e, h, total, count);
      if !ok {
        Refused(entries, k);
        return None, total;
      }
    }
    assert entries[..|entries|] == entries;
    return Some(h), total;
  }

  // ---- records can be told apart ----

  // A field of digits ends with the first colon.
  lemma FieldEnds(data: string, pos: nat, a: string)
    requires AllDigits(a, 10) && StandsAt(data, pos, a + ":")
    ensures data[pos..pos + |a|] == a && data[pos + |a|] == ':'
    ensures forall i :: pos <= i < pos + |a| ==> data[i] != ':'
  {
    var field := data[pos..pos + |a| + 1];
    assert field == a + ":" && field[|a|] == ':' && field[..|a|] == a;
    forall i | pos <= i < pos + |a| ensures data[i] != ':' {
      assert data[i] == field[i - pos] == a[i - pos];
      assert IsDigit(a[i - pos], 10);
    }
  }

  lemma FieldUnique(data: string, pos: nat, a: string, b: string)
    requires AllDigits(a, 10) && AllDigits(b, 10)
    requires StandsAt(data, pos, a + ":") && StandsAt(data, pos, b + ":")
    ensures a == b
  {
    FieldEnds(data, pos, a);
    FieldEnds(data, pos, b);
  }

  lemma NumeralUnique(data: string, pos: nat, m: nat, n: nat, base: nat)
    requires base == 8 || base == 10
    requires StandsAt(data, pos, Numeral(m, base) + ":") && StandsAt(data, pos, Numeral(n, base) + ":")
    ensures m == n
  {
    FieldUnique(data, pos, Numeral(m, base), Numeral(n, base));
    ValueOfNumeral(m, base);
    ValueOfNumeral(n, base);
  }

  lemma TextUnique(data: string, pos: nat, a: string, b: string)
    requires |a| == |b| && StandsAt(data, pos, a) && StandsAt(data, pos, b)
    ensures a == b
  { }

  lemma RecordParts(data: string, pos: nat, f: File)
    requires StandsAt(data, pos, Record(f))
    ensures StandsAt(data, pos, Head(f)) && StandsAt(data, pos + |Head(f)|, Name(f))
    ensures StandsAt(data, pos + |Head(f)| + |Name(f)|, Perm(f))
    ensures StandsAt(data, pos + |Head(f)| + |Name(f)| + |Perm(f)|, Size(f))
    ensures StandsAt(data, pos + |Head(f)| + |Name(f)| + |Perm(f)| + |Size(f)|, f.content)
  {
    FourSplit(data, pos, Head(f), Name(f), Perm(f), Size(f), f.content);
  }

  lemma FourSplit(data: string, pos: nat, a: string, b: string, c: string, d: string, e: string)
    requires StandsAt(data, pos, a + (b + (c + (d + e))))
    ensures StandsAt(data, pos, a) && StandsAt(data, pos + |a|, b) && StandsAt(data, pos + |a| + |b|, c)
    ensures StandsAt(data, pos + |a| + |b| + |c|, d) && StandsAt(data, pos + |a| + |b| + |c| + |d|, e)
  {
    StandsSplit(data, pos, a, b + (c + (d + e)));
    StandsSplit(data, pos + |a|, b, c + (d + e));
    StandsSplit(data, pos + |a| + |b|, c, d + e);
    StandsSplit(data, pos + |a| + |b| + |c|, d, e);
  }

  lemma NameUnique(data: string, pos: nat, f: File, g: File)
    requires StandsAt(data, pos, Name(f)) && StandsAt(data, pos, Name(g)) && |f.name| == |g.name|
    ensures f.name == g.name
  {
    assert Name(f) == Name(g);
    assert f.name == Name(f)[..|f.name|] && g.name == Name(g)[..|f.name|];
  }

  lemma NamesAgree(data: string, pos: nat, f: File, g: File)
    requires StandsAt(data, pos, Record(f)) && StandsAt(data, pos, Record(g))
    ensures f.name == g.name
  {
    RecordParts(data, pos, f);
    RecordParts(data, pos, g);
    NumeralUnique(data, pos, |f.name|, |g.name|, 10);
    NameUnique(data, pos + |Head(f)|, f, g);
  }

  lemma NumbersAgree(data: string, pos: nat, f: File, g: File)
    requires StandsAt(data, pos, Perm(f)) && StandsAt(data, pos, Perm(g))
    requires StandsAt(data, pos + |Perm(f)|, Size(f)) && StandsAt(data, pos + |Perm(g)|, Size(g))
    ensures f.perm == g.perm && f.size == g.size
  {
    NumeralUnique(data, pos, f.perm, g.perm, 8);
    NumeralUnique(data, pos + |Perm(f)|, f.size, g.size, 10);
  }

  // No record is the beginning of a different one.
  lemma RecordUnique(data: string, pos: nat, f: File, g: File)
    requires FileOk(f) && FileOk(g) && StandsAt(data, pos, Record(f)) && StandsAt(data, pos, Record(g))
    ensures f == g
  {
    NamesAgree(data, pos, f, g);
    RecordParts(data, pos, f);
    RecordParts(data, pos, g);
    NumbersAgree(data, pos + |Head(f)| + |Name(f)|, f, g);
    TextUnique(data, pos + |Head(f)| + |Name(f)| + |Perm(f)| + |Size(f)|, f.content, g.content);
  }

  lemma {:induction false} StreamIsCodes(files: seq<File>)
    ensures Stream(files) == Codes(Record, files)
  {
    if files != [] {
      var front, f := files[..|files| - 1], files[|files| - 1];
      StreamIsCodes(front);
      CodesAppend(Record, front, f);
      assert files == front + [f];
    }
  }

  lemma {:induction false} CodesDiffer(fs: seq<File>, gs: seq<File>)
    requires AllOk(FileOk, fs) && AllOk(FileOk, gs) && Codes(Record, fs) == Codes(Record, gs)
    ensures fs == gs
  {
    var data := Codes(Record, fs);
    assert fs != [] ==> |data| >= |Record(fs[0])| > 0;
    assert gs != [] ==> |data| >= |Record(gs[0])| > 0;
    if fs != [] {
      var f, g := fs[0], gs[0];
      assert data[0..|Record(f)|] == Record(f) && data[0..|Record(g)|] == Record(g);
      RecordUnique(data, 0, f, g);
      assert Codes(Record, fs[1..]) == data[|Record(f)|..] == Codes(Record, gs[1..]);
      CodesDiffer(fs[1..], gs[1..]);
      assert fs == [f] + fs[1..] && gs == [g] + gs[1..];
    }
  }

  // Different ordered lists of files never give the same stream.
  lemma StreamsDiffer(fs: seq<File>, gs: seq<File>)
    requires AllOk(FileOk, fs) && AllOk(FileOk, gs) && Stream(fs) == Stream(gs)
    ensures fs == gs
  {
    StreamIsCodes(fs);
    StreamIsCodes(gs);
    CodesDiffer(fs, gs);
  }

  lemma {:induction false} AcceptedFilesOk(entries: seq<Entry>)
    requires forall e <- entries :: EntryOk(e)
    ensures AllOk(FileOk, Files(entries))
  {
    if entries != [] {
      assert entries[|entries| - 1] in entries;
      AcceptedFilesOk(entries[..|entries| - 1]);
    }
  }

  lemma StreamsPin(a: seq<Entry>, p: seq<int>, b: seq<Entry>, q: seq<int>)
    requires Accepted(a) && Accepted(b) && Lists(a, p) && Lists(b, q)
    ensures Stream(Files(a)) == Stream(Files(b)) <==> SameFiles(a, p, b, q)
  {
    AcceptedFilesOk(a);
    AcceptedFilesOk(b);
    ListedFiles(a, p);
    ListedFiles(b, q);
    SameByPlace(a, p, b, q);
    if Stream(Files(a)) == Stream(Files(b)) { StreamsDiffer(Files(a), Files(b)); }
  }

  lemma SameByPlace(a: seq<Entry>, p: seq<int>, b: seq<Entry>, q: seq<int>)
    requires Lists(a, p) && Lists(b, q) && FilesAt(a, p) && FilesAt(b, q)
    ensures Files(a) == Files(b) <==> SameFiles(a, p, b, q)
  {
    var fs, gs := Files(a), Files(b);
    if fs == gs {
      forall k | 0 <= k < |p| ensures p[k] in p && q[k] in q && a[p[k]].file == b[q[k]].file {
        assert fs[k] == a[p[k]].file && gs[k] == b[q[k]].file;
      }
    }
    if SameFiles(a, p, b, q) {
      forall k | 0 <= k < |fs| ensures fs[k] == gs[k] {
        assert fs[k] == a[p[k]].file && gs[k] == b[q[k]].file;
      }
    }
  }

  // Two accepted packages have one stream if and only if their regular files, in walk order, are
  // as many and the same one by one, whatever directories lie between them.
  method PackageIsPinned(a: seq<Entry>, ghost p: seq<int>, b: seq<Entry>, ghost q: seq<int>)
    returns (one: Option<string>, other: Option<string>)
    requires Lists(a, p) && Lists(b, q)
    ensures one.Some? && other.Some? ==> (one == other <==> SameFiles(a, p, b, q))
  {
    var total;
    one, total := ContentStream(a);
    other, total := ContentStream(b);
    if one.Some? && other.Some? { StreamsPin(a, p, b, q); }
  }

  // An empty file leaves its record.
  lemma EmptyFileIsRecorded()
    ensures Stream([File("empty", 420, 0, "")]) == "5:empty:644:0:"
  {
    var f := File("empty", 420, 0, "");
    assert [f][..0] == [];
    EmptyRecord();
    assert "" + Record(f) == Record(f);
  }

  lemma EmptyRecord()
    ensures Record(File("empty", 420, 0, "")) == "5:empty:644:0:"
  {
    assert Decimal(5) == "5" && Decimal(0) == "0";
    Octal644();
  }

  lemma Octal644()
    ensures Numeral(420, 8) == "644"
  {
    assert Numeral(6, 8) == "6" && Numeral(52, 8) == "64";
  }
}
