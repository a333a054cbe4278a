/**
What the sort decides, internal/adapters/fontvalidate/font.go:89-98 and 190-203: two sorts by
offset can disagree about a file only over an empty table that starts where another one does.
*/
module FontOrder {
  import opened Wrappers
  import opened Base128
  import opened FontTables
  import opened FontLayout

  // ---- sorts that put equal offsets in a chosen order ----

  type Before = (Entry, Entry) -> bool

  predicate EmptiesFirst(a: Entry, b: Entry) { a.offset < b.offset || (a.offset == b.offset && a.size <= b.size) }

  predicate EmptiesLast(a: Entry, b: Entry) { a.offset < b.offset || (a.offset == b.offset && a.size >= b.size) }

  // A comparison that is total and transitive and looks at the offset first.
  ghost predicate ByOffset(before: Before) {
    && (forall a, b :: before(a, b) || before(b, a))
    && (forall a, b, c :: before(a, b) && before(b, c) ==> before(a, c))
    && (forall a, b :: before(a, b) ==> a.offset <= b.offset)
  }

  function Insert(before: Before, e: Entry, s: seq<Entry>): seq<Entry> {
    if s == [] || before(e, s[0]) then [e] + s else [s[0]] + Insert(before, e, s[1..])
  }

  function SortBy(before: Before, s: seq<Entry>): seq<Entry> {
    if s == [] then [] else Insert(before, s[0], SortBy(before, s[1..]))
  }

  function SortEmptiesFirst(s: seq<Entry>): seq<Entry> { SortBy(EmptiesFirst, s) }

  function SortEmptiesLast(s: seq<Entry>): seq<Entry> { SortBy(EmptiesLast, s) }

  lemma {:induction false} InsertPermutes(before: Before, e: Entry, s: seq<Entry>)
    ensures multiset(Insert(before, e, s)) == multiset(s) + multiset{e}
  {
    if s != [] {
      InsertPermutes(before, e, s[1..]);
      assert s == [s[0]] + s[1..];
    }
  }

  lemma {:induction false} InsertOrders(before: Before, e: Entry, s: seq<Entry>)
    requires ByOffset(before) && Pairwise(s, before)
    ensures Pairwise(Insert(before, e, s), before)
  {
    if s != [] && !before(e, s[0]) {
      var rest := Insert(before, e, s[1..]);
      InsertOrders(before, e, s[1..]);
      InsertPermutes(before, e, s[1..]);
      forall j | 0 <= j < |rest| ensures before(s[0], rest[j]) {
        assert rest[j] in multiset(s[1..]) + multiset{e};
        if rest[j] != e {
          var k :| 0 <= k < |s[1..]| && s[1..][k] == rest[j];
          assert s[k + 1] == rest[j];
        }
      }
    } else if s != [] {
      forall j | 0 <= j < |s| ensures before(e, s[j]) {
        assert before(e, s[0]) && (j == 0 || before(s[0], s[j]));
      }
    }
  }

  lemma {:induction false} SortPermutes(before: Before, s: seq<Entry>)
    ensures multiset(SortBy(before, s)) == multiset(s)
  {
    if s != [] {
      SortPermutes(before, s[1..]);
      InsertPermutes(before, s[0], SortBy(before, s[1..]));
      assert s == [s[0]] + s[1..];
    }
  }

  lemma {:induction false} SortOrders(before: Before, s: seq<Entry>)
    requires ByOffset(before)
    ensures Pairwise(SortBy(before, s), before) && Ascending(SortBy(before, s))
  {
    if s != [] {
      SortOrders(before, s[1..]);
      InsertOrders(before, s[0], SortBy(before, s[1..]));
    }
  }

  // Both sorts meet the demand.
  lemma BothSort()
    ensures Sorts(SortEmptiesFirst) && Sorts(SortEmptiesLast)
  {
    var first: Sorter, last: Sorter := SortEmptiesFirst, SortEmptiesLast;
    assert ByOffset(EmptiesFirst) && ByOffset(EmptiesLast);
    forall s ensures multiset(first(s)) == multiset(s) && Ascending(first(s)) {
      SortPermutes(EmptiesFirst, s);
      SortOrders(EmptiesFirst, s);
    }
    forall s ensures multiset(last(s)) == multiset(s) && Ascending(last(s)) {
      SortPermutes(EmptiesLast, s);
      SortOrders(EmptiesLast, s);
    }
  }

  // ---- when the chain depends on the sort ----

  // An empty range starts where a non-empty one does.
  ghost predicate Tied(ranges: seq<Entry>) {
    exists a, b :: a in ranges && b in ranges && a.offset == b.offset && a.size == 0 && b.size > 0
  }

  // Nothing but ties is in the way of a chain.
  ghost predicate Chainable(ranges: seq<Entry>, start: nat) {
    (forall e <- ranges :: start <= e.offset) && Pairwise(ranges, Apart)
  }

  lemma ChainableInAnyOrder(s: seq<Entry>, t: seq<Entry>, start: nat)
    requires multiset(s) == multiset(t) && Chainable(s, start)
    ensures Chainable(t, start)
  {
    SameMembers(s, t);
    assert Symmetric(Apart);
    AnyOrder(s, t, Apart);
  }

  lemma ChainIsChainable(ranges: seq<Entry>, start: nat, sort: Sorter)
    requires Sorts(sort) && Chain(sort(ranges), start)
    ensures Chainable(ranges, start)
  {
    ChainIffApart(sort(ranges), start);
    ChainableInAnyOrder(sort(ranges), ranges, start);
  }

  lemma UntiedChains(ranges: seq<Entry>, start: nat, sort: Sorter)
    requires Sorts(sort) && Chainable(ranges, start) && !Tied(ranges)
    ensures Chain(sort(ranges), start)
  {
    var s := sort(ranges);
    ChainableInAnyOrder(ranges, s, start);
    SameMembers(ranges, s);
    forall i, j | 0 <= i < j < |s| && s[i].offset == s[j].offset ensures s[i].size == 0 {
      assert Apart(s[i], s[j]) && s[i] in ranges && s[j] in ranges;
    }
    ChainIffApart(s, start);
  }

  lemma EmptiesFirstChain(ranges: seq<Entry>, start: nat)
    requires Chainable(ranges, start)
    ensures Chain(SortEmptiesFirst(ranges), start)
  {
    var s := SortEmptiesFirst(ranges);
    assert ByOffset(EmptiesFirst);
    SortPermutes(EmptiesFirst, ranges);
    SortOrders(EmptiesFirst, ranges);
    ChainableInAnyOrder(ranges, s, start);
    forall i, j | 0 <= i < j < |s| && s[i].offset == s[j].offset ensures s[i].size == 0 {
      assert Apart(s[i], s[j]) && EmptiesFirst(s[i], s[j]);
    }
    ChainIffApart(s, start);
  }

  lemma EmptiesLastBreakChain(ranges: seq<Entry>, start: nat)
    requires Tied(ranges)
    ensures !Chain(SortEmptiesLast(ranges), start)
  {
    var s := SortEmptiesLast(ranges);
    assert ByOffset(EmptiesLast);
    SortPermutes(EmptiesLast, ranges);
    SortOrders(EmptiesLast, ranges);
    SameMembers(ranges, s);
    var a, b :| a in ranges && b in ranges && a.offset == b.offset && a.size == 0 && b.size > 0;
    var i :| 0 <= i < |s| && s[i] == a;
    var j :| 0 <= j < |s| && s[j] == b;
    assert i < j ==> EmptiesLast(s[i], s[j]);
    ChainIffApart(s, start);
  }

  // Two sorts by offset disagree about some ranges if and only if an empty range starts where a
  // non-empty one does, and the ranges are otherwise apart and behind the directory.
  lemma SortsDisagreeIffTied(ranges: seq<Entry>, start: nat)
    ensures (exists one: Sorter, other: Sorter ::
               Sorts(one) && Sorts(other) && Chain(one(ranges), start) && !Chain(other(ranges), start))
            <==> Tied(ranges) && Chainable(ranges, start)
  {
    if one: Sorter, other: Sorter :|
      Sorts(one) && Sorts(other) && Chain(one(ranges), start) && !Chain(other(ranges), start)
    {
      ChainIsChainable(ranges, start, one);
      if !Tied(ranges) { UntiedChains(ranges, start, other); }
    }
    if Tied(ranges) && Chainable(ranges, start) {
      BothSort();
      EmptiesFirstChain(ranges, start);
      EmptiesLastBreakChain(ranges, start);
      var one: Sorter, other: Sorter := SortEmptiesFirst, SortEmptiesLast;
      assert Chain(one(ranges), start) && !Chain(other(ranges), start);
    }
  }

  ghost predicate SortsDisagree(data: Bytes, inflate: Decompressor) {
    exists t: Sorter, one: Sorter, u: Sorter, other: Sorter ::
      && Sorts(t) && Sorts(one) && Sorts(u) && Sorts(other)
      && WoffAccepted(data, inflate, t, one) && !WoffAccepted(data, inflate, u, other)
  }

  // The same for a whole WOFF file that is otherwise in order.
  lemma WoffVerdictIsTheSorts(data: Bytes, inflate: Decompressor)
    requires inflate([]) == None
    ensures SortsDisagree(data, inflate) <==>
              && WoffRest(data) && TablesFit(data, WoffTables(data), WoffStartOf(data), true, inflate)
              && Tied(WoffRanges(data)) && Chainable(WoffRanges(data), WoffStartOf(data))
  {
    if SortsDisagree(data, inflate) {
      var t: Sorter, one: Sorter, u: Sorter, other: Sorter :|
        && Sorts(t) && Sorts(one) && Sorts(u) && Sorts(other)
        && WoffAccepted(data, inflate, t, one) && !WoffAccepted(data, inflate, u, other);
      WoffSorted(data, inflate, t, one);
      WoffSorted(data, inflate, u, other);
      SortsDisagreeIffTied(WoffRanges(data), WoffStartOf(data));
    }
    if WoffRest(data) && TablesFit(data, WoffTables(data), WoffStartOf(data), true, inflate)
       && Tied(WoffRanges(data)) && Chainable(WoffRanges(data), WoffStartOf(data))
    {
      SortsDisagreeIffTied(WoffRanges(data), WoffStartOf(data));
      var one: Sorter, other: Sorter :|
        Sorts(one) && Sorts(other) && Chain(one(WoffRanges(data)), WoffStartOf(data))
        && !Chain(other(WoffRanges(data)), WoffStartOf(data));
      WoffSorted(data, inflate, one, one);
      WoffSorted(data, inflate, other, other);
    }
  }

  // ---- a file ----

  // The bytes that are not zero: two tables at offset 84, glyf of four bytes and prep of none.
  function TiedByte(i: nat): Byte {
    if i == 0 then 0x77 else if i == 1 then 0x4f else if i == 2 || i == 3 then 0x46
    else if i == 5 then 1 else if i == 11 then 88 else if i == 13 then 2 else if i == 19 then 48
    else if i == 44 then 0x67 else if i == 45 then 0x6c else if i == 46 then 0x79 else if i == 47 then 0x66
    else if i == 51 then 84 else if i == 55 then 4 else if i == 59 then 4
    else if i == 64 then 0x70 else if i == 65 then 0x72 else if i == 66 then 0x65 else if i == 67 then 0x70
    else if i == 71 then 84 else 0
  }

  function TiedFile(): (data: Bytes)
    ensures |data| == 88
  {
    seq(88, i requires 0 <= i < 88 => TiedByte(i))
  }

  lemma TiedHeader()
    ensures var data := TiedFile(); WoffHeader(data) && U16(data, 12) == 2 && U32(data, 16) == 48
  {
    assert U32(TiedFile(), 4) == 0x1_0000;
  }

  lemma TiedBlocks()
    ensures var data := TiedFile();
            Block(data, 24) == [] && Block(data, 36) == [] && BlockOk(data, 24) && BlockOk(data, 36)
  {
    assert forall i :: 20 <= i < 44 ==> TiedFile()[i] == 0;
  }

  lemma TiedEntries()
    ensures WoffEntry(TiedFile(), 44) == Glyf && WoffEntry(TiedFile(), 64) == Prep
  {
    assert TiedFile()[44..48] == [0x67, 0x6c, 0x79, 0x66];
    assert TiedFile()[64..68] == [0x70, 0x72, 0x65, 0x70];
  }

  lemma TiedTables()
    ensures WoffHeader(TiedFile())
    ensures WoffTables(TiedFile()) == [Glyf, Prep]
  {
    TiedHeader();
    TiedEntries();
  }

  lemma OneMoreEntry(es: seq<Entry>, e: Entry)
    ensures Originals(es + [e]) == Originals(es) + e.original && Unpacked(es + [e]) == Unpacked(es) + RoundUp(e.original)
  {
    assert (es + [e])[..|es|] == es;
  }

  const Glyf := Entry("glyf", 84, 4, 4, false)
  const Prep := Entry("prep", 84, 0, 0, false)

  lemma TwoTablesBound()
    ensures BoundsHold([Glyf, Prep], 48) && Unpacked([Glyf, Prep]) == 4
  {
    OneMoreEntry([], Glyf);
    OneMoreEntry([Glyf], Prep);
    assert [] + [Glyf] == [Glyf] && [Glyf] + [Prep] == [Glyf, Prep];
    assert Glyf.tag[0] != Prep.tag[0];
  }

  lemma TwoTablesFit(data: Bytes, inflate: Decompressor)
    requires |data| == 88
    ensures TablesFit(data, [Glyf, Prep], 84, true, inflate)
  {
    assert Fits(data, Glyf, 84, true, inflate);
  }

  lemma TiedFileFits(inflate: Decompressor)
    ensures WoffRest(TiedFile()) && WoffTables(TiedFile()) == [Glyf, Prep] && WoffStartOf(TiedFile()) == 84
    ensures TablesFit(TiedFile(), WoffTables(TiedFile()), WoffStartOf(TiedFile()), true, inflate)
  {
    TiedHeader();
    TiedBlocks();
    TiedTables();
    TwoTablesBound();
    TwoTablesFit(TiedFile(), inflate);
  }

  lemma TwoTablesTied()
    ensures Tied([Glyf, Prep]) && Chainable([Glyf, Prep], 84)
  {
    assert [Glyf, Prep][0] == Glyf && [Glyf, Prep][1] == Prep;
  }

  lemma TiedFileIsTied()
    ensures WoffRest(TiedFile()) && WoffRanges(TiedFile()) == [Glyf, Prep] && WoffStartOf(TiedFile()) == 84
    ensures Tied(WoffRanges(TiedFile())) && Chainable(WoffRanges(TiedFile()), WoffStartOf(TiedFile()))
  {
    TiedFileFits(NoStream);
    TiedBlocks();
    TwoTablesTied();
    assert WoffRanges(TiedFile()) == [Glyf, Prep] + [] + [];
  }

  // One file, two sorts by offset, two verdicts.
  lemma OneFileTwoVerdicts(inflate: Decompressor, tables: Sorter)
    requires inflate([]) == None && Sorts(tables)
    ensures Sorts(SortEmptiesFirst) && Sorts(SortEmptiesLast)
    ensures WoffAccepted(TiedFile(), inflate, tables, SortEmptiesFirst)
    ensures !WoffAccepted(TiedFile(), inflate, tables, SortEmptiesLast)
  {
    var data := TiedFile();
    TiedFileFits(inflate);
    TiedFileIsTied();
    BothSort();
    EmptiesFirstChain(WoffRanges(data), WoffStartOf(data));
    EmptiesLastBreakChain(WoffRanges(data), WoffStartOf(data));
    WoffSorted(data, inflate, tables, SortEmptiesFirst);
    WoffSorted(data, inflate, tables, SortEmptiesLast);
  }
}
