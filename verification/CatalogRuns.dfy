/**
Whole runs of the catalog, internal/adapters/sqlite/catalog.go:120-253: snapshots of any sources
delivered in any order and any number of times, with pins set and cleared in between.
*/
module CatalogRuns {
  import opened Wrappers
  import opened Catalog

  datatype Op =
    | Delivery(snapshot: Snapshot)
    | Pin(ids: seq<Id>, pinned: bool, now: int)

  ghost function Step(c: Catalog, op: Op): Catalog {
    match op
    case Delivery(snapshot) => Deliver(c, snapshot)
    case Pin(ids, pinned, now) => SetPin(c, ids, pinned, now)
  }

  ghost function Run(c: Catalog, ops: seq<Op>): Catalog {
    if ops == [] then c else Step(Run(c, ops[..|ops| - 1]), ops[|ops| - 1])
  }

  const Nothing := Catalog(map[], map[])

  // ---- what is delivered ----

  ghost predicate IsDelivery(op: Op, source: Source) {
    op.Delivery? && Valid(op.snapshot) && op.snapshot.source == source
  }

  ghost function Deliveries(ops: seq<Op>, source: Source): set<Snapshot> {
    set op <- ops | IsDelivery(op, source) :: op.snapshot
  }

  ghost predicate DistinctTimes(snapshots: set<Snapshot>) {
    forall s <- snapshots, t <- snapshots :: s.observed == t.observed ==> s == t
  }

  ghost predicate IsLatest(snapshots: set<Snapshot>, s: Snapshot) {
    s in snapshots && forall t <- snapshots :: t.observed <= s.observed
  }

  // The rows of a source not marked missing.
  ghost function Present(c: Catalog, source: Source): set<Id> {
    set id <- c.rows | id.source == source && !c.rows[id].missing
  }

  // ---- which snapshot the rows of a source show ----

  ghost predicate Shows(c: Catalog, source: Source, snapshots: set<Snapshot>) {
    if source in c.marks then
      exists s :: IsLatest(snapshots, s) && s.observed == c.marks[source] && Present(c, source) == Ids(s.candidates)
    else snapshots == {} && forall id <- c.rows :: id.source != source
  }

  lemma DeliveryShows(c: Catalog, s: Snapshot)
    requires Valid(s) && Newer(c, s)
    ensures Present(Deliver(c, s), s.source) == Ids(s.candidates)
  {
    var after := Deliver(c, s);
    forall id ensures id in Present(after, s.source) <==> id in Ids(s.candidates) {
      if id in Ids(s.candidates) { assert Find(s.candidates, id).Some?; }
    }
  }

  lemma OtherDeliveryKeeps(c: Catalog, s: Snapshot, source: Source)
    requires Valid(s) ==> s.source != source
    ensures Present(Deliver(c, s), source) == Present(c, source)
    ensures source in Deliver(c, s).marks <==> source in c.marks
    ensures source in c.marks ==> Deliver(c, s).marks[source] == c.marks[source]
    ensures (forall id <- c.rows :: id.source != source) ==> (forall id <- Deliver(c, s).rows :: id.source != source)
  {
    if Valid(s) {
      forall id | id in Ids(s.candidates) ensures id.source != source { }
    }
  }

  lemma PinKeeps(c: Catalog, ids: seq<Id>, pinned: bool, now: int, source: Source)
    ensures Present(SetPin(c, ids, pinned, now), source) == Present(c, source)
    ensures SetPin(c, ids, pinned, now).rows.Keys == c.rows.Keys && SetPin(c, ids, pinned, now).marks == c.marks
  { }

  lemma OneMore(ops: seq<Op>, op: Op, source: Source)
    ensures Deliveries(ops + [op], source) ==
              Deliveries(ops, source) + if IsDelivery(op, source) then {op.snapshot} else {}
  { }

  lemma StepShows(c: Catalog, op: Op, source: Source, snapshots: set<Snapshot>)
    requires Shows(c, source, snapshots)
    ensures Shows(Step(c, op), source, snapshots + if IsDelivery(op, source) then {op.snapshot} else {})
  {
    if IsDelivery(op, source) {
      var s := op.snapshot;
      var more := snapshots + {s};
      if Newer(c, s) {
        DeliveryShows(c, s);
        assert IsLatest(more, s);
      } else {
        var t :| IsLatest(snapshots, t) && t.observed == c.marks[source] && Present(c, source) == Ids(t.candidates);
        assert IsLatest(more, t);
      }
    } else {
      match op
      case Delivery(s) => OtherDeliveryKeeps(c, s, source);
      case Pin(ids, pinned, now) => PinKeeps(c, ids, pinned, now, source);
      assert snapshots + {} == snapshots;
    }
  }

  lemma {:induction false} RunShows(ops: seq<Op>, source: Source)
    ensures Shows(Run(Nothing, ops), source, Deliveries(ops, source))
  {
    if ops != [] {
      var front, op := ops[..|ops| - 1], ops[|ops| - 1];
      RunShows(front, source);
      StepShows(Run(Nothing, front), op, source, Deliveries(front, source));
      OneMore(front, op, source);
      assert ops == front + [op];
    }
  }

  // Whatever the order and the repetitions, the rows not missing are those of the latest
  // snapshot, also with other sources and pins in between.
  lemma LatestSnapshotWins(ops: seq<Op>, source: Source, latest: Snapshot)
    requires DistinctTimes(Deliveries(ops, source)) && IsLatest(Deliveries(ops, source), latest)
    ensures Present(Run(Nothing, ops), source) == Ids(latest.candidates)
    ensures source in Run(Nothing, ops).marks && Run(Nothing, ops).marks[source] == latest.observed
  {
    RunShows(ops, source);
    assert source in Run(Nothing, ops).marks;
    var s :| && IsLatest(Deliveries(ops, source), s) && s.observed == Run(Nothing, ops).marks[source]
             && Present(Run(Nothing, ops), source) == Ids(s.candidates);
    assert s == latest;
  }

  lemma NothingDelivered(ops: seq<Op>, source: Source)
    requires Deliveries(ops, source) == {}
    ensures Present(Run(Nothing, ops), source) == {}
  {
    RunShows(ops, source);
  }

  // Two runs that deliver the same snapshots agree on what is present.
  lemma DeliveryOrderIsInvisible(one: seq<Op>, other: seq<Op>, source: Source)
    requires Deliveries(one, source) == Deliveries(other, source) && DistinctTimes(Deliveries(one, source))
    ensures Present(Run(Nothing, one), source) == Present(Run(Nothing, other), source)
  {
    if Deliveries(one, source) != {} {
      RunShows(one, source);
      var s :| IsLatest(Deliveries(one, source), s);
      LatestSnapshotWins(one, source, s);
      LatestSnapshotWins(other, source, s);
    } else {
      NothingDelivered(one, source);
      NothingDelivered(other, source);
    }
  }

  // ---- rows over a run ----

  // No row is lost, its observation time never decreases, and only a newer time brings new content.
  predicate RowEvolves(a: Row, b: Row) {
    && a.observed <= b.observed && a.hidden == b.hidden
    && (a.observed == b.observed ==> a.content == b.content)
  }

  lemma StepEvolves(c: Catalog, op: Op, id: Id)
    requires id in c.rows
    ensures id in Step(c, op).rows && RowEvolves(c.rows[id], Step(c, op).rows[id])
  { }

  lemma {:induction false} RowsEvolve(c: Catalog, ops: seq<Op>, id: Id)
    requires id in c.rows
    ensures id in Run(c, ops).rows && RowEvolves(c.rows[id], Run(c, ops).rows[id])
  {
    if ops != [] {
      RowsEvolve(c, ops[..|ops| - 1], id);
      StepEvolves(Run(c, ops[..|ops| - 1]), ops[|ops| - 1], id);
    }
  }

  predicate PinsLeft(op: Op, id: Id) { op.Pin? ==> id !in op.ids }

  // A pin stays as it is through any run in which nobody sets it.
  lemma {:induction false} PinSurvives(c: Catalog, ops: seq<Op>, id: Id)
    requires id in c.rows && forall op <- ops :: PinsLeft(op, id)
    ensures id in Run(c, ops).rows && Run(c, ops).rows[id].pinned == c.rows[id].pinned
  {
    if ops != [] {
      assert PinsLeft(ops[|ops| - 1], id);
      PinSurvives(c, ops[..|ops| - 1], id);
    }
  }

  // ---- contents ----

  ghost predicate Holds(row: Row, c: Candidate) { row.observed == c.observed && row.content == c.content }

  // The row holds what some delivered snapshot said about its resource.
  ghost predicate From(row: Row, id: Id, snapshots: set<Snapshot>) {
    exists s <- snapshots, c | c in s.candidates :: c.id == id && Holds(row, c)
  }

  ghost predicate Traced(c: Catalog, id: Id, snapshots: set<Snapshot>) {
    id in c.rows ==> From(c.rows[id], id, snapshots)
  }

  // The row is at least as new as what the snapshot last applied said about it.
  ghost predicate Reached(c: Catalog, id: Id, snapshots: set<Snapshot>) {
    forall s <- snapshots, a | a in s.candidates && a.id == id && id.source in c.marks && s.observed == c.marks[id.source] ::
      id in c.rows && a.observed <= c.rows[id].observed
  }

  ghost function And(snapshots: set<Snapshot>, op: Op, source: Source): set<Snapshot> {
    snapshots + if IsDelivery(op, source) then {op.snapshot} else {}
  }

  // Every step but a delivery of its source leaves a row's content alone.
  lemma OtherStepKeepsContents(c: Catalog, op: Op, id: Id)
    requires !IsDelivery(op, id.source)
    ensures id in Step(c, op).rows <==> id in c.rows
    ensures id in c.rows ==>
              Step(c, op).rows[id].observed == c.rows[id].observed && Step(c, op).rows[id].content == c.rows[id].content
    ensures id.source in Step(c, op).marks <==> id.source in c.marks
    ensures id.source in c.marks ==> Step(c, op).marks[id.source] == c.marks[id.source]
  {
    if op.Delivery? && Valid(op.snapshot) { assert id !in Ids(op.snapshot.candidates); }
  }

  lemma FromMore(a: Row, b: Row, id: Id, snapshots: set<Snapshot>, more: set<Snapshot>)
    requires From(a, id, snapshots) && snapshots <= more && a.observed == b.observed && a.content == b.content
    ensures From(b, id, more)
  {
    var t, c :| t in snapshots && c in t.candidates && c.id == id && Holds(a, c);
    assert t in more && Holds(b, c);
  }

  // What a delivery that is applied leaves in a row it names.
  lemma NamedRow(c: Catalog, s: Snapshot, a: Candidate)
    requires Valid(s) && Newer(c, s) && a in s.candidates
    ensures a.id in Deliver(c, s).rows && Deliver(c, s).rows[a.id] == Refreshed(RowAt(c.rows, a.id), a)
    ensures forall x <- s.candidates :: x.id == a.id ==> x == a
  {
    assert a.id in Ids(s.candidates);
    var x := Find(s.candidates, a.id).value;
    var i :| 0 <= i < |s.candidates| && s.candidates[i] == a;
    forall y | y in s.candidates && y.id == a.id ensures y == a {
      var j :| 0 <= j < |s.candidates| && s.candidates[j] == y;
    }
  }

  lemma UnnamedRow(c: Catalog, s: Snapshot, id: Id)
    requires id !in Ids(s.candidates)
    ensures id in Deliver(c, s).rows <==> id in c.rows
    ensures id in c.rows ==>
              Deliver(c, s).rows[id].observed == c.rows[id].observed && Deliver(c, s).rows[id].content == c.rows[id].content
  { }

  lemma AppliedKeepsContents(c: Catalog, s: Snapshot, id: Id, snapshots: set<Snapshot>)
    requires Valid(s) && Newer(c, s) && s.source == id.source && Traced(c, id, snapshots)
    requires DistinctTimes(snapshots + {s})
    ensures Traced(Deliver(c, s), id, snapshots + {s}) && Reached(Deliver(c, s), id, snapshots + {s})
  {
    var after := Deliver(c, s);
    if id in Ids(s.candidates) {
      var a := Find(s.candidates, id).value;
      NamedRow(c, s, a);
      if id in c.rows && a.observed <= c.rows[id].observed {
        FromMore(c.rows[id], after.rows[id], id, snapshots, snapshots + {s});
      } else {
        assert s in snapshots + {s} && Holds(after.rows[id], a);
      }
    } else {
      UnnamedRow(c, s, id);
      if id in c.rows { FromMore(c.rows[id], after.rows[id], id, snapshots, snapshots + {s}); }
      forall a | a in s.candidates ensures a.id != id { assert a.id in Ids(s.candidates); }
    }
  }

  lemma StepKeepsContents(c: Catalog, op: Op, id: Id, snapshots: set<Snapshot>)
    requires Shows(c, id.source, snapshots) && Traced(c, id, snapshots) && Reached(c, id, snapshots)
    requires DistinctTimes(And(snapshots, op, id.source))
    ensures Traced(Step(c, op), id, And(snapshots, op, id.source)) && Reached(Step(c, op), id, And(snapshots, op, id.source))
  {
    var more := And(snapshots, op, id.source);
    if !IsDelivery(op, id.source) {
      assert more == snapshots;
      OtherStepKeepsContents(c, op, id);
      if id in c.rows { FromMore(c.rows[id], Step(c, op).rows[id], id, snapshots, more); }
    } else if Newer(c, op.snapshot) {
      AppliedKeepsContents(c, op.snapshot, id, snapshots);
    } else {
      var t :| IsLatest(snapshots, t) && t.observed == c.marks[id.source];
      assert op.snapshot.observed == t.observed ==> op.snapshot == t;
      if id in c.rows { FromMore(c.rows[id], c.rows[id], id, snapshots, more); }
    }
  }

  lemma {:induction false} RunKeepsContents(ops: seq<Op>, id: Id)
    requires DistinctTimes(Deliveries(ops, id.source))
    ensures Traced(Run(Nothing, ops), id, Deliveries(ops, id.source))
    ensures Reached(Run(Nothing, ops), id, Deliveries(ops, id.source))
  {
    if ops != [] {
      var front, op := ops[..|ops| - 1], ops[|ops| - 1];
      assert ops == front + [op];
      OneMore(front, op, id.source);
      RunKeepsContents(front, id);
      RunShows(front, id.source);
      StepKeepsContents(Run(Nothing, front), op, id, Deliveries(front, id.source));
    }
  }

  // No earlier snapshot said anything else about the candidate's resource with as new a time.
  ghost predicate Unrivalled(snapshots: set<Snapshot>, latest: Snapshot, b: Candidate) {
    forall s <- snapshots, a | a in s.candidates && a.id == b.id && s.observed < latest.observed ::
      a.observed < b.observed || a.content == b.content
  }

  ghost predicate Strictly(snapshots: set<Snapshot>, latest: Snapshot, b: Candidate) {
    forall s <- snapshots, a | a in s.candidates && a.id == b.id && s.observed < latest.observed :: a.observed < b.observed
  }

  // Then the row holds what the latest snapshot said, and its time if every rival is older.
  lemma LatestContentsWin(ops: seq<Op>, source: Source, latest: Snapshot, b: Candidate)
    requires DistinctTimes(Deliveries(ops, source)) && IsLatest(Deliveries(ops, source), latest) && b in latest.candidates
    requires Unrivalled(Deliveries(ops, source), latest, b)
    ensures b.id in Run(Nothing, ops).rows && Run(Nothing, ops).rows[b.id].content == b.content
    ensures Strictly(Deliveries(ops, source), latest, b) ==> Holds(Run(Nothing, ops).rows[b.id], b)
  {
    LatestSnapshotWins(ops, source, latest);
    RunKeepsContents(ops, b.id);
    NamedRow(Nothing, latest, b);
    var row := Run(Nothing, ops).rows[b.id];
    var s, a :| s in Deliveries(ops, source) && a in s.candidates && a.id == b.id && Holds(row, a);
    assert s.observed == latest.observed ==> s == latest && a == b;
  }

  // ---- and only then ----

  ghost predicate Deliverable(snapshots: set<Snapshot>, source: Source) {
    forall s <- snapshots :: Valid(s) && s.source == source
  }

  lemma {:induction false} Enumerated(snapshots: set<Snapshot>, source: Source) returns (ops: seq<Op>)
    requires Deliverable(snapshots, source)
    ensures Deliveries(ops, source) == snapshots
    ensures forall op <- ops :: op.Delivery? && op.snapshot in snapshots
  {
    ops := [];
    if snapshots != {} {
      var s :| s in snapshots;
      var rest := Enumerated(snapshots - {s}, source);
      ops := rest + [Delivery(s)];
      OneMore(rest, Delivery(s), source);
      assert snapshots == snapshots - {s} + {s};
    }
  }

  // Deliveries that are not newer leave the catalog as it is.
  lemma {:induction false} OlderIgnored(ops: seq<Op>, more: seq<Op>)
    requires forall op <- more :: op.Delivery? && !Newer(Run(Nothing, ops), op.snapshot)
    ensures Run(Nothing, ops + more) == Run(Nothing, ops)
  {
    if more == [] {
      assert ops + more == ops;
    } else {
      var front := more[..|more| - 1];
      assert (ops + more)[..|ops + more| - 1] == ops + front;
      OlderIgnored(ops, front);
    }
  }

  lemma {:induction false} DeliveriesJoin(ops: seq<Op>, more: seq<Op>, source: Source)
    ensures Deliveries(ops + more, source) == Deliveries(ops, source) + Deliveries(more, source)
  { }

  // A rival delivered first keeps its content in the row.
  lemma RivalStays(s: Snapshot, a: Candidate, latest: Snapshot, b: Candidate)
    requires Valid(s) && Valid(latest) && s.source == latest.source && s.observed < latest.observed
    requires a in s.candidates && b in latest.candidates && a.id == b.id && b.observed <= a.observed
    ensures var c := Run(Nothing, [Delivery(s), Delivery(latest)]);
            b.id in c.rows && c.rows[b.id].content == a.content
            && latest.source in c.marks && c.marks[latest.source] == latest.observed
  {
    RunTwo(Delivery(s), Delivery(latest));
    NamedRow(Nothing, s, a);
    NamedRow(Deliver(Nothing, s), latest, b);
  }

  lemma RivalWins(snapshots: set<Snapshot>, source: Source, latest: Snapshot, b: Candidate) returns (ops: seq<Op>)
    requires Deliverable(snapshots, source) && IsLatest(snapshots, latest) && b in latest.candidates
    requires !Unrivalled(snapshots, latest, b)
    ensures Deliveries(ops, source) == snapshots
    ensures b.id in Run(Nothing, ops).rows && Run(Nothing, ops).rows[b.id].content != b.content
  {
    var s, a :| && s in snapshots && a in s.candidates && a.id == b.id && s.observed < latest.observed
                && !(a.observed < b.observed || a.content == b.content);
    RivalStays(s, a, latest, b);
    var two := [Delivery(s), Delivery(latest)];
    var rest := Enumerated(snapshots, source);
    ops := two + rest;
    OlderIgnored(two, rest);
    DeliveriesJoin(two, rest, source);
    assert Deliveries(two, source) <= snapshots;
  }

  // Every run that delivers a set of snapshots ends with the latest one's content in a row if and
  // only if no earlier snapshot of the set rivals it.
  lemma ContentsConvergeIffUnrivalled(snapshots: set<Snapshot>, source: Source, latest: Snapshot, b: Candidate)
    requires Deliverable(snapshots, source) && DistinctTimes(snapshots)
    requires IsLatest(snapshots, latest) && b in latest.candidates
    ensures (forall ops | Deliveries(ops, source) == snapshots ::
               b.id in Run(Nothing, ops).rows && Run(Nothing, ops).rows[b.id].content == b.content)
            <==> Unrivalled(snapshots, latest, b)
  {
    if Unrivalled(snapshots, latest, b) {
      forall ops | Deliveries(ops, source) == snapshots
        ensures b.id in Run(Nothing, ops).rows && Run(Nothing, ops).rows[b.id].content == b.content
      {
        LatestContentsWin(ops, source, latest, b);
      }
    } else {
      var ops := RivalWins(snapshots, source, latest, b);
    }
  }

  lemma DeliverOne(c: Catalog, a: Candidate, time: int)
    requires SourceOk(a.id.source) && CandidateOk(a) && time != ZeroTime
    ensures var s := Snapshot(a.id.source, [a], time);
            Valid(s) && Deliver(c, s) ==
              if !Newer(c, s) then c else Catalog(Delivered(c.rows, s), c.marks[s.source := time])
    ensures var rows := Delivered(c.rows, Snapshot(a.id.source, [a], time));
            a.id in rows && rows[a.id] == Refreshed(RowAt(c.rows, a.id), a)
  {
    var s := Snapshot(a.id.source, [a], time);
    assert a in s.candidates && a.id in Ids(s.candidates) && Find(s.candidates, a.id) == Some(a);
  }

  // Otherwise the order of delivery shows: the later snapshot carries the older candidate.
  lemma StaleCandidateDependsOnOrder()
    ensures var source := Source("agent", "n1");
            var id := Id(source, "web");
            var early := Delivery(Snapshot(source, [Candidate(id, 5, "early")], 1));
            var late := Delivery(Snapshot(source, [Candidate(id, 4, "late")], 2));
            && id in Run(Nothing, [early, late]).rows && Run(Nothing, [early, late]).rows[id].content == "early"
            && id in Run(Nothing, [late, early]).rows && Run(Nothing, [late, early]).rows[id].content == "late"
  {
    var source := Source("agent", "n1");
    var id := Id(source, "web");
    var a, b := Candidate(id, 5, "early"), Candidate(id, 4, "late");
    var early, late := Delivery(Snapshot(source, [a], 1)), Delivery(Snapshot(source, [b], 2));
    RunTwo(early, late);
    RunTwo(late, early);
    DeliverOne(Nothing, a, 1);
    DeliverOne(Nothing, b, 2);
    DeliverOne(Deliver(Nothing, early.snapshot), b, 2);
    DeliverOne(Deliver(Nothing, late.snapshot), a, 1);
  }

  lemma RunTwo(a: Op, b: Op)
    ensures Run(Nothing, [a, b]) == Step(Step(Nothing, a), b)
  {
    assert [a, b][..1] == [a] && [a][..0] == [];
    assert Run(Nothing, [a]) == Step(Nothing, a);
  }
}
