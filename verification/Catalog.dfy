/**
Source snapshots and pins, internal/adapters/sqlite/catalog.go:120-253 and 304-361 with
internal/application/catalog/model.go:81-115. A candidate is identified by its source and
resource, which is what its stable ID digests. Each transaction is one method.
*/
module Catalog {
  import opened Wrappers

  datatype Source = Source(kind: string, id: string)

  datatype Id = Id(source: Source, resource: string)

  // `content` stands for everything a snapshot says about a resource besides its time.
  datatype Candidate = Candidate(id: Id, observed: int, content: string)

  datatype Snapshot = Snapshot(source: Source, candidates: seq<Candidate>, observed: int)

  datatype Row = Row(observed: int, content: string, pinned: Option<int>, missing: bool, hidden: bool)

  // `marks` holds the time of the last snapshot applied for each source.
  datatype Catalog = Catalog(rows: map<Id, Row>, marks: map<Source, int>)

  datatype CatalogError = Invalid | NotFound | Conflict

  // ---- what a snapshot must be ----

  const ManualKind := "manual"
  const ZeroTime: int := 0

  predicate SourceOk(source: Source) {
    && source.kind != ManualKind && source.kind != "" && source.id != ""
    && '/' !in source.kind && '\0' !in source.kind && '\0' !in source.id
  }

  predicate CandidateOk(c: Candidate) { c.id.resource != "" && '\0' !in c.id.resource && c.observed != ZeroTime }

  predicate DistinctIds(cs: seq<Candidate>) { forall i, j :: 0 <= i < j < |cs| ==> cs[i].id != cs[j].id }

  ghost predicate Valid(s: Snapshot) {
    && SourceOk(s.source) && s.observed != ZeroTime
    && (forall c <- s.candidates :: c.id.source == s.source && CandidateOk(c))
    && DistinctIds(s.candidates)
  }

  method Validate(s: Snapshot) returns (ok: bool)
    ensures ok <==> Valid(s)
  {
    if !SourceOk(s.source) || s.observed == ZeroTime { return false; }
    var seen: set<Id> := {};
    for k := 0 to |s.candidates|
      invariant forall c <- s.candidates[..k] :: c.id.source == s.source && CandidateOk(c)
      invariant DistinctIds(s.candidates[..k])
      invariant seen == Ids(s.candidates[..k])
    {
      var c := s.candidates[k];
      assert s.candidates[..k + 1] == s.candidates[..k] + [c];
      if c.id.source != s.source || !CandidateOk(c) || c.id in seen { return false; }
      seen := seen + {c.id};
    }
    assert s.candidates[..|s.candidates|] == s.candidates;
    return true;
  }

  function Ids(cs: seq<Candidate>): set<Id> { set c <- cs :: c.id }

  function Find(cs: seq<Candidate>, id: Id): (r: Option<Candidate>)
    ensures r.Some? ==> r.value in cs && r.value.id == id
    ensures r.Some? <==> id in Ids(cs)
  {
    if cs == [] then None
    else if cs[|cs| - 1].id == id then Some(cs[|cs| - 1])
    else
      assert cs == cs[..|cs| - 1] + [cs[|cs| - 1]];
      Find(cs[..|cs| - 1], id)
  }

  // ---- the specification of one delivery, row by row ----

  // A candidate replaces what is stored only when it is newer; it is present either way.
  function Refreshed(row: Option<Row>, c: Candidate): Row {
    match row
    case None => Row(c.observed, c.content, None, false, false)
    case Some(was) =>
      if c.observed > was.observed then was.(observed := c.observed, content := c.content, missing := false)
      else was.(missing := false)
  }

  function RowAt(rows: map<Id, Row>, id: Id): Option<Row> { if id in rows then Some(rows[id]) else None }

  function Delivered(rows: map<Id, Row>, s: Snapshot): map<Id, Row> {
    map id | id in rows.Keys + Ids(s.candidates) ::
      var c := Find(s.candidates, id);
      if c.Some? then Refreshed(RowAt(rows, id), c.value)
      else rows[id].(missing := rows[id].missing || id.source == s.source)
  }

  predicate Newer(c: Catalog, s: Snapshot) { s.source !in c.marks || s.observed > c.marks[s.source] }

  ghost function Deliver(c: Catalog, s: Snapshot): Catalog {
    if Valid(s) && Newer(c, s) then Catalog(Delivered(c.rows, s), c.marks[s.source := s.observed]) else c
  }

  // ---- pins ----

  predicate Pinnable(rows: map<Id, Row>, id: Id, pinned: bool) {
    id in rows && (pinned ==> !rows[id].missing && !rows[id].hidden)
  }

  predicate AllPinnable(rows: map<Id, Row>, ids: seq<Id>, pinned: bool) { forall id <- ids :: Pinnable(rows, id, pinned) }

  function Pinned(row: Row, pinned: bool, now: int): Row {
    row.(pinned := if !pinned then None else if row.pinned.Some? then row.pinned else Some(now))
  }

  ghost function SetPin(c: Catalog, ids: seq<Id>, pinned: bool, now: int): Catalog {
    if AllPinnable(c.rows, ids, pinned) then
      c.(rows := map id | id in c.rows :: if id in ids then Pinned(c.rows[id], pinned, now) else c.rows[id])
    else c
  }

  // ---- the store ----

  function Upserted(rows: map<Id, Row>, cs: seq<Candidate>): map<Id, Row> {
    if cs == [] then rows
    else
      var before := Upserted(rows, cs[..|cs| - 1]);
      var c := cs[|cs| - 1];
      before[c.id := Refreshed(RowAt(before, c.id), c)]
  }

  lemma {:induction false} UpsertedRow(rows: map<Id, Row>, cs: seq<Candidate>, id: Id)
    requires DistinctIds(cs)
    ensures id in Upserted(rows, cs) <==> id in rows || id in Ids(cs)
    ensures id in Upserted(rows, cs) ==>
              Upserted(rows, cs)[id] == if Find(cs, id).Some? then Refreshed(RowAt(rows, id), Find(cs, id).value) else rows[id]
  {
    if cs != [] {
      var front, c := cs[..|cs| - 1], cs[|cs| - 1];
      UpsertedRow(rows, front, id);
      assert cs == front + [c];
      assert c.id !in Ids(front);
    }
  }

  // ---- what a call means, row by row ----

  // A resource seen for the first time is neither pinned nor hidden; one seen again keeps both, is
  // present, and takes over content and time only when they are newer.
  predicate Taken(was: Option<Row>, now: Row, c: Candidate) {
    && !now.missing
    && (was == None ==> now.pinned == None && !now.hidden)
    && (was.Some? ==> now.pinned == was.value.pinned && now.hidden == was.value.hidden)
    && if was.Some? && c.observed <= was.value.observed
       then now.observed == was.value.observed && now.content == was.value.content
       else now.observed == c.observed && now.content == c.content
  }

  // Rows of the source that the snapshot does not name are missing; rows of others stay.
  ghost predicate Replaced(before: map<Id, Row>, after: map<Id, Row>, s: Snapshot) {
    && (forall c <- s.candidates :: c.id in after && Taken(if c.id in before then Some(before[c.id]) else None, after[c.id], c))
    && (forall id: Id | forall c <- s.candidates :: c.id != id ::
          && (id in after <==> id in before)
          && (id in after ==>
                var was := before[id];
                after[id] == Row(was.observed, was.content, was.pinned, was.missing || id.source == s.source, was.hidden)))
  }

  ghost predicate SnapshotAnswers(before: Catalog, after: Catalog, s: Snapshot, r: Result<(bool, nat), CatalogError>) {
    if !Valid(s) then r == Err(Invalid) && after == before
    else if s.source in before.marks && s.observed <= before.marks[s.source] then r == Ok((false, |s.candidates|)) && after == before
    else r == Ok((true, |s.candidates|)) && Replaced(before.rows, after.rows, s) && after.marks == before.marks[s.source := s.observed]
  }

  lemma {:induction false} FoundInDistinct(cs: seq<Candidate>, c: Candidate)
    requires DistinctIds(cs) && c in cs
    ensures Find(cs, c.id) == Some(c)
  {
    var i :| 0 <= i < |cs| && cs[i] == c;
    var j :| 0 <= j < |cs| && cs[j] == Find(cs, c.id).value;
  }

  lemma DeliveryIsReplacement(rows: map<Id, Row>, s: Snapshot)
    requires Valid(s)
    ensures Replaced(rows, Delivered(rows, s), s)
  {
    forall c | c in s.candidates
      ensures c.id in Delivered(rows, s)
      ensures Delivered(rows, s)[c.id] == Refreshed(RowAt(rows, c.id), c)
    {
      FoundInDistinct(s.candidates, c);
    }
  }

  // A pinned row keeps the time of its first pin.
  predicate Marked(was: Row, now: Row, pinned: bool, time: int) {
    && now.observed == was.observed && now.content == was.content && now.missing == was.missing && now.hidden == was.hidden
    && now.pinned == if !pinned then None else if was.pinned == None then Some(time) else was.pinned
  }

  predicate Absent(rows: map<Id, Row>, id: Id, pinned: bool) { id !in rows || (pinned && (rows[id].missing || rows[id].hidden)) }

  // The named rows are all pinned or all unpinned; otherwise nothing changes, and the first row
  // that is not there, or may not be pinned, says why.
  ghost predicate PinAnswers(before: map<Id, Row>, after: map<Id, Row>, ids: seq<Id>, pinned: bool, time: int, r: Result<Row, CatalogError>)
    requires |ids| > 0
  {
    && after.Keys == before.Keys
    && (r.Ok? ==>
          && (forall id <- ids :: id in before && !Absent(before, id, pinned))
          && ids[0] in after && r.value == after[ids[0]]
          && forall id <- after :: if id in ids then Marked(before[id], after[id], pinned, time) else after[id] == before[id])
    && (r.Err? ==>
          && after == before
          && exists k ::
               && 0 <= k < |ids| && Absent(before, ids[k], pinned)
               && (forall i :: 0 <= i < k ==> !Absent(before, ids[i], pinned))
               && r.error == if ids[k] in before then Conflict else NotFound)
  }

  class CatalogStore {
    var rows: map<Id, Row>
    var marks: map<Source, int>

    ghost function Contents(): Catalog
      reads this
    {
      Catalog(rows, marks)
    }

    constructor ()
      ensures Contents() == Catalog(map[], map[])
    {
      rows, marks := map[], map[];
    }

    method UpsertCandidate(c: Candidate)
      modifies this`rows
      ensures forall id <- old(rows) :: id in rows && (id != c.id ==> rows[id] == old(rows)[id])
      ensures rows.Keys == old(rows).Keys + {c.id}
      ensures rows[c.id].(missing := false) == Refreshed(RowAt(old(rows), c.id), c)
      ensures rows[c.id := rows[c.id].(missing := false)] == old(rows)[c.id := Refreshed(RowAt(old(rows), c.id), c)]
    {
      if c.id in rows {
        var existing := rows[c.id];
        if c.observed <= existing.observed { return; }
        rows := rows[c.id := existing.(observed := c.observed, content := c.content, missing := false)];
      } else {
        rows := rows[c.id := Row(c.observed, c.content, None, false, false)];
      }
    }

    method MarkAbsent(source: Source, keep: set<Id>)
      modifies this`rows
      ensures rows.Keys == old(rows).Keys
      ensures forall id <- rows ::
                rows[id] == if id.source == source && id !in keep then old(rows)[id].(missing := true) else old(rows)[id]
    {
      rows := map id | id in rows ::
        if id.source == source && id !in keep then rows[id].(missing := true) else rows[id];
    }

    method UpsertAll(cs: seq<Candidate>) returns (keep: set<Id>)
      modifies this`rows
      ensures rows == Upserted(old(rows), cs) && keep == Ids(cs)
    {
      keep := {};
      for k := 0 to |cs|
        invariant rows == Upserted(old(rows), cs[..k]) && keep == Ids(cs[..k])
      {
        var c := cs[k];
        assert cs[..k + 1] == cs[..k] + [c];
        UpsertCandidate(c);
        rows := rows[c.id := rows[c.id].(missing := false)];
        keep := keep + {c.id};
      }
      assert cs[..|cs|] == cs;
    }

    method ReplaceSourceSnapshot(s: Snapshot) returns (r: Result<(bool, nat), CatalogError>)
      modifies this
      ensures Contents() == Deliver(old(Contents()), s)
      ensures r == if !Valid(s) then Err(Invalid) else Ok((Newer(old(Contents()), s), |s.candidates|))
      ensures SnapshotAnswers(old(Contents()), Contents(), s, r)
    {
      var ok := Validate(s);
      if !ok { return Err(Invalid); }
      if s.source in marks && s.observed <= marks[s.source] { return Ok((false, |s.candidates|)); }
      var keep := UpsertAll(s.candidates);
      MarkAbsent(s.source, keep);
      marks := marks[s.source := s.observed];
      DeliveredByMarking(old(rows), s, rows);
      DeliveryIsReplacement(old(rows), s);
      return Ok((true, |s.candidates|));
    }

    method SetPinned(id: Id, pinned: bool, related: seq<Id>, now: int) returns (r: Result<Row, CatalogError>)
      modifies this
      ensures Contents() == SetPin(old(Contents()), [id] + related, pinned, now)
      ensures r.Ok? <==> AllPinnable(old(rows), [id] + related, pinned)
      ensures r.Ok? ==> id in rows && r.value == rows[id]
      ensures r.Ok? ==> forall x <- [id] + related :: x in rows && rows[x].pinned.Some? == pinned
      ensures PinAnswers(old(rows), rows, [id] + related, pinned, now, r) && marks == old(marks)
    {
      var ids := [id] + related;
      var draft := rows;
      for k := 0 to |ids|
        invariant draft == SetPin(old(Contents()), ids[..k], pinned, now).rows
        invariant AllPinnable(old(rows), ids[..k], pinned) && Contents() == old(Contents())
      {
        var current := ids[k];
        NextPin(old(Contents()), ids, k, pinned, now);
        assert forall i :: 0 <= i < k ==> ids[i] in ids[..k] && !Absent(old(rows), ids[i], pinned);
        if current !in draft { return Err(NotFound); }
        var row := draft[current];
        if pinned && (row.missing || row.hidden) { return Err(Conflict); }
        if pinned && row.pinned.None? { draft := draft[current := row.(pinned := Some(now))]; }
        if !pinned && row.pinned.Some? { draft := draft[current := row.(pinned := None)]; }
      }
      assert ids[..|ids|] == ids && id in ids;
      PinnedAlike(old(Contents()), ids, pinned, now);
      rows := draft;
      return Ok(rows[id]);
    }
  }

  lemma PinnedAlike(c: Catalog, ids: seq<Id>, pinned: bool, now: int)
    requires AllPinnable(c.rows, ids, pinned)
    ensures forall x <- ids :: x in SetPin(c, ids, pinned, now).rows && SetPin(c, ids, pinned, now).rows[x].pinned.Some? == pinned
  { }

  lemma NextPin(c: Catalog, ids: seq<Id>, k: nat, pinned: bool, now: int)
    requires k < |ids| && AllPinnable(c.rows, ids[..k], pinned)
    ensures var draft := SetPin(c, ids[..k], pinned, now).rows;
            if Pinnable(draft, ids[k], pinned) then
              && AllPinnable(c.rows, ids[..k + 1], pinned)
              && SetPin(c, ids[..k + 1], pinned, now).rows == draft[ids[k] := Pinned(draft[ids[k]], pinned, now)]
            else
              !AllPinnable(c.rows, ids, pinned) && SetPin(c, ids, pinned, now) == c
  {
    assert ids[..k + 1] == ids[..k] + [ids[k]] && ids[k] in ids;
  }

  lemma DeliveredByMarking(before: map<Id, Row>, s: Snapshot, after: map<Id, Row>)
    requires DistinctIds(s.candidates)
    requires forall c <- s.candidates :: c.id.source == s.source
    requires after.Keys == Upserted(before, s.candidates).Keys
    requires forall id <- after ::
               var row := Upserted(before, s.candidates)[id];
               after[id] == if id.source == s.source && id !in Ids(s.candidates) then row.(missing := true) else row
    ensures after == Delivered(before, s)
  {
    forall id ensures id in after <==> id in Delivered(before, s) { UpsertedRow(before, s.candidates, id); }
    forall id | id in after ensures after[id] == Delivered(before, s)[id] { UpsertedRow(before, s.candidates, id); }
  }
}
