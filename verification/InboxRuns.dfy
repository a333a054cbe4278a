/**
The inbox over whole runs: what every transaction keeps, what a replay returns, and reading
page after page while other transactions happen in between.
*/
module InboxRuns {
  import opened Wrappers
  import opened NotificationInbox

  datatype Op =
    | Publish(m: Message, received: int, cutoff: int, id: string, fault: bool)
    | BindService(key: Key, service: string, cutoff: int, fault: bool)
    | ReadOne(id: string, at: int)
    | ReadAll(at: int, since: int)
    | Prune(since: int)
    | Clear

  function Apply(s: Inbox, op: Op): Inbox {
    match op
    case Publish(m, received, cutoff, id, fault) => Published(s, m, received, cutoff, id, fault).0
    case BindService(key, service, cutoff, fault) => Bound(s, key, service, cutoff, fault).0
    case ReadOne(id, at) => s.(rows := MarkRead(s.rows, id, at))
    case ReadAll(at, since) => s.(rows := MarkAllRead(s.rows, at, since))
    case Prune(since) => s.(rows := Retained(s.rows, since))
    case Clear => s.(rows := [])
  }

  function Run(s: Inbox, ops: seq<Op>): Inbox
    decreases |ops|
  {
    if ops == [] then s else Run(Apply(s, ops[0]), ops[1..])
  }

  const Empty := Inbox([], 0)

  lemma StepKeepsValid(s: Inbox, op: Op)
    requires Valid(s)
    ensures Valid(Apply(s, op))
  {
    match op
    case Publish(m, received, cutoff, id, fault) => PublishedKeepsValid(s, m, received, cutoff, id, fault);
    case BindService(key, service, cutoff, fault) => BoundKeepsValid(s, key, service, cutoff, fault);
    case ReadOne(id, at) => ReadKeepsValid(s, MarkRead(s.rows, id, at));
    case ReadAll(at, since) => ReadKeepsValid(s, MarkAllRead(s.rows, at, since));
    case Prune(since) => RetainedKeepsValid(s, since);
    case Clear =>
  }

  // In every reachable inbox: one row per source, connection and event, never over capacity,
  // sequences and ids distinct, and every sequence has a valid cursor.
  lemma {:induction false} ReachableInboxIsValid(s: Inbox, ops: seq<Op>)
    requires Valid(s)
    ensures Valid(Run(s, ops))
    decreases |ops|
  {
    if ops != [] {
      StepKeepsValid(s, ops[0]);
      ReachableInboxIsValid(Apply(s, ops[0]), ops[1..]);
    }
  }

  lemma EmptyIsValid()
    ensures Valid(Empty)
  {
  }

  predicate Fails(s: Inbox, op: Op) {
    match op
    case Publish(m, received, cutoff, id, fault) => Published(s, m, received, cutoff, id, fault).1.Err?
    case BindService(key, service, cutoff, fault) => Bound(s, key, service, cutoff, fault).1.Err?
    case ReadOne(id, _) => FindId(s.rows, id).None?
    case _ => false
  }

  // The calls of a run that do not fail where they are made.
  function Successful(s: Inbox, ops: seq<Op>): seq<Op>
    decreases |ops|
  {
    if ops == [] then []
    else (if Fails(s, ops[0]) then [] else [ops[0]]) + Successful(Apply(s, ops[0]), ops[1..])
  }

  lemma FailedStepChangesNothing(s: Inbox, op: Op)
    requires Fails(s, op)
    ensures Apply(s, op) == s
  {
    match op
    case Publish(m, received, cutoff, id, fault) => FailedCallChangesNothing(s, m, received, cutoff, id, fault, "");
    case BindService(key, service, cutoff, fault) =>
    case ReadOne(id, at) => FindIdSound(s.rows, id);
  }

  // No later state shows that a failed call was made: a run ends as it would have without its
  // failed calls, and without them none of the others fails.
  lemma {:induction false} FailedCallsLeaveNoTrace(s: Inbox, ops: seq<Op>)
    ensures Run(s, Successful(s, ops)) == Run(s, ops)
    ensures Successful(s, Successful(s, ops)) == Successful(s, ops)
    decreases |ops|
  {
    if ops != [] {
      var op, rest := ops[0], Successful(Apply(s, ops[0]), ops[1..]);
      FailedCallsLeaveNoTrace(Apply(s, op), ops[1..]);
      if Fails(s, op) {
        FailedStepChangesNothing(s, op);
        assert [] + rest == rest;
      } else {
        assert ([op] + rest)[1..] == rest;
      }
    }
  }

  // A failed call leaves the inbox unchanged, pruning included.
  lemma FailedCallChangesNothing(s: Inbox, m: Message, received: int, cutoff: int, id: string, fault: bool, service: string)
    ensures Published(s, m, received, cutoff, id, fault).1.Err? ==> Published(s, m, received, cutoff, id, fault).0 == s
    ensures Bound(s, m.key, service, cutoff, fault).1.Err? ==> Bound(s, m.key, service, cutoff, fault).0 == s
  {
  }

  // How a stored row may change while it stays: never its identity, content or time; a
  // service reference only from empty, a read time only from unread.
  predicate Evolves(a: Row, b: Row) {
    && a.sequence == b.sequence && a.id == b.id && a.key == b.key && a.payload == b.payload && a.received == b.received
    && (a.service != "" ==> b.service == a.service)
    && (a.readAt.Some? ==> b.readAt == a.readAt)
  }

  predicate Descends(s: Inbox, t: Inbox) {
    && s.last <= t.last
    && (forall j | 0 <= j < |t.rows| && t.rows[j].sequence <= s.last ::
          exists i :: 0 <= i < |s.rows| && Evolves(s.rows[i], t.rows[j]))
  }

  lemma InPlaceDescends(s: Inbox, rows: seq<Row>)
    requires |rows| == |s.rows| && forall i | 0 <= i < |rows| :: Evolves(s.rows[i], rows[i])
    ensures Descends(s, s.(rows := rows))
  {
  }

  lemma FewerDescends(s: Inbox, rows: seq<Row>)
    requires forall row | row in rows :: row in s.rows
    ensures Descends(s, s.(rows := rows))
  {
    forall j | 0 <= j < |rows| ensures exists i :: 0 <= i < |s.rows| && Evolves(s.rows[i], rows[j]) {
      assert rows[j] in s.rows;
      var i :| 0 <= i < |s.rows| && s.rows[i] == rows[j];
      assert Evolves(s.rows[i], rows[j]);
    }
  }

  lemma PrunedDescends(s: Inbox, since: int)
    ensures Descends(s, s.(rows := Retained(s.rows, since)))
  {
    RetainedSound(s.rows, since);
    FewerDescends(s, Retained(s.rows, since));
  }

  lemma PublishDescends(s: Inbox, m: Message, received: int, cutoff: int, id: string, fault: bool)
    ensures Descends(s, Published(s, m, received, cutoff, id, fault).0)
  {
    PrunedDescends(s, cutoff);
    FewerDescends(s, s.rows);
    var known, t := Find(s.rows, m.key), Published(s, m, received, cutoff, id, fault).0;
    if t.last > s.last {
      var kept := t.rows[..|t.rows| - 1];
      assert kept == s.rows || kept == Retained(s.rows, cutoff);
      forall j | 0 <= j < |t.rows| && t.rows[j].sequence <= s.last
        ensures exists i :: 0 <= i < |s.rows| && Evolves(s.rows[i], t.rows[j])
      {
        assert t.rows[j] == kept[j];
      }
    } else if t != s {
      InPlaceDescends(s, Fill(s.rows, known.value.id, m.service));
    }
  }

  lemma BindDescends(s: Inbox, key: Key, service: string, cutoff: int, fault: bool)
    ensures Descends(s, Bound(s, key, service, cutoff, fault).0)
  {
    FewerDescends(s, s.rows);
    if Find(s.rows, key).Some? { InPlaceDescends(s, Fill(s.rows, Find(s.rows, key).value.id, service)); }
  }

  lemma StepDescends(s: Inbox, op: Op)
    ensures Descends(s, Apply(s, op))
  {
    match op
    case Publish(m, received, cutoff, id, fault) => PublishDescends(s, m, received, cutoff, id, fault);
    case BindService(key, service, cutoff, fault) => BindDescends(s, key, service, cutoff, fault);
    case ReadOne(id, at) => InPlaceDescends(s, MarkRead(s.rows, id, at));
    case ReadAll(at, since) => InPlaceDescends(s, MarkAllRead(s.rows, at, since));
    case Prune(since) => PrunedDescends(s, since);
    case Clear =>
  }

  // A row that is still there later is the same message: its service reference, once filled,
  // and its read time, once set, never change.
  lemma {:induction false} StoredRowsOnlyEvolve(s: Inbox, ops: seq<Op>)
    requires Valid(s)
    ensures Descends(s, Run(s, ops))
    decreases |ops|
  {
    if ops == [] {
      FewerDescends(s, s.rows);
    } else {
      var t, u := Apply(s, ops[0]), Run(s, ops);
      StepDescends(s, ops[0]);
      StepKeepsValid(s, ops[0]);
      StoredRowsOnlyEvolve(t, ops[1..]);
      forall j | 0 <= j < |u.rows| && u.rows[j].sequence <= s.last
        ensures exists i :: 0 <= i < |s.rows| && Evolves(s.rows[i], u.rows[j])
      {
        var k :| 0 <= k < |t.rows| && Evolves(t.rows[k], u.rows[j]);
        var i :| 0 <= i < |s.rows| && Evolves(s.rows[i], t.rows[k]);
        assert Evolves(s.rows[i], u.rows[j]);
      }
    }
  }

  // The row of an accepted message after any transactions that left it in place.
  ghost predicate IsRowOf(t: Inbox, row: Row, sequence: nat) { row in t.rows && row.sequence == sequence }

  // A replay of an accepted message whose row is still retained adds no row. It gets the original
  // id and time exactly when its service reference is empty, fills an empty one, or is the stored
  // one; an identical replay always does. Otherwise it is refused and nothing changes.
  lemma ReplayReturnsOriginal(s: Inbox, m: Message, received: int, cutoff: int, id: string,
                              ops: seq<Op>, again: Message, received': int, cutoff': int, id': string, row: Row)
    requires Valid(s) && Published(s, m, received, cutoff, id, false).1 == Ok(Receipt(id, received, true))
    requires again.key == m.key && again.payload == m.payload && Unix(received) >= cutoff'
    requires IsRowOf(Run(Published(s, m, received, cutoff, id, false).0, ops), row, s.last + 1)
    ensures var t := Run(Published(s, m, received, cutoff, id, false).0, ops);
            var (u, r) := Published(t, again, received', cutoff', id', false);
            && |u.rows| == |t.rows| && u.last == t.last
            && r == (if again.service == "" || row.service == "" || row.service == again.service
                     then Ok(Receipt(id, received, false)) else Err(Conflict))
            && (again == m ==> r == Ok(Receipt(id, received, false)))
            && (r.Err? || again.service == "" || row.service != "" ==> u == t)
  {
    AcceptedRowPersists(s, m, received, cutoff, id, ops, row);
    RowAnswersReplay(Run(Published(s, m, received, cutoff, id, false).0, ops), row, again, received', cutoff', id');
  }

  lemma AcceptedRowPersists(s: Inbox, m: Message, received: int, cutoff: int, id: string, ops: seq<Op>, row: Row)
    requires Valid(s) && Published(s, m, received, cutoff, id, false).1 == Ok(Receipt(id, received, true))
    requires IsRowOf(Run(Published(s, m, received, cutoff, id, false).0, ops), row, s.last + 1)
    ensures Valid(Run(Published(s, m, received, cutoff, id, false).0, ops))
    ensures row.id == id && row.key == m.key && row.payload == m.payload && row.received == received
    ensures m.service != "" ==> row.service == m.service
  {
    var s1 := Published(s, m, received, cutoff, id, false).0;
    LastSequenceIsFresh(s, m, received, cutoff, id);
    ReachableInboxIsValid(s1, ops);
    StoredRowsOnlyEvolve(s1, ops);
    StoredRowEvolved(s1, Run(s1, ops), row);
  }

  lemma StoredRowEvolved(s: Inbox, t: Inbox, row: Row)
    requires Descends(s, t) && row in t.rows && |s.rows| > 0 && row.sequence == s.last
    requires s.rows[|s.rows| - 1].sequence == s.last
    requires forall i | 0 <= i < |s.rows| && s.rows[i].sequence == s.last :: i == |s.rows| - 1
    ensures Evolves(s.rows[|s.rows| - 1], row)
  {
    var j :| 0 <= j < |t.rows| && t.rows[j] == row;
    var i :| 0 <= i < |s.rows| && Evolves(s.rows[i], t.rows[j]);
  }

  lemma RowAnswersReplay(t: Inbox, row: Row, again: Message, received: int, cutoff: int, id: string)
    requires Valid(t) && row in t.rows && row.key == again.key && row.payload == again.payload && Live(row, cutoff)
    ensures var (u, r) := Published(t, again, received, cutoff, id, false);
            && |u.rows| == |t.rows| && u.last == t.last
            && r == (if again.service == "" || row.service == "" || row.service == again.service
                     then Ok(Receipt(row.id, row.received, false)) else Err(Conflict))
            && (r.Err? || again.service == "" || row.service != "" ==> u == t)
  {
    KeyIsUnique(t.rows, row, again.key);
    FillIdle(t.rows, row);
  }

  lemma LastSequenceIsFresh(s: Inbox, m: Message, received: int, cutoff: int, id: string)
    requires Valid(s) && Published(s, m, received, cutoff, id, false).1 == Ok(Receipt(id, received, true))
    ensures var t := Published(s, m, received, cutoff, id, false).0;
            && Valid(t) && t.last == s.last + 1 && |t.rows| > 0
            && t.rows[|t.rows| - 1] == Row(s.last + 1, id, m.key, m.payload, received, None, m.service)
            && (forall i | 0 <= i < |t.rows| && t.rows[i].sequence == s.last + 1 :: i == |t.rows| - 1)
  {
    PublishedKeepsValid(s, m, received, cutoff, id, false);
  }

  // ---- reading page after page ----

  // One page request and the transactions committed before the next one.
  datatype Visit = Visit(unreadOnly: bool, limit: int, since: int, later: seq<Op>)

  function Options(v: Visit, before: nat): ListOptions { ListOptions(before, v.unreadOnly, v.limit, v.since) }

  // The pages obtained by following NextBefore until it is zero or the visits end.
  function Pages(s: Inbox, before: nat, visits: seq<Visit>): seq<Row>
    decreases |visits|
  {
    if visits == [] then []
    else
      match Listed(s, Options(visits[0], before))
      case Err(_) => []
      case Ok(page) =>
        if page.next == 0 then page.rows
        else page.rows + Pages(Run(s, visits[0].later), page.next, visits[1..])
  }

  // The reading reached its last page.
  predicate Complete(s: Inbox, before: nat, visits: seq<Visit>)
    decreases |visits|
  {
    && visits != []
    && var page := Listed(s, Options(visits[0], before));
       page.Ok? && (page.value.next == 0 || Complete(Run(s, visits[0].later), page.value.next, visits[1..]))
  }

  predicate OnPage(rows: seq<Row>, sequence: nat) { exists j :: 0 <= j < |rows| && rows[j].sequence == sequence }

  // At every page requested up to its own, the message is stored and eligible for that request.
  predicate StaysEligible(s: Inbox, before: nat, visits: seq<Visit>, sequence: nat)
    decreases |visits|
  {
    visits == [] ||
    var page := Listed(s, Options(visits[0], before));
    && (exists i :: 0 <= i < |s.rows| && s.rows[i].sequence == sequence && Since(s.rows[i], visits[0].since)
                    && (visits[0].unreadOnly ==> s.rows[i].readAt == None))
    && (page.Ok? && page.value.next != 0 && !OnPage(page.value.rows, sequence) ==> StaysEligible(Run(s, visits[0].later), page.value.next, visits[1..], sequence))
  }

  predicate Descending(rows: seq<Row>) { forall i, j | 0 <= i < j < |rows| :: rows[i].sequence > rows[j].sequence }

  predicate Below(rows: seq<Row>, bound: nat) { forall i | 0 <= i < |rows| :: 1 <= rows[i].sequence < bound }

  lemma PageSound(s: Inbox, v: Visit, before: nat)
    requires Valid(s) && Listed(s, Options(v, before)).Ok?
    ensures var page := Listed(s, Options(v, before)).value;
            && Descending(page.rows)
            && Below(page.rows, if before == 0 then s.last + 1 else before)
            && (page.next != 0 ==> page.rows != [] && page.next == page.rows[|page.rows| - 1].sequence)
  {
    var found := Newest(s.rows, Options(v, before));
    NewestSound(s.rows, Options(v, before));
    forall i | 0 <= i < |found| ensures 1 <= found[i].sequence < (if before == 0 then s.last + 1 else before) {
      assert found[i] in found;
    }
  }

  // Over the whole reading the sequence descends strictly, so no message appears twice; and
  // a message stored after the first page appears on no later one.
  lemma {:induction false} PagesDescend(s: Inbox, before: nat, visits: seq<Visit>)
    requires Valid(s)
    ensures Descending(Pages(s, before, visits))
    ensures Below(Pages(s, before, visits), if before == 0 then s.last + 1 else before)
    decreases |visits|
  {
    if visits != [] && Listed(s, Options(visits[0], before)).Ok? {
      var page := Listed(s, Options(visits[0], before)).value;
      PageSound(s, visits[0], before);
      if page.next != 0 {
        ReachableInboxIsValid(s, visits[0].later);
        PagesDescend(Run(s, visits[0].later), page.next, visits[1..]);
        DescendOn(page.rows, Pages(Run(s, visits[0].later), page.next, visits[1..]), if before == 0 then s.last + 1 else before);
      }
    }
  }

  lemma DescendOn(rows: seq<Row>, more: seq<Row>, bound: nat)
    requires rows != [] && Descending(rows) && Below(rows, bound)
    requires Descending(more) && Below(more, rows[|rows| - 1].sequence)
    ensures Descending(rows + more) && Below(rows + more, bound)
  { }

  // Where a listed message stands once more pages follow.
  lemma StandsBehind(rows: seq<Row>, more: seq<Row>, sequence: nat)
    requires exists j :: 0 <= j < |more| && more[j].sequence == sequence
    ensures exists j :: 0 <= j < |rows + more| && (rows + more)[j].sequence == sequence
  {
    var j :| 0 <= j < |more| && more[j].sequence == sequence;
    assert (rows + more)[|rows| + j].sequence == sequence;
  }

  // A message that stays eligible is on this page or below its end.
  lemma OnThisPageOrBelow(s: Inbox, v: Visit, before: nat, sequence: nat, i: nat)
    requires Valid(s) && Listed(s, Options(v, before)).Ok?
    requires i < |s.rows| && s.rows[i].sequence == sequence && Since(s.rows[i], v.since)
    requires v.unreadOnly ==> s.rows[i].readAt == None
    requires before == 0 || sequence < before
    ensures var page := Listed(s, Options(v, before)).value;
            (exists j :: 0 <= j < |page.rows| && page.rows[j].sequence == sequence) || (page.next != 0 && sequence < page.next)
  {
    ListedIsPage(s, Options(v, before));
    assert s.rows[i] in s.rows && Asked(s.rows[i], Options(v, before));
  }

  lemma {:induction false} EligibleIsListed(s: Inbox, before: nat, visits: seq<Visit>, sequence: nat)
    requires Valid(s) && Complete(s, before, visits) && StaysEligible(s, before, visits, sequence)
    requires before == 0 || sequence < before
    ensures exists j :: 0 <= j < |Pages(s, before, visits)| && Pages(s, before, visits)[j].sequence == sequence
    decreases |visits|
  {
    var v := visits[0];
    var page := Listed(s, Options(v, before)).value;
    var i :| 0 <= i < |s.rows| && s.rows[i].sequence == sequence && Since(s.rows[i], v.since)
             && (v.unreadOnly ==> s.rows[i].readAt == None);
    OnThisPageOrBelow(s, v, before, sequence, i);
    var pages := Pages(s, before, visits);
    if j :| 0 <= j < |page.rows| && page.rows[j].sequence == sequence {
      assert pages[j].sequence == sequence;
    } else {
      ReachableInboxIsValid(s, v.later);
      var rest := Pages(Run(s, v.later), page.next, visits[1..]);
      EligibleIsListed(Run(s, v.later), page.next, visits[1..], sequence);
      StandsBehind(page.rows, rest, sequence);
    }
  }

  // A complete reading, with any transactions between its pages, lists every message that
  // stays eligible exactly once, in strictly descending order, and nothing stored after the
  // first page.
  lemma PagingListsExactlyOnce(s: Inbox, visits: seq<Visit>, sequence: nat)
    requires Valid(s) && Complete(s, 0, visits)
    ensures Descending(Pages(s, 0, visits)) && Below(Pages(s, 0, visits), s.last + 1)
    ensures StaysEligible(s, 0, visits, sequence) ==>
              exists j :: 0 <= j < |Pages(s, 0, visits)| && Pages(s, 0, visits)[j].sequence == sequence
                          && forall k | 0 <= k < |Pages(s, 0, visits)| && Pages(s, 0, visits)[k].sequence == sequence :: k == j
  {
    PagesDescend(s, 0, visits);
    if StaysEligible(s, 0, visits, sequence) {
      EligibleIsListed(s, 0, visits, sequence);
      var pages := Pages(s, 0, visits);
      var j :| 0 <= j < |pages| && pages[j].sequence == sequence;
      assert forall k | 0 <= k < |pages| && pages[k].sequence == sequence :: k == j;
    }
  }
}
