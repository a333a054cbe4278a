/**
The durable notification inbox (internal/adapters/sqlite/notifications.go).

Each transaction is one step on the table, kept in sequence order; a failing one rolls back.
Times are nanoseconds, cutoffs are seconds.  A `fault` stands for any database error.
*/
module NotificationInbox {
  import opened Wrappers

  datatype Key = Key(kind: string, source: string, connection: string, event: string)

  datatype Message = Message(key: Key, payload: string, service: string)

  datatype Row = Row(
    sequence: nat, id: string, key: Key, payload: string, received: int, readAt: Option<int>, service: string)

  // `last` is the AUTOINCREMENT counter, which outlives the rows.
  datatype Inbox = Inbox(rows: seq<Row>, last: nat)

  datatype Receipt = Receipt(id: string, createdAt: int, accepted: bool)

  datatype Error = Invalid | Conflict | Capacity | NotFound | Unavailable

  datatype ListOptions = ListOptions(before: nat, unreadOnly: bool, limit: int, since: int)

  datatype Page = Page(rows: seq<Row>, next: nat, unread: nat)

  const MaxInboxSize: nat := 10000
  const MaxPageSize: nat := 50
  const MaxSequence: nat := 0x7fff_ffff_ffff_ffff

  function Unix(t: int): int { t / 1_000_000_000 }

  predicate Live(row: Row, cutoff: int) { Unix(row.received) >= cutoff }

  // ---- the statements of notifications.sql ----

  function Find(rows: seq<Row>, key: Key): Option<Row> {
    if rows == [] then None else if rows[0].key == key then Some(rows[0]) else Find(rows[1..], key)
  }

  function FindId(rows: seq<Row>, id: string): Option<Row> {
    if rows == [] then None else if rows[0].id == id then Some(rows[0]) else FindId(rows[1..], id)
  }

  // DELETE ... WHERE unixepoch(received_at) < cutoff
  function Retained(rows: seq<Row>, cutoff: int): seq<Row> {
    if rows == [] then []
    else if Live(rows[0], cutoff) then [rows[0]] + Retained(rows[1..], cutoff) else Retained(rows[1..], cutoff)
  }

  // UPDATE ... SET service_id = ? WHERE id = ? AND service_id = ''
  function Fill(rows: seq<Row>, id: string, service: string): (r: seq<Row>)
    ensures |r| == |rows|
  {
    seq(|rows|, i requires 0 <= i < |rows| =>
      if rows[i].id == id && rows[i].service == "" then rows[i].(service := service) else rows[i])
  }

  function MarkRead(rows: seq<Row>, id: string, at: int): (r: seq<Row>)
    ensures |r| == |rows|
  {
    seq(|rows|, i requires 0 <= i < |rows| =>
      if rows[i].id == id && rows[i].readAt.None? then rows[i].(readAt := Some(at)) else rows[i])
  }

  function MarkAllRead(rows: seq<Row>, at: int, since: int): (r: seq<Row>)
    ensures |r| == |rows|
  {
    seq(|rows|, i requires 0 <= i < |rows| =>
      if rows[i].readAt.None? && Live(rows[i], since) then rows[i].(readAt := Some(at)) else rows[i])
  }

  predicate Eligible(row: Row, options: ListOptions) {
    && (options.before == 0 || row.sequence < options.before)
    && (options.unreadOnly ==> row.readAt.None?)
    && Live(row, options.since)
  }

  // ORDER BY sequence DESC, without the limit
  function Newest(rows: seq<Row>, options: ListOptions): seq<Row> {
    if rows == [] then []
    else
      var row, rest := rows[|rows| - 1], Newest(rows[..|rows| - 1], options);
      if Eligible(row, options) then [row] + rest else rest
  }

  function CountUnread(rows: seq<Row>, since: int): nat {
    if rows == [] then 0 else (if rows[0].readAt.None? && Live(rows[0], since) then 1 else 0) + CountUnread(rows[1..], since)
  }

  // ---- what each transaction does ----

  predicate Compatible(row: Row, m: Message) {
    row.payload == m.payload && (row.service == "" || m.service == "" || row.service == m.service)
  }

  function Published(s: Inbox, m: Message, received: int, cutoff: int, id: string, fault: bool): (Inbox, Result<Receipt, Error>) {
    var known := Find(s.rows, m.key);
    if fault then (s, Err(Unavailable))
    else if known.Some? && Live(known.value, cutoff) then
      if !Compatible(known.value, m) then (s, Err(Conflict))
      else (s.(rows := Fill(s.rows, known.value.id, m.service)), Ok(Receipt(known.value.id, known.value.received, false)))
    else
      var kept := if known.Some? || |s.rows| >= MaxInboxSize then Retained(s.rows, cutoff) else s.rows;
      if |kept| >= MaxInboxSize then (s, Err(Capacity))
      else if s.last >= MaxSequence || FindId(kept, id).Some? then (s, Err(Unavailable))
      else (Inbox(kept + [Row(s.last + 1, id, m.key, m.payload, received, None, m.service)], s.last + 1),
            Ok(Receipt(id, received, true)))
  }

  function Bound(s: Inbox, key: Key, service: string, cutoff: int, fault: bool): (Inbox, Result<Receipt, Error>) {
    var known := Find(s.rows, key);
    if fault then (s, Err(Unavailable))
    else if known.None? || !Live(known.value, cutoff) then (s, Err(NotFound))
    else if known.value.service != "" && known.value.service != service then (s, Err(Conflict))
    else (s.(rows := Fill(s.rows, known.value.id, service)), Ok(Receipt(known.value.id, known.value.received, false)))
  }

  function Listed(s: Inbox, options: ListOptions): Result<Page, Error> {
    if !(1 <= options.limit <= MaxPageSize) || options.before > MaxSequence then Err(Invalid)
    else
      var found, unread := Newest(s.rows, options), CountUnread(s.rows, options.since);
      Ok(if |found| > options.limit
         then Page(found[..options.limit], found[options.limit - 1].sequence, unread)
         else Page(found, 0, unread))
  }

  // ---- the invariant of the table ----

  predicate Ascending(rows: seq<Row>) { forall i, j | 0 <= i < j < |rows| :: rows[i].sequence < rows[j].sequence }

  predicate Distinct(rows: seq<Row>) {
    forall i, j | 0 <= i < j < |rows| :: rows[i].key != rows[j].key && rows[i].id != rows[j].id
  }

  // One row per source, connection and event; at most the capacity; issued sequences only.
  predicate Valid(s: Inbox) {
    && Ascending(s.rows) && Distinct(s.rows) && |s.rows| <= MaxInboxSize && s.last <= MaxSequence
    && (forall i | 0 <= i < |s.rows| :: 1 <= s.rows[i].sequence <= s.last)
  }

  lemma {:induction false} FindSound(rows: seq<Row>, key: Key)
    ensures Find(rows, key).Some? ==> Find(rows, key).value in rows && Find(rows, key).value.key == key
    ensures Find(rows, key).None? ==> forall i | 0 <= i < |rows| :: rows[i].key != key
  {
    if rows != [] { FindSound(rows[1..], key); }
  }

  lemma {:induction false} FindIdSound(rows: seq<Row>, id: string)
    ensures FindId(rows, id).None? ==> forall i | 0 <= i < |rows| :: rows[i].id != id
  {
    if rows != [] { FindIdSound(rows[1..], id); }
  }

  // Retained rows are the live ones, each still itself, in the old order.
  lemma {:induction false} RetainedSound(rows: seq<Row>, cutoff: int)
    ensures |Retained(rows, cutoff)| <= |rows|
    ensures forall row :: row in Retained(rows, cutoff) <==> row in rows && Live(row, cutoff)
    ensures Ascending(rows) ==> Ascending(Retained(rows, cutoff))
    ensures Distinct(rows) ==> Distinct(Retained(rows, cutoff))
  {
    if rows != [] {
      RetainedSound(rows[1..], cutoff);
      assert rows == [rows[0]] + rows[1..];
      var rest := Retained(rows[1..], cutoff);
      forall i | 0 <= i < |rest|
        ensures Ascending(rows) ==> rows[0].sequence < rest[i].sequence
        ensures Distinct(rows) ==> rows[0].key != rest[i].key && rows[0].id != rest[i].id
      {
        assert rest[i] in rows[1..];
      }
    }
  }

  lemma {:induction false} RetainedTwice(rows: seq<Row>, cutoff: int)
    ensures Retained(Retained(rows, cutoff), cutoff) == Retained(rows, cutoff)
  {
    if rows != [] {
      RetainedTwice(rows[1..], cutoff);
      if Live(rows[0], cutoff) {
        assert ([rows[0]] + Retained(rows[1..], cutoff))[1..] == Retained(rows[1..], cutoff);
      }
    }
  }

  // Newest lists exactly the eligible rows, the latest first.
  lemma {:induction false} NewestSound(rows: seq<Row>, options: ListOptions)
    ensures forall row :: row in Newest(rows, options) <==> row in rows && Eligible(row, options)
    ensures Ascending(rows) ==> forall i, j | 0 <= i < j < |Newest(rows, options)| ::
              Newest(rows, options)[i].sequence > Newest(rows, options)[j].sequence
  {
    if rows != [] {
      var init, row := rows[..|rows| - 1], rows[|rows| - 1];
      NewestSound(init, options);
      assert rows == init + [row];
      forall i | 0 <= i < |Newest(init, options)| && Ascending(rows)
        ensures Newest(init, options)[i].sequence < row.sequence
      {
        assert Newest(init, options)[i] in init;
      }
    }
  }

  // ---- what the answers mean, on the fields of the rows ----

  // The row was received at or after the cutoff second.
  predicate Since(row: Row, cutoff: int) { cutoff * 1_000_000_000 <= row.received }

  lemma LiveIsSince(row: Row, cutoff: int)
    ensures Live(row, cutoff) <==> Since(row, cutoff)
  { }

  function SincePlaces(rows: seq<Row>, cutoff: int): set<int> { set i | 0 <= i < |rows| && Since(rows[i], cutoff) }

  function UnreadPlaces(rows: seq<Row>, cutoff: int): set<int> {
    set i | 0 <= i < |rows| && rows[i].readAt == None && Since(rows[i], cutoff)
  }

  // A row the request asks for.
  predicate Asked(row: Row, options: ListOptions) {
    && (options.before != 0 ==> row.sequence < options.before)
    && (options.unreadOnly ==> row.readAt == None)
    && Since(row, options.since)
  }

  // The page shows rows that are stored and asked for, the latest first; any other such row is below
  // its end; and `next` tells of one exactly when there is one, on a full page.
  ghost predicate PageOf(rows: seq<Row>, options: ListOptions, page: Page) {
    && (forall row | row in page.rows :: row in rows && Asked(row, options))
    && (forall row | row in rows && Asked(row, options) :: row in page.rows || (page.next != 0 && row.sequence < page.next))
    && (forall i, j | 0 <= i < j < |page.rows| :: page.rows[i].sequence > page.rows[j].sequence)
    && |page.rows| <= options.limit
    && (page.next != 0 ==>
          && |page.rows| == options.limit > 0 && page.next == page.rows[options.limit - 1].sequence
          && exists row :: row in rows && Asked(row, options) && row.sequence < page.next)
    && page.unread == |UnreadPlaces(rows, options.since)|
  }

  lemma {:induction false} CountUnreadPlaces(rows: seq<Row>, cutoff: int)
    ensures CountUnread(rows, cutoff) == |UnreadPlaces(rows, cutoff)|
  {
    if rows != [] {
      var n := |rows| - 1;
      CountUnreadPlaces(rows[..n], cutoff);
      CountUnreadLast(rows[..n], rows[n], cutoff);
      LiveIsSince(rows[n], cutoff);
      assert rows == rows[..n] + [rows[n]];
      assert UnreadPlaces(rows, cutoff) ==
             UnreadPlaces(rows[..n], cutoff) + if rows[n].readAt == None && Since(rows[n], cutoff) then {n} else {};
    }
  }

  lemma {:induction false} CountUnreadLast(rows: seq<Row>, row: Row, cutoff: int)
    ensures CountUnread(rows + [row], cutoff) == CountUnread(rows, cutoff) + if row.readAt.None? && Live(row, cutoff) then 1 else 0
  {
    var all := rows + [row];
    if rows == [] {
      assert all[1..] == [];
    } else {
      assert all[1..] == rows[1..] + [row];
      CountUnreadLast(rows[1..], row, cutoff);
    }
  }

  lemma {:induction false} CountRetained(rows: seq<Row>, cutoff: int)
    ensures |Retained(rows, cutoff)| == |SincePlaces(rows, cutoff)|
  {
    if rows != [] {
      var n := |rows| - 1;
      CountRetained(rows[..n], cutoff);
      RetainedLast(rows[..n], rows[n], cutoff);
      LiveIsSince(rows[n], cutoff);
      assert rows == rows[..n] + [rows[n]];
      assert SincePlaces(rows, cutoff) == SincePlaces(rows[..n], cutoff) + if Since(rows[n], cutoff) then {n} else {};
    }
  }

  lemma {:induction false} RetainedLast(rows: seq<Row>, row: Row, cutoff: int)
    ensures Retained(rows + [row], cutoff) == Retained(rows, cutoff) + if Live(row, cutoff) then [row] else []
  {
    var all := rows + [row];
    if rows == [] {
      assert all[1..] == [];
    } else {
      assert all[1..] == rows[1..] + [row];
      RetainedLast(rows[1..], row, cutoff);
    }
  }

  lemma AskedIsEligible(row: Row, options: ListOptions)
    ensures Asked(row, options) <==> Eligible(row, options)
  {
    LiveIsSince(row, options.since);
  }

  // What is listed first and what is left for later pages.
  lemma NewestIsAsked(rows: seq<Row>, options: ListOptions)
    requires Ascending(rows)
    ensures var found := Newest(rows, options);
            && (forall row :: row in found <==> row in rows && Asked(row, options))
            && forall i, j | 0 <= i < j < |found| :: found[i].sequence > found[j].sequence
  {
    NewestSound(rows, options);
    forall row ensures row in Newest(rows, options) <==> row in rows && Asked(row, options) { AskedIsEligible(row, options); }
  }

  lemma CutIsPage(rows: seq<Row>, options: ListOptions, found: seq<Row>, unread: nat)
    requires forall row :: row in found <==> row in rows && Asked(row, options)
    requires forall i, j | 0 <= i < j < |found| :: found[i].sequence > found[j].sequence
    requires 1 <= options.limit < |found| && unread == |UnreadPlaces(rows, options.since)|
    requires found[options.limit - 1].sequence != 0
    ensures PageOf(rows, options, Page(found[..options.limit], found[options.limit - 1].sequence, unread))
  {
    var n := options.limit;
    forall row | row in found ensures row in found[..n] || row.sequence < found[n - 1].sequence {
      var k :| 0 <= k < |found| && found[k] == row;
      assert k < n ==> found[..n][k] == row;
    }
    assert found[n] in found;
  }

  // A listing answers what was asked.
  lemma ListedIsPage(s: Inbox, options: ListOptions)
    requires Valid(s)
    ensures Listed(s, options).Err? <==> options.limit < 1 || options.limit > 50 || options.before >= 0x8000_0000_0000_0000
    ensures Listed(s, options).Ok? ==> PageOf(s.rows, options, Listed(s, options).value)
  {
    var found := Newest(s.rows, options);
    NewestIsAsked(s.rows, options);
    CountUnreadPlaces(s.rows, options.since);
    if 1 <= options.limit < |found| {
      assert found[options.limit - 1] in s.rows;
      CutIsPage(s.rows, options, found, CountUnread(s.rows, options.since));
    }
  }

  ghost predicate HasKey(rows: seq<Row>, key: Key) { exists row :: row in rows && row.key == key }

  // A message whose row i is retained gets that row's answer, and fills its service reference if it
  // has none; another content or reference is refused.
  predicate Replayed(s: Inbox, m: Message, i: int, t: Inbox, r: Result<Receipt, Error>)
    requires 0 <= i < |s.rows|
  {
    var row := s.rows[i];
    if row.payload == m.payload && (row.service == "" || m.service == "" || row.service == m.service) then
      && r == Ok(Receipt(row.id, row.received, false)) && t.last == s.last
      && t.rows == s.rows[i := row.(service := if row.service == "" then m.service else row.service)]
    else r == Err(Conflict) && t == s
  }

  // Any other message is stored behind what is left of the table: everything, or when the table is
  // full or holds the message's own expired row, what is not expired.
  ghost predicate Stored(s: Inbox, m: Message, received: int, cutoff: int, id: string, t: Inbox, r: Result<Receipt, Error>) {
    var prune := HasKey(s.rows, m.key) || |s.rows| >= 10000;
    var left := if prune then |SincePlaces(s.rows, cutoff)| else |s.rows|;
    if left >= 10000 then r == Err(Capacity) && t == s
    else if s.last >= 0x7fff_ffff_ffff_ffff || (exists row :: row in s.rows && row.id == id && (prune ==> Since(row, cutoff))) then
      r == Err(Unavailable) && t == s
    else
      && r == Ok(Receipt(id, received, true)) && t.last == s.last + 1
      && |t.rows| == left + 1 && t.rows[left] == Row(s.last + 1, id, m.key, m.payload, received, None, m.service)
      && forall row :: row in t.rows[..left] <==> row in s.rows && (prune ==> Since(row, cutoff))
  }

  ghost predicate PublishAnswers(s: Inbox, m: Message, received: int, cutoff: int, id: string, t: Inbox, r: Result<Receipt, Error>) {
    && (forall i | 0 <= i < |s.rows| && s.rows[i].key == m.key && Since(s.rows[i], cutoff) :: Replayed(s, m, i, t, r))
    && ((forall row | row in s.rows && row.key == m.key :: !Since(row, cutoff)) ==> Stored(s, m, received, cutoff, id, t, r))
  }

  lemma FoundAt(rows: seq<Row>, key: Key, i: int)
    requires Distinct(rows) && 0 <= i < |rows| && rows[i].key == key
    ensures Find(rows, key) == Some(rows[i])
  {
    KeyIsUnique(rows, rows[i], key);
  }

  lemma FillAt(rows: seq<Row>, i: int, service: string)
    requires Distinct(rows) && 0 <= i < |rows|
    ensures Fill(rows, rows[i].id, service) ==
            rows[i := rows[i].(service := if rows[i].service == "" then service else rows[i].service)]
  { }

  lemma ReplayMeans(s: Inbox, m: Message, received: int, cutoff: int, id: string, i: int)
    requires Valid(s) && 0 <= i < |s.rows| && s.rows[i].key == m.key && Since(s.rows[i], cutoff)
    ensures var (t, r) := Published(s, m, received, cutoff, id, false); Replayed(s, m, i, t, r)
  {
    FoundAt(s.rows, m.key, i);
    LiveIsSince(s.rows[i], cutoff);
    FillAt(s.rows, i, m.service);
  }

  // What the table keeps when a message is stored.
  function Kept(rows: seq<Row>, cutoff: int, prune: bool): seq<Row> { if prune then Retained(rows, cutoff) else rows }

  lemma KeptMeans(rows: seq<Row>, cutoff: int, prune: bool)
    ensures |Kept(rows, cutoff, prune)| == if prune then |SincePlaces(rows, cutoff)| else |rows|
    ensures forall row :: row in Kept(rows, cutoff, prune) <==> row in rows && (prune ==> Since(row, cutoff))
  {
    CountRetained(rows, cutoff);
    RetainedSound(rows, cutoff);
    forall row ensures Live(row, cutoff) <==> Since(row, cutoff) { LiveIsSince(row, cutoff); }
  }

  lemma {:induction false} FindIdMeans(rows: seq<Row>, id: string)
    ensures FindId(rows, id).Some? <==> exists row :: row in rows && row.id == id
  {
    if rows != [] {
      FindIdMeans(rows[1..], id);
      assert forall row :: row in rows <==> row == rows[0] || row in rows[1..];
    }
  }

  lemma FindMeans(rows: seq<Row>, key: Key)
    ensures Find(rows, key).Some? <==> HasKey(rows, key)
  {
    FindSound(rows, key);
  }

  lemma StoreMeans(s: Inbox, m: Message, received: int, cutoff: int, id: string)
    requires Valid(s) && forall row | row in s.rows && row.key == m.key :: !Since(row, cutoff)
    ensures var (t, r) := Published(s, m, received, cutoff, id, false); Stored(s, m, received, cutoff, id, t, r)
  {
    FindSound(s.rows, m.key);
    FindMeans(s.rows, m.key);
    if HasKey(s.rows, m.key) { LiveIsSince(Find(s.rows, m.key).value, cutoff); }
    var prune := HasKey(s.rows, m.key) || |s.rows| >= 10000;
    KeptMeans(s.rows, cutoff, prune);
    FindIdMeans(Kept(s.rows, cutoff, prune), id);
  }

  // A publication answers and stores as promised.
  lemma PublishedAnswers(s: Inbox, m: Message, received: int, cutoff: int, id: string)
    requires Valid(s)
    ensures var (t, r) := Published(s, m, received, cutoff, id, false); PublishAnswers(s, m, received, cutoff, id, t, r)
  {
    forall i | 0 <= i < |s.rows| && s.rows[i].key == m.key && Since(s.rows[i], cutoff)
      ensures var (t, r) := Published(s, m, received, cutoff, id, false); Replayed(s, m, i, t, r)
    {
      ReplayMeans(s, m, received, cutoff, id, i);
    }
    if forall row | row in s.rows && row.key == m.key :: !Since(row, cutoff) { StoreMeans(s, m, received, cutoff, id); }
  }

  predicate Rebound(s: Inbox, service: string, i: int, t: Inbox, r: Result<Receipt, Error>)
    requires 0 <= i < |s.rows|
  {
    var row := s.rows[i];
    if row.service == "" || row.service == service then
      && r == Ok(Receipt(row.id, row.received, false)) && t.last == s.last
      && t.rows == s.rows[i := row.(service := service)]
    else r == Err(Conflict) && t == s
  }

  // A retained row takes the service if it has none or the same; without one there is nothing to bind.
  ghost predicate BindAnswers(s: Inbox, key: Key, service: string, cutoff: int, t: Inbox, r: Result<Receipt, Error>) {
    && (forall i | 0 <= i < |s.rows| && s.rows[i].key == key && Since(s.rows[i], cutoff) :: Rebound(s, service, i, t, r))
    && ((forall row | row in s.rows && row.key == key :: !Since(row, cutoff)) ==> r == Err(NotFound) && t == s)
  }

  lemma BoundAnswers(s: Inbox, key: Key, service: string, cutoff: int)
    requires Valid(s)
    ensures var (t, r) := Bound(s, key, service, cutoff, false); BindAnswers(s, key, service, cutoff, t, r)
  {
    forall i | 0 <= i < |s.rows| && s.rows[i].key == key && Since(s.rows[i], cutoff)
      ensures var (t, r) := Bound(s, key, service, cutoff, false); Rebound(s, service, i, t, r)
    {
      FoundAt(s.rows, key, i);
      LiveIsSince(s.rows[i], cutoff);
      FillAt(s.rows, i, service);
    }
    FindSound(s.rows, key);
    if Find(s.rows, key).Some? { LiveIsSince(Find(s.rows, key).value, cutoff); }
  }

  /** The store with its tables; every method is one transaction. */
  class NotificationStore {
    var rows: seq<Row>
    var last: nat

    constructor ()
      ensures State() == Inbox([], 0) && Consistent()
    {
      rows, last := [], 0;
    }

    ghost function State(): Inbox
      reads this
    {
      Inbox(rows, last)
    }

    ghost predicate Consistent()
      reads this
    {
      Valid(State())
    }

    method Publish(m: Message, received: int, cutoff: int, id: string, fault: bool) returns (r: Result<Receipt, Error>)
      requires Consistent()
      modifies this
      ensures fault ==> r == Err(Unavailable) && State() == old(State())
      ensures !fault ==> PublishAnswers(old(State()), m, received, cutoff, id, State(), r)
      ensures (State(), r) == Published(old(State()), m, received, cutoff, id, fault)
      ensures Consistent()
    {
      PublishedAnswers(State(), m, received, cutoff, id);
      r := PublishRow(m, received, cutoff, id, fault);
    }

    method PublishRow(m: Message, received: int, cutoff: int, id: string, fault: bool) returns (r: Result<Receipt, Error>)
      requires Consistent()
      modifies this
      ensures (State(), r) == Published(old(State()), m, received, cutoff, id, fault)
      ensures Consistent()
    {
      PublishedKeepsValid(State(), m, received, cutoff, id, fault);
      if fault { return Err(Unavailable); }
      var tx := rows;
      var existing := Find(tx, m.key);
      if existing.Some? {
        if Unix(existing.value.received) >= cutoff {
          if existing.value.payload != m.payload { return Err(Conflict); }
          if existing.value.service != "" && m.service != "" && existing.value.service != m.service { return Err(Conflict); }
          FindSound(tx, m.key);
          FillIdle(tx, existing.value);
          if existing.value.service == "" && m.service != "" {
            tx := Fill(tx, existing.value.id, m.service);
          }
          rows := tx;
          return Ok(Receipt(existing.value.id, existing.value.received, false));
        }
        tx := Retained(tx, cutoff);
      }
      var count := |tx|;
      if count >= MaxInboxSize {
        RetainedTwice(rows, cutoff);
        var removed := |tx| - |Retained(tx, cutoff)|;
        tx := Retained(tx, cutoff);
        if count - removed >= MaxInboxSize { return Err(Capacity); }
      }
      if last >= MaxSequence || FindId(tx, id).Some? { return Err(Unavailable); }
      last := last + 1;
      tx := tx + [Row(last, id, m.key, m.payload, received, None, "")];
      if m.service != "" {
        FillOnlyNew(tx, id, m.service);
        tx := Fill(tx, id, m.service);
      }
      rows := tx;
      return Ok(Receipt(id, received, true));
    }

    method BindService(key: Key, service: string, cutoff: int, fault: bool) returns (r: Result<Receipt, Error>)
      requires Consistent()
      modifies this
      ensures fault ==> r == Err(Unavailable) && State() == old(State())
      ensures !fault ==> BindAnswers(old(State()), key, service, cutoff, State(), r)
      ensures (State(), r) == Bound(old(State()), key, service, cutoff, fault)
      ensures Consistent()
    {
      BoundAnswers(State(), key, service, cutoff);
      BoundKeepsValid(State(), key, service, cutoff, fault);
      if fault { return Err(Unavailable); }
      var existing := Find(rows, key);
      if existing.None? { return Err(NotFound); }
      if Unix(existing.value.received) < cutoff { return Err(NotFound); }
      if existing.value.service != "" && existing.value.service != service { return Err(Conflict); }
      FindSound(rows, key);
      FillIdle(rows, existing.value);
      if existing.value.service == "" {
        rows := Fill(rows, existing.value.id, service);
      }
      return Ok(Receipt(existing.value.id, existing.value.received, false));
    }

    method List(options: ListOptions) returns (r: Result<Page, Error>)
      requires Consistent()
      ensures r == Err(Invalid) <==> options.limit < 1 || options.limit > 50 || options.before >= 0x8000_0000_0000_0000
      ensures r.Err? ==> r.error == Invalid
      ensures r.Ok? ==> PageOf(rows, options, r.value)
      ensures r == Listed(State(), options)
    {
      ListedIsPage(State(), options);
      var limit := options.limit;
      if limit < 1 || limit > MaxPageSize { return Err(Invalid); }
      if options.before > MaxSequence { return Err(Invalid); }
      var all := Newest(rows, options);
      var found := if |all| > limit + 1 then all[..limit + 1] else all;
      var next := 0;
      if |found| > limit {
        found := found[..limit];
        assert found == all[..limit];
        next := found[|found| - 1].sequence;
      }
      var page := [];
      for i := 0 to |found|
        invariant page == found[..i]
      {
        page := page + [found[i]];
      }
      assert page == found;
      return Ok(Page(page, next, CountUnread(rows, options.since)));
    }

    method MarkOneRead(id: string, at: int) returns (r: Result<(), Error>)
      requires Consistent()
      modifies this`rows
      ensures r == if exists row :: row in old(rows) && row.id == id then Ok(()) else Err(NotFound)
      ensures |rows| == |old(rows)|
      ensures forall i | 0 <= i < |rows| :: rows[i] ==
                if old(rows)[i].id == id && old(rows)[i].readAt == None then old(rows)[i].(readAt := Some(at)) else old(rows)[i]
      ensures State() == Inbox(MarkRead(old(rows), id, at), old(last)) && Consistent()
    {
      FindIdMeans(rows, id);
      FindIdSound(rows, id);
      if FindId(rows, id).None? { return Err(NotFound); }
      ReadKeepsValid(State(), MarkRead(rows, id, at));
      rows := MarkRead(rows, id, at);
      return Ok(());
    }

    method MarkEveryRead(at: int, since: int)
      requires Consistent()
      modifies this`rows
      ensures |rows| == |old(rows)|
      ensures forall i | 0 <= i < |rows| :: rows[i] ==
                if old(rows)[i].readAt == None && Since(old(rows)[i], since) then old(rows)[i].(readAt := Some(at)) else old(rows)[i]
      ensures State() == Inbox(MarkAllRead(old(rows), at, since), old(last)) && Consistent()
    {
      assert forall i | 0 <= i < |rows| :: Live(rows[i], since) <==> Since(rows[i], since);
      ReadKeepsValid(State(), MarkAllRead(rows, at, since));
      rows := MarkAllRead(rows, at, since);
    }

    method PruneExpired(since: int) returns (removed: nat)
      requires Consistent()
      modifies this
      ensures forall row :: row in rows <==> row in old(rows) && Since(row, since)
      ensures |rows| == |SincePlaces(old(rows), since)| && removed == |old(rows)| - |rows|
      ensures State() == Inbox(Retained(old(rows), since), old(last)) && Consistent()
    {
      KeptMeans(rows, since, true);
      RetainedSound(rows, since);
      RetainedKeepsValid(State(), since);
      removed := |rows| - |Retained(rows, since)|;
      rows := Retained(rows, since);
    }

    // One DELETE; the counter stays, so that a stale cursor never meets a new message.
    method ClearAll()
      requires Consistent()
      modifies this`rows
      ensures State() == Inbox([], old(last)) && Consistent()
    {
      rows := [];
    }
  }

  // A fill that finds nothing empty, or fills with nothing, changes nothing.
  lemma FillIdle(rows: seq<Row>, row: Row)
    requires row in rows && Distinct(rows)
    ensures Fill(rows, row.id, "") == rows
    ensures row.service != "" ==> forall service :: Fill(rows, row.id, service) == rows
  {
    var k :| 0 <= k < |rows| && rows[k] == row;
    assert forall i | 0 <= i < |rows| && rows[i].id == row.id :: i == k;
    if row.service != "" {
      forall service ensures Fill(rows, row.id, service) == rows {}
    }
  }

  lemma FillOnlyNew(rows: seq<Row>, id: string, service: string)
    requires |rows| > 0 && rows[|rows| - 1].id == id && rows[|rows| - 1].service == ""
    requires FindId(rows[..|rows| - 1], id).None?
    ensures Fill(rows, id, service) == rows[..|rows| - 1] + [rows[|rows| - 1].(service := service)]
  {
    FindIdSound(rows[..|rows| - 1], id);
  }

  lemma ReadKeepsValid(s: Inbox, rows: seq<Row>)
    requires Valid(s) && |rows| == |s.rows|
    requires forall i | 0 <= i < |rows| :: rows[i].(readAt := None) == s.rows[i].(readAt := None)
    ensures Valid(s.(rows := rows))
  {
    forall i | 0 <= i < |rows|
      ensures rows[i].key == s.rows[i].key && rows[i].id == s.rows[i].id && rows[i].sequence == s.rows[i].sequence
    {
      assert rows[i].(readAt := None).key == s.rows[i].(readAt := None).key;
    }
  }

  lemma FillKeepsValid(s: Inbox, id: string, service: string)
    requires Valid(s)
    ensures Valid(s.(rows := Fill(s.rows, id, service)))
  {
    var filled := Fill(s.rows, id, service);
    forall i | 0 <= i < |filled|
      ensures filled[i].key == s.rows[i].key && filled[i].id == s.rows[i].id && filled[i].sequence == s.rows[i].sequence {}
  }

  lemma RetainedKeepsValid(s: Inbox, cutoff: int)
    requires Valid(s)
    ensures Valid(s.(rows := Retained(s.rows, cutoff)))
  {
    RetainedSound(s.rows, cutoff);
    forall i | 0 <= i < |Retained(s.rows, cutoff)| ensures 1 <= Retained(s.rows, cutoff)[i].sequence <= s.last {
      assert Retained(s.rows, cutoff)[i] in s.rows;
    }
  }

  lemma AppendKeepsValid(s: Inbox, row: Row)
    requires Valid(s) && |s.rows| < MaxInboxSize && s.last < MaxSequence && row.sequence == s.last + 1
    requires forall i | 0 <= i < |s.rows| :: s.rows[i].key != row.key && s.rows[i].id != row.id
    ensures Valid(Inbox(s.rows + [row], s.last + 1))
  {
  }

  lemma PublishedKeepsValid(s: Inbox, m: Message, received: int, cutoff: int, id: string, fault: bool)
    requires Valid(s)
    ensures Valid(Published(s, m, received, cutoff, id, fault).0)
  {
    var known := Find(s.rows, m.key);
    FindSound(s.rows, m.key);
    if known.Some? && Live(known.value, cutoff) {
      FillKeepsValid(s, known.value.id, m.service);
    } else if !fault {
      InsertKeepsValid(s, m, received, cutoff, id);
    }
  }

  lemma InsertKeepsValid(s: Inbox, m: Message, received: int, cutoff: int, id: string)
    requires Valid(s) && (Find(s.rows, m.key).Some? ==> !Live(Find(s.rows, m.key).value, cutoff))
    ensures var full := Find(s.rows, m.key).Some? || |s.rows| >= MaxInboxSize;
            var kept := if full then Retained(s.rows, cutoff) else s.rows;
            |kept| < MaxInboxSize && s.last < MaxSequence && FindId(kept, id).None? ==>
              Valid(Inbox(kept + [Row(s.last + 1, id, m.key, m.payload, received, None, m.service)], s.last + 1))
  {
    RetainedKeepsValid(s, cutoff);
    var kept := if Find(s.rows, m.key).Some? || |s.rows| >= MaxInboxSize then Retained(s.rows, cutoff) else s.rows;
    FindIdSound(kept, id);
    KeptLacksKey(s, m.key, kept, cutoff);
    if |kept| < MaxInboxSize && s.last < MaxSequence && FindId(kept, id).None? {
      AppendKeepsValid(s.(rows := kept), Row(s.last + 1, id, m.key, m.payload, received, None, m.service));
    }
  }

  lemma KeptLacksKey(s: Inbox, key: Key, kept: seq<Row>, cutoff: int)
    requires Valid(s)
    requires if Find(s.rows, key).Some? then !Live(Find(s.rows, key).value, cutoff) && kept == Retained(s.rows, cutoff)
             else kept == s.rows || kept == Retained(s.rows, cutoff)
    ensures forall i | 0 <= i < |kept| :: kept[i].key != key
  {
    FindSound(s.rows, key);
    RetainedSound(s.rows, cutoff);
    forall i | 0 <= i < |kept| ensures kept[i].key != key {
      assert kept[i] in kept;
      assert kept[i] in s.rows;
      if kept[i].key == key { KeyIsUnique(s.rows, kept[i], key); }
    }
  }

  lemma KeyIsUnique(rows: seq<Row>, row: Row, key: Key)
    requires Distinct(rows) && row in rows && row.key == key
    ensures Find(rows, key) == Some(row)
  {
    FindSound(rows, key);
  }

  lemma BoundKeepsValid(s: Inbox, key: Key, service: string, cutoff: int, fault: bool)
    requires Valid(s)
    ensures Valid(Bound(s, key, service, cutoff, fault).0)
  {
    var known := Find(s.rows, key);
    if known.Some? { FillKeepsValid(s, known.value.id, service); }
  }
}
