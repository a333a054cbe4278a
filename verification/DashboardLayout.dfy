/**
The saved dashboard layout, internal/adapters/sqlite/dashboard_layout.go:26-49 and 136-214: one
row, replaced only by a client that names the revision it read. How a document is written, read
back and validated is a parameter, and so is the change a client makes.
*/
module DashboardLayout {
  import opened Wrappers
  import opened Numerals

  const MaxRevision: nat := 0x7fff_ffff_ffff_ffff

  datatype Document = Document(widgets: string)

  datatype Codec = Codec(write: Document -> string, read: string -> Option<Document>, initial: Document)

  datatype Row = Row(version: int, revision: int, raw: string)

  // What a client is shown.
  datatype State = State(revision: nat, document: Document)

  datatype LayoutError = Unreadable | RevisionConflict | LimitExceeded | Unavailable | Refused

  type Change = State -> Result<Document, LayoutError>

  // `available` says whether the write lock was obtained and every statement went through.
  datatype Request = Request(expected: string, change: Change, available: bool)

  function Current(codec: Codec, row: Option<Row>): Result<State, LayoutError> {
    match row
    case None => Ok(State(0, codec.initial))
    case Some(stored) =>
      if stored.version != 1 || stored.revision < 1 || codec.read(stored.raw) == None then Err(Unreadable)
      else Ok(State(stored.revision, codec.read(stored.raw).value))
  }

  function Outcome(codec: Codec, row: Option<Row>, q: Request): Result<State, LayoutError> {
    var current := Current(codec, row);
    if !q.available then Err(Unavailable)
    else if current.Err? then current
    else if Decimal(current.value.revision) != q.expected then Err(RevisionConflict)
    else
      var document := q.change(current.value);
      if document.Err? then Err(document.error)
      else if codec.write(document.value) == codec.write(current.value.document) then current
      else if current.value.revision >= MaxRevision then Err(LimitExceeded)
      else Ok(State(current.value.revision + 1, document.value))
  }

  function Saved(codec: Codec, row: Option<Row>, q: Request): Option<Row> {
    var outcome := Outcome(codec, row, q);
    if outcome.Ok? && outcome != Current(codec, row)
    then Some(Row(1, outcome.value.revision, codec.write(outcome.value.document)))
    else row
  }

  // ---- what a request means ----

  // A client that reads the row is shown `s`: an absent row is revision zero of the initial document.
  ghost predicate Shows(codec: Codec, row: Option<Row>, s: State) {
    if row == None then s == State(0, codec.initial)
    else row.value.version == 1 && 1 <= row.value.revision == s.revision && codec.read(row.value.raw) == Some(s.document)
  }

  // The client named the revision shown, and its change writes another text.
  ghost predicate Changes(codec: Codec, s: State, q: Request) {
    q.expected == Decimal(s.revision) && q.change(s).Ok? && codec.write(q.change(s).value) != codec.write(s.document)
  }

  // The row changes exactly for such a request below the last revision. Of the others, one that
  // names another revision is a conflict, a refused change gives its own error, a change that
  // writes the same text is answered with what is shown, and the last revision is never passed.
  ghost predicate RequestAnswers(codec: Codec, row: Option<Row>, s: State, q: Request, next: Option<Row>, r: Result<State, LayoutError>) {
    && (next != row <==> Changes(codec, s, q) && s.revision < 0x7fff_ffff_ffff_ffff)
    && (next != row ==>
          var document := q.change(s).value;
          next == Some(Row(1, s.revision + 1, codec.write(document))) && r == Ok(State(s.revision + 1, document)))
    && (next == row ==>
          if q.expected != Decimal(s.revision) then r == Err(RevisionConflict)
          else if q.change(s).Err? then r == Err(q.change(s).error)
          else if Changes(codec, s, q) then r == Err(LimitExceeded)
          else r == Ok(s))
  }

  ghost predicate UpdateAnswers(codec: Codec, row: Option<Row>, q: Request, next: Option<Row>, r: Result<State, LayoutError>) {
    && (!q.available ==> r == Err(Unavailable) && next == row)
    && (q.available && (forall s :: !Shows(codec, row, s)) ==> r == Err(Unreadable) && next == row)
    && (q.available ==> forall s | Shows(codec, row, s) :: RequestAnswers(codec, row, s, q, next, r))
  }

  lemma CurrentIsShown(codec: Codec, row: Option<Row>)
    ensures Current(codec, row).Ok? ==> Shows(codec, row, Current(codec, row).value)
    ensures forall s :: Shows(codec, row, s) ==> Current(codec, row) == Ok(s)
    ensures Current(codec, row).Err? ==> Current(codec, row) == Err(Unreadable)
  { }

  lemma UpdateIsAnswered(codec: Codec, row: Option<Row>, q: Request)
    requires row.Some? ==> row.value.revision <= MaxRevision
    ensures UpdateAnswers(codec, row, q, Saved(codec, row, q), Outcome(codec, row, q))
  {
    CurrentIsShown(codec, row);
  }

  class LayoutStore {
    const codec: Codec
    var row: Option<Row>

    constructor (codec: Codec)
      ensures this.codec == codec && row == None
    {
      this.codec := codec;
      row := None;
    }

    method Update(q: Request) returns (r: Result<State, LayoutError>)
      requires row.Some? ==> row.value.revision <= MaxRevision
      modifies this`row
      ensures r == Outcome(codec, old(row), q)
      ensures row == Saved(codec, old(row), q)
      ensures UpdateAnswers(codec, old(row), q, row, r)
    {
      UpdateIsAnswered(codec, row, q);
      if !q.available { return Err(Unavailable); }
      var current := Current(codec, row);
      if current.Err? { return current; }
      if Decimal(current.value.revision) != q.expected { return Err(RevisionConflict); }
      var document := q.change(current.value);
      if document.Err? { return Err(document.error); }
      var raw := codec.write(document.value);
      if raw == codec.write(current.value.document) { return current; }
      var revision := current.value.revision;
      if revision == MaxRevision { return Err(LimitExceeded); }
      revision := revision + 1;
      row := Some(Row(1, revision, raw));
      return Ok(State(revision, document.value));
    }
  }

  // ---- runs ----

  function RevisionOf(row: Option<Row>): int { if row == None then 0 else row.value.revision }

  // The row before request i of a run.
  function Before(codec: Codec, qs: seq<Request>, i: nat): Option<Row>
    requires i <= |qs|
  {
    if i == 0 then None else Saved(codec, Before(codec, qs, i - 1), qs[i - 1])
  }

  // The request was computed from exactly what was there, and made it one revision newer.
  ghost predicate Commits(codec: Codec, row: Option<Row>, q: Request, next: Option<Row>) {
    var current := Current(codec, row);
    && current.Ok? && current.value.revision == RevisionOf(row) && q.expected == Decimal(RevisionOf(row))
    && q.change(current.value).Ok?
    && var document := q.change(current.value).value;
    && next == Some(Row(1, RevisionOf(row) + 1, codec.write(document)))
    && codec.write(document) != codec.write(current.value.document)
  }

  lemma {:induction false} RunRevision(codec: Codec, qs: seq<Request>, i: nat)
    requires i <= |qs|
    ensures var row := Before(codec, qs, i);
            row.Some? ==> row.value.version == 1 && 1 <= row.value.revision <= MaxRevision
  {
    if i > 0 { RunRevision(codec, qs, i - 1); }
  }

  // Each committed document is a client's change of the one just before it, committed exactly when
  // the client could reach the row, named its revision and asked for another text; every other
  // request leaves the row as it was.
  lemma EveryRequestExtendsTheChain(codec: Codec, qs: seq<Request>, i: nat)
    requires i < |qs|
    ensures var row, next := Before(codec, qs, i), Before(codec, qs, i + 1);
            && (next == row || Commits(codec, row, qs[i], next))
            && (next != row <==>
                  && qs[i].available && RevisionOf(row) < MaxRevision
                  && exists s :: Shows(codec, row, s) && Changes(codec, s, qs[i]))
  {
    RunRevision(codec, qs, i);
    CurrentIsShown(codec, Before(codec, qs, i));
    UpdateIsAnswered(codec, Before(codec, qs, i), qs[i]);
  }

  ghost function CommitCount(codec: Codec, qs: seq<Request>, i: nat, j: nat): nat
    requires i <= j <= |qs|
    decreases j
  {
    if i == j then 0
    else CommitCount(codec, qs, i, j - 1) + if Before(codec, qs, j) == Before(codec, qs, j - 1) then 0 else 1
  }

  // The revision counts the changes, so it never comes back to an earlier document.
  lemma {:induction false} RevisionCountsChanges(codec: Codec, qs: seq<Request>, i: nat, j: nat)
    requires i <= j <= |qs|
    ensures RevisionOf(Before(codec, qs, j)) == RevisionOf(Before(codec, qs, i)) + CommitCount(codec, qs, i, j)
    ensures RevisionOf(Before(codec, qs, i)) == RevisionOf(Before(codec, qs, j)) <==> Before(codec, qs, i) == Before(codec, qs, j)
    decreases j
  {
    if i < j {
      RevisionCountsChanges(codec, qs, i, j - 1);
      EveryRequestExtendsTheChain(codec, qs, j - 1);
    }
  }

  // A client that names a revision read before someone else's commit changes nothing.
  lemma StaleRevisionNeverOverwrites(codec: Codec, qs: seq<Request>, i: nat, j: nat)
    requires i <= j < |qs| && Current(codec, Before(codec, qs, i)).Ok?
    requires qs[j].expected == Decimal(Current(codec, Before(codec, qs, i)).value.revision)
    requires Before(codec, qs, i) != Before(codec, qs, j)
    ensures Before(codec, qs, j + 1) == Before(codec, qs, j)
    ensures qs[j].available && Current(codec, Before(codec, qs, j)).Ok? ==>
              Outcome(codec, Before(codec, qs, j), qs[j]) == Err(RevisionConflict)
  {
    RunRevision(codec, qs, i);
    RunRevision(codec, qs, j);
    RevisionCountsChanges(codec, qs, i, j);
    var earlier, now := Current(codec, Before(codec, qs, i)), Current(codec, Before(codec, qs, j));
    if now.Ok? && Decimal(now.value.revision) == qs[j].expected {
      DecimalInjective(earlier.value.revision, now.value.revision);
    }
  }

  // Two clients that read the same revision cannot both commit.
  lemma OneCommitPerRevision(codec: Codec, qs: seq<Request>, i: nat, j: nat)
    requires i < j < |qs| && qs[i].expected == qs[j].expected
    requires Before(codec, qs, i + 1) != Before(codec, qs, i)
    ensures Before(codec, qs, j + 1) == Before(codec, qs, j)
  {
    EveryRequestExtendsTheChain(codec, qs, i);
    RevisionCountsChanges(codec, qs, i + 1, j);
    EveryRequestExtendsTheChain(codec, qs, j);
    RunRevision(codec, qs, i);
    RunRevision(codec, qs, j);
    if Before(codec, qs, j + 1) != Before(codec, qs, j) {
      DecimalInjective(RevisionOf(Before(codec, qs, i)), RevisionOf(Before(codec, qs, j)));
    }
  }

  // What a commit answers is what the next reader sees, if written documents read back.
  lemma CommitIsReadBack(codec: Codec, row: Option<Row>, q: Request)
    requires Saved(codec, row, q) != row && Outcome(codec, row, q).Ok?
    requires forall d :: codec.read(codec.write(d)) == Some(d)
    ensures Current(codec, Saved(codec, row, q)) == Outcome(codec, row, q)
  { }

  // Every reader up to the next commit is shown what a commit answered, and the next commit is a
  // change of exactly that answer.
  lemma NextCommitStartsFromTheAnswer(codec: Codec, qs: seq<Request>, i: nat, j: nat)
    requires forall d :: codec.read(codec.write(d)) == Some(d)
    requires i < j < |qs| && Before(codec, qs, i + 1) != Before(codec, qs, i)
    requires RevisionOf(Before(codec, qs, j)) == RevisionOf(Before(codec, qs, i + 1))
    ensures var answer := Outcome(codec, Before(codec, qs, i), qs[i]);
            && answer.Ok? && Current(codec, Before(codec, qs, j)) == answer
            && (Before(codec, qs, j + 1) != Before(codec, qs, j) ==>
                  && qs[j].change(answer.value).Ok?
                  && Outcome(codec, Before(codec, qs, j), qs[j]) ==
                       Ok(State(answer.value.revision + 1, qs[j].change(answer.value).value)))
  {
    RevisionCountsChanges(codec, qs, i + 1, j);
    CommitIsReadBack(codec, Before(codec, qs, i), qs[i]);
    EveryRequestExtendsTheChain(codec, qs, j);
  }
}
