/**
Agreement of the two sides when the calls on one connection reach the child's handler in the
order sent, as the host's session loop makes them (internal/adapters/plugins/runtime.go:109-147),
with any number of them outstanding; and what happens otherwise.
*/
module AuthorityOrder {
  import opened Wrappers
  import opened NotificationAuthority
  import opened AuthorityInvariant
  import opened AuthorityTheorems

  // The request whose call the child is inside of.
  function InHand(op: Op): Option<nat> {
    match op
    case Idle => None
    case Handling(r, _, _, _) => Some(r)
    case Rebound(r, _, _) => Some(r)
    case Cleaning(r, _, _, _) => r
  }

  // That request, once the child has acted on it.
  function Acting(op: Op): Option<nat> {
    match op
    case Rebound(r, _, _) => Some(r)
    case Cleaning(r, Accepted, _, _) => r
    case _ => None
  }

  predicate Begun(requests: seq<Request>, hand: Option<nat>, r: nat) {
    r < |requests| && (requests[r].outcome != Pending || hand == Some(r))
  }

  // Nothing sent later on the connection of r has reached the handler.
  predicate LatestBegun(requests: seq<Request>, hand: Option<nat>, r: nat) {
    r < |requests| ==>
      forall q: nat | r < q < |requests| && requests[q].conn == requests[r].conn :: !Begun(requests, hand, q)
  }

  // The discipline: calls on one connection are handled in the order sent.
  predicate InOrder(s: State, a: Action) {
    match a
    case Refuse(r) => LatestBegun(s.host.requests, InHand(s.child.op), r)
    case Begin(r) => LatestBegun(s.host.requests, InHand(s.child.op), r)
    case BeginClose(r) => LatestBegun(s.host.requests, InHand(s.child.op), r)
    case _ => true
  }

  // A run in that order without a shutdown.
  predicate OrderedRun(s: State, actions: seq<Action>)
    decreases |actions|
  {
    actions == [] ||
    (Enabled(s, actions[0]) && InOrder(s, actions[0]) && !actions[0].BeginShutdown? && OrderedRun(Apply(s, actions[0]), actions[1..]))
  }

  // The child has acted on the request: it answered, or will answer, that it accepted it.
  predicate Effective(requests: seq<Request>, op: Op, r: nat) {
    r < |requests| && (requests[r].outcome == Accepted || Acting(op) == Some(r))
  }

  predicate NoLaterEffect(requests: seq<Request>, op: Op, r: nat) {
    r < |requests| ==>
      forall q: nat | r < q < |requests| && requests[q].conn == requests[r].conn :: !Effective(requests, op, q)
  }

  // Of the requests on its connection since the last shutdown, r is the last that took effect;
  // `cut` are those that took effect before that shutdown.
  predicate LastEffect(requests: seq<Request>, op: Op, cut: set<nat>, r: nat) {
    Effective(requests, op, r) && r !in cut && NoLaterEffect(requests, op, r)
  }

  predicate IsApplied(requests: seq<Request>, applied: map<string, nat>, r: nat)
    requires r < |requests|
  {
    requests[r].conn in applied && applied[requests[r].conn] == r
  }

  // The child's history is a function of the requests.
  predicate Exact(requests: seq<Request>, op: Op, applied: map<string, nat>, cut: set<nat>) {
    forall r: nat | r < |requests| && requests[r].kind.Configure? ::
      IsApplied(requests, applied, r) <==> LastEffect(requests, op, cut, r)
  }

  predicate Answered(requests: seq<Request>, cut: set<nat>) {
    forall r | r in cut :: r < |requests| && requests[r].outcome == Accepted
  }

  predicate Order(requests: seq<Request>, op: Op, applied: map<string, nat>, cut: set<nat>) {
    && Answered(requests, cut)
    && (InHand(op).Some? ==> LatestBegun(requests, InHand(op), InHand(op).value))
    && Exact(requests, op, applied, cut)
  }

  predicate OrderOf(s: State, cut: set<nat>) { Order(s.host.requests, s.child.op, s.child.applied, cut) }

  // ---- steps that change no effect ----

  predicate SameCalls(before: seq<Request>, after: seq<Request>) {
    && |before| == |after|
    && forall r: nat | r < |before| :: before[r].conn == after[r].conn && before[r].kind == after[r].kind
  }

  predicate SameEffects(before: seq<Request>, op: Op, after: seq<Request>, next: Op) {
    && SameCalls(before, after)
    && forall r: nat | r < |before| :: Effective(before, op, r) == Effective(after, next, r)
  }

  lemma LastEffectKept(before: seq<Request>, op: Op, after: seq<Request>, next: Op, cut: set<nat>, r: nat)
    requires SameEffects(before, op, after, next) && r < |before|
    ensures LastEffect(before, op, cut, r) == LastEffect(after, next, cut, r)
  {
    assert forall q: nat | q < |before| :: Effective(before, op, q) == Effective(after, next, q);
  }

  lemma ExactKept(before: seq<Request>, op: Op, after: seq<Request>, next: Op, applied: map<string, nat>, cut: set<nat>)
    requires Exact(before, op, applied, cut) && SameEffects(before, op, after, next)
    ensures Exact(after, next, applied, cut)
  {
    forall r: nat | r < |after| && after[r].kind.Configure?
      ensures IsApplied(after, applied, r) <==> LastEffect(after, next, cut, r)
    {
      LastEffectKept(before, op, after, next, cut, r);
      assert IsApplied(before, applied, r) == IsApplied(after, applied, r);
    }
  }

  lemma LatestBegunKept(before: seq<Request>, hand: Option<nat>, after: seq<Request>, next: Option<nat>, r: nat)
    requires SameCalls(before, after)
    requires forall q: nat | q < |before| && q != r :: Begun(after, next, q) ==> Begun(before, hand, q)
    ensures LatestBegun(before, hand, r) ==> LatestBegun(after, next, r)
  { }

  lemma SendKeepsOrder(requests: seq<Request>, op: Op, applied: map<string, nat>, cut: set<nat>, req: Request)
    requires Order(requests, op, applied, cut) && req.outcome == Pending
    requires InHand(op).Some? ==> InHand(op).value < |requests|
    requires forall k | k in applied :: applied[k] < |requests|
    ensures Order(requests + [req], op, applied, cut)
  {
    var after := requests + [req];
    forall q: nat | q < |after|
      ensures Effective(after, op, q) == Effective(requests, op, q) && Begun(after, InHand(op), q) == Begun(requests, InHand(op), q)
    { }
    forall r: nat | r < |after| && after[r].kind.Configure?
      ensures IsApplied(after, applied, r) <==> LastEffect(after, op, cut, r)
    {
      if r < |requests| {
        SentLater(requests, op, cut, req, r);
        assert IsApplied(after, applied, r) == IsApplied(requests, applied, r);
      }
    }
  }

  lemma SentLater(requests: seq<Request>, op: Op, cut: set<nat>, req: Request, r: nat)
    requires r < |requests| && req.outcome == Pending && (Acting(op).Some? ==> Acting(op).value < |requests|)
    ensures LastEffect(requests + [req], op, cut, r) == LastEffect(requests, op, cut, r)
  {
    var after := requests + [req];
    assert forall q: nat | q < |requests| :: after[q] == requests[q] && Effective(after, op, q) == Effective(requests, op, q);
  }

  lemma ReturnKeepsOrder(requests: seq<Request>, op: Op, applied: map<string, nat>, cut: set<nat>, k: nat)
    requires Order(requests, op, applied, cut) && k < |requests|
    ensures Order(requests[k := requests[k].(waiting := false)], op, applied, cut)
  {
    var after := requests[k := requests[k].(waiting := false)];
    ExactKept(requests, op, after, op, applied, cut);
    if InHand(op).Some? { LatestBegunKept(requests, InHand(op), after, InHand(op), InHand(op).value); }
  }

  // The child starts on a request, or goes on without acting on it.
  lemma IdleOpKeepsOrder(requests: seq<Request>, op: Op, next: Op, applied: map<string, nat>, cut: set<nat>)
    requires Order(requests, op, applied, cut) && Acting(next) == Acting(op)
    requires InHand(next).Some? ==> LatestBegun(requests, InHand(next), InHand(next).value)
    ensures Order(requests, next, applied, cut)
  {
    ExactKept(requests, op, requests, next, applied, cut);
  }

  lemma TakenIsLatest(requests: seq<Request>, k: nat)
    requires LatestBegun(requests, None, k)
    ensures LatestBegun(requests, Some(k), k)
  { }

  lemma AnswerKeepsOrder(requests: seq<Request>, op: Op, applied: map<string, nat>, cut: set<nat>, k: nat, outcome: Outcome)
    requires Order(requests, op, applied, cut) && k < |requests| && requests[k].outcome == Pending && outcome != Pending
    requires outcome == Accepted <==> Acting(op) == Some(k)
    requires Acting(op).Some? ==> Acting(op).value == k
    ensures Order(Answer(requests, k, outcome), Idle, applied, cut)
  {
    ExactKept(requests, op, Answer(requests, k, outcome), Idle, applied, cut);
  }

  // ---- the step at which the child acts ----

  predicate AppliedNext(requests: seq<Request>, k: nat, applied: map<string, nat>, next: map<string, nat>)
    requires k < |requests|
  {
    next == if requests[k].kind.Configure? then applied[requests[k].conn := k] else applied - {requests[k].conn}
  }

  lemma EffectOfOne(requests: seq<Request>, op: Op, next: Op, cut: set<nat>, k: nat, r: nat)
    requires Acting(op) == None && Acting(next) == Some(k) && k < |requests| && requests[k].outcome == Pending
    requires LatestBegun(requests, Some(k), k) && r < |requests| && k !in cut
    ensures if requests[r].conn == requests[k].conn then LastEffect(requests, next, cut, r) <==> r == k
            else LastEffect(requests, next, cut, r) == LastEffect(requests, op, cut, r)
  {
    forall q: nat | q < |requests| ensures Effective(requests, next, q) == (Effective(requests, op, q) || q == k) { }
    forall q: nat | k < q < |requests| && requests[q].conn == requests[k].conn ensures !Effective(requests, next, q) {
      assert !Begun(requests, Some(k), q);
    }
    if requests[r].conn == requests[k].conn && r < k { assert Effective(requests, next, k); }
  }

  lemma ActKeepsOrder(requests: seq<Request>, op: Op, next: Op, applied: map<string, nat>, after: map<string, nat>, cut: set<nat>, k: nat)
    requires Order(requests, op, applied, cut) && k < |requests| && requests[k].outcome == Pending
    requires Acting(op) == None && Acting(next) == Some(k) && LatestBegun(requests, Some(k), k)
    requires AppliedNext(requests, k, applied, after)
    ensures Order(requests, next, after, cut)
  {
    assert InHand(next) == Some(k);
    forall r: nat | r < |requests| && requests[r].kind.Configure?
      ensures IsApplied(requests, after, r) <==> LastEffect(requests, next, cut, r)
    {
      EffectOfOne(requests, op, next, cut, k, r);
      assert requests[r].conn != requests[k].conn ==> IsApplied(requests, after, r) == IsApplied(requests, applied, r);
    }
  }

  // ---- every step ----

  // What the order of calls needs to know of the child.
  predicate HandSane(c: Child, requests: seq<Request>) {
    && (InHand(c.op).Some? ==> InHand(c.op).value < |requests| && requests[InHand(c.op).value].outcome == Pending)
    && (c.op.Cleaning? ==> c.op.outcome != Pending)
    && (c.op.Handling? || c.op.Rebound? ==> requests[c.op.req].kind.Configure?)
    && forall k | k in c.applied :: c.applied[k] < |requests|
  }

  lemma ChildInvIsSane(c: Child, requests: seq<Request>)
    requires ChildInv(c, requests)
    ensures HandSane(c, requests)
  {
  }

  lemma OrderKeptByHost(s: State, a: Action, cut: set<nat>)
    requires HandSane(s.child, s.host.requests) && OrderOf(s, cut) && Enabled(s, a) && (SendsOrStops(a) || MovesRegistration(a))
    ensures OrderOf(Apply(s, a), cut)
  {
    var q, op, applied := s.host.requests, s.child.op, s.child.applied;
    match a
    case SendConfigure(conn, revision, grant) =>
      SendKeepsOrder(q, op, applied, cut, Request(conn, Configure(revision, grant), true, Pending));
    case SendClose(conn) => SendKeepsOrder(q, op, applied, cut, Request(conn, CloseConnection, true, Pending));
    case GiveUp(r) => ReturnKeepsOrder(q, op, applied, cut, r);
    case Acknowledge(r) => ReturnKeepsOrder(q, op, applied, cut, r);
    case CloseReply(r) => ReturnKeepsOrder(q, op, applied, cut, r);
    case _ =>
  }

  // What a child step does to its operation and history, and nothing more.
  lemma OrderKeptByChild(s: State, a: Action, cut: set<nat>)
    requires HandSane(s.child, s.host.requests) && OrderOf(s, cut) && Enabled(s, a) && InOrder(s, a)
    requires !SendsOrStops(a) && !MovesRegistration(a) && !a.BeginShutdown?
    ensures OrderOf(Apply(s, a), cut)
  {
    match a
    case Refuse(r) => AnswerKeepsOrder(s.host.requests, Idle, s.child.applied, cut, r, Rejected);
    case Begin(r) => BeginKeepsOrder(s, r, cut);
    case BeginClose(r) => BeginCloseKeepsOrder(s, r, cut);
    case HandlerKeeps => ActsKeepOrder(s, a, cut);
    case Rebind => ActsKeepOrder(s, a, cut);
    case Replace => ActsKeepOrder(s, a, cut);
    case Finish => FinishKeepsOrder(s, cut);
    case _ => QuietStepKeepsOrder(s, a, cut);
  }

  lemma BeginKeepsOrder(s: State, r: nat, cut: set<nat>)
    requires OrderOf(s, cut) && Enabled(s, Begin(r)) && InOrder(s, Begin(r))
    ensures OrderOf(Apply(s, Begin(r)), cut)
  {
    TakenIsLatest(s.host.requests, r);
    IdleOpKeepsOrder(s.host.requests, s.child.op, Apply(s, Begin(r)).child.op, s.child.applied, cut);
  }

  lemma BeginCloseKeepsOrder(s: State, r: nat, cut: set<nat>)
    requires OrderOf(s, cut) && Enabled(s, BeginClose(r)) && InOrder(s, BeginClose(r))
    ensures OrderOf(Apply(s, BeginClose(r)), cut)
  {
    TakenIsLatest(s.host.requests, r);
    var c := Apply(s, BeginClose(r)).child;
    ActKeepsOrder(s.host.requests, s.child.op, c.op, s.child.applied, c.applied, cut, r);
  }

  predicate Acts(a: Action) { a.HandlerKeeps? || a.Rebind? || a.Replace? }

  lemma ActsKeepOrder(s: State, a: Action, cut: set<nat>)
    requires HandSane(s.child, s.host.requests) && OrderOf(s, cut) && Enabled(s, a) && Acts(a)
    ensures OrderOf(Apply(s, a), cut)
  {
    var c := Apply(s, a).child;
    ActKeepsOrder(s.host.requests, s.child.op, c.op, s.child.applied, c.applied, cut, s.child.op.req);
  }

  predicate QuietStep(a: Action) {
    a.HandlerRejects? || a.RebindRefused? || a.Swap? || a.Revoke? || a.CloseSession? || a.BeginCall? || a.EndCall?
  }

  lemma QuietStepKeepsOrder(s: State, a: Action, cut: set<nat>)
    requires OrderOf(s, cut) && Enabled(s, a) && QuietStep(a)
    ensures OrderOf(Apply(s, a), cut)
  {
    var c := Apply(s, a).child;
    assert InHand(c.op) == InHand(s.child.op) && Acting(c.op) == Acting(s.child.op);
    IdleOpKeepsOrder(s.host.requests, s.child.op, c.op, s.child.applied, cut);
  }

  lemma FinishKeepsOrder(s: State, cut: set<nat>)
    requires HandSane(s.child, s.host.requests) && OrderOf(s, cut) && Enabled(s, Finish)
    ensures OrderOf(Apply(s, Finish), cut)
  {
    var c := s.child;
    if c.op.request.Some? {
      AnswerKeepsOrder(s.host.requests, c.op, c.applied, cut, c.op.request.value, c.op.outcome);
    } else {
      IdleOpKeepsOrder(s.host.requests, c.op, Idle, c.applied, cut);
    }
  }

  lemma {:induction false} OrderedRunKeeps(s: State, actions: seq<Action>, cut: set<nat>)
    requires Inv(s) && OrderOf(s, cut) && OrderedRun(s, actions)
    ensures Run(s, actions) && Inv(After(s, actions)) && OrderOf(After(s, actions), cut)
    decreases |actions|
  {
    if actions != [] {
      var a := actions[0];
      ChildInvIsSane(s.child, s.host.requests);
      if SendsOrStops(a) || MovesRegistration(a) { OrderKeptByHost(s, a, cut); } else { OrderKeptByChild(s, a, cut); }
      StepKeeps(s, a);
      OrderedRunKeeps(Apply(s, a), actions[1..], cut);
    }
  }

  // ---- the two sides ----

  // What took effect up to a state between operations.
  function Done(s: State): set<nat> { set r: nat | r < |s.host.requests| && s.host.requests[r].outcome == Accepted }

  // A run up to its last shutdown, or none at all.
  predicate UpToShutdown(before: seq<Action>) { before == [] || before[|before| - 1].BeginShutdown? }

  // After a shutdown, as at the start, nothing that took effect earlier counts.
  lemma ShutdownStartsOver(before: seq<Action>)
    requires Run(Initial, before) && UpToShutdown(before)
    ensures Inv(After(Initial, before)) && OrderOf(After(Initial, before), Done(After(Initial, before)))
  {
    RunKeeps(Initial, before);
    ShutdownForgets(before);
    NothingApplied(After(Initial, before));
  }

  lemma ShutdownForgets(before: seq<Action>)
    requires Run(Initial, before) && UpToShutdown(before)
    ensures var c := After(Initial, before).child; c.applied == map[] && InHand(c.op) == None && Acting(c.op) == None
  {
    if before != [] {
      var front := before[..|before| - 1];
      assert before == front + [BeginShutdown];
      LastAction(Initial, front, BeginShutdown);
    }
  }

  lemma NothingApplied(s: State)
    requires s.child.applied == map[] && InHand(s.child.op) == None && Acting(s.child.op) == None
    ensures OrderOf(s, Done(s))
  { }

  lemma {:induction false} LastAction(s: State, front: seq<Action>, a: Action)
    requires Run(s, front + [a])
    ensures Run(s, front) && Enabled(After(s, front), a) && After(s, front + [a]) == Apply(After(s, front), a)
    decreases |front|
  {
    if front == [] {
      assert (front + [a])[0] == a && (front + [a])[1..] == [];
    } else {
      assert (front + [a])[0] == front[0] && (front + [a])[1..] == front[1..] + [a];
      LastAction(Apply(s, front[0]), front[1..], a);
    }
  }

  // In every run handled in the order sent the child dials, for each connection, the callback of
  // the request that last took effect on it since the last shutdown.
  lemma DialsLastEffect(before: seq<Action>, later: seq<Action>, conn: string, r: nat)
    requires Run(Initial, before) && UpToShutdown(before) && OrderedRun(After(Initial, before), later)
    ensures Run(After(Initial, before), later)
    ensures var mid, s := After(Initial, before), After(After(Initial, before), later);
            Dials(s.child, conn) == Some(r) <==>
              && r < |s.host.requests| && s.host.requests[r].conn == conn && Granted(s.host.requests[r])
              && LastEffect(s.host.requests, s.child.op, Done(mid), r)
  {
    var mid := After(Initial, before);
    ShutdownStartsOver(before);
    OrderedRunKeeps(mid, later, Done(mid));
    var s := After(mid, later);
    DialsApplied(s.child, s.host.requests, conn, r);
    if r < |s.host.requests| && s.host.requests[r].kind.Configure? {
      assert IsApplied(s.host.requests, s.child.applied, r) <==> LastEffect(s.host.requests, s.child.op, Done(mid), r);
    }
  }

  lemma DialsApplied(c: Child, requests: seq<Request>, conn: string, r: nat)
    requires AppliedDialed(c, requests)
    ensures Dials(c, conn) == Some(r) <==>
              r < |requests| && requests[r].conn == conn && Granted(requests[r]) && IsApplied(requests, c.applied, r)
  { }

  // An acknowledged Configure is registered, and both sides are on its live callback if and only
  // if it took effect after the last shutdown and no later request on the connection has.
  lemma OrderedAcknowledgementAgrees(before: seq<Action>, later: seq<Action>, r: nat)
    requires Run(Initial, before) && UpToShutdown(before) && OrderedRun(After(Initial, before), later)
    ensures Run(After(Initial, before), later)
    ensures var mid, s := After(Initial, before), After(After(Initial, before), later);
            Enabled(s, Acknowledge(r)) ==>
              var t := Apply(s, Acknowledge(r));
              var req := t.host.requests[r];
              if req.kind.grant then
                && RegisteredFor(t.host, req.conn, r) && r in t.host.live && r !in t.host.stopping
                && (Dials(t.child, req.conn) == Some(r) <==>
                      r !in Done(mid) && NoLaterEffect(s.host.requests, s.child.op, r))
              else
                && req.conn !in t.host.registered
                && (r !in Done(mid) && NoLaterEffect(s.host.requests, s.child.op, r) ==> Dials(t.child, req.conn) == None)
  {
    var mid := After(Initial, before);
    ShutdownStartsOver(before);
    OrderedRunKeeps(mid, later, Done(mid));
    var s := After(mid, later);
    if Enabled(s, Acknowledge(r)) {
      RunJoined(Initial, before, later);
      AcknowledgedInOrder(s, r, Done(mid));
    }
  }

  lemma AcknowledgedInOrder(s: State, r: nat, cut: set<nat>)
    requires Reachable(s) && OrderOf(s, cut) && Enabled(s, Acknowledge(r))
    ensures var t := Apply(s, Acknowledge(r));
            var req := t.host.requests[r];
            var last := r !in cut && NoLaterEffect(s.host.requests, s.child.op, r);
            if req.kind.grant then
              && RegisteredFor(t.host, req.conn, r) && r in t.host.live && r !in t.host.stopping
              && (Dials(t.child, req.conn) == Some(r) <==> last)
            else
              req.conn !in t.host.registered && (last ==> Dials(t.child, req.conn) == None)
  {
    AcknowledgedSidesAgree(s, r);
    assert IsApplied(s.host.requests, s.child.applied, r) <==> LastEffect(s.host.requests, s.child.op, cut, r);
  }

  lemma {:induction false} RunJoined(s: State, before: seq<Action>, later: seq<Action>)
    requires Run(s, before) && Run(After(s, before), later)
    ensures Run(s, before + later) && After(s, before + later) == After(After(s, before), later)
    decreases |before|
  {
    if before == [] {
      assert before + later == later;
    } else {
      assert (before + later)[0] == before[0] && (before + later)[1..] == before[1..] + later;
      RunJoined(Apply(s, before[0]), before[1..], later);
    }
  }

  // ---- handled in order, acknowledged in another ----

  lemma {:induction false} Extend(s: State, actions: seq<Action>, a: Action)
    requires Run(s, actions) && OrderedRun(s, actions)
    requires Enabled(After(s, actions), a) && InOrder(After(s, actions), a) && !a.BeginShutdown?
    ensures Run(s, actions + [a]) && OrderedRun(s, actions + [a]) && After(s, actions + [a]) == Apply(After(s, actions), a)
    decreases |actions|
  {
    if actions == [] {
      assert (actions + [a])[1..] == [];
    } else {
      assert (actions + [a])[1..] == actions[1..] + [a];
      Extend(Apply(s, actions[0]), actions[1..], a);
    }
  }

  // Without the discipline the sides can part: two Configures of one connection in flight at
  // once, acknowledged in the other order than handled.
  lemma ReorderedAcknowledgementsPart() returns (actions: seq<Action>)
    ensures Run(Initial, actions) && OrderedRun(Initial, actions)
    ensures var s := After(Initial, actions); RegisteredFor(s.host, "c", 0) && Dials(s.child, "c") == Some(1)
  {
    actions := HandledTwice();
    Extend(Initial, actions, Acknowledge(1));
    Extend(Initial, actions + [Acknowledge(1)], Acknowledge(0));
    actions := actions + [Acknowledge(1)] + [Acknowledge(0)];
  }

  const Asked := Request("c", Configure("1", true), true, Pending)

  lemma HandledOnce() returns (actions: seq<Action>)
    ensures Run(Initial, actions) && OrderedRun(Initial, actions)
    ensures var s := After(Initial, actions);
            && s.host == Host([Asked.(outcome := Accepted), Asked], map[], {0, 1}, {}, false)
            && s.child.sessions == [Session(0, true)] && s.child.bindings == [Binding("1", Some(0), Some(0), false)]
            && s.child.table == map["c" := 0] && s.child.calls == map[] && s.child.op == Idle
  {
    var send := SendConfigure("c", "1", true);
    actions := [];
    Extend(Initial, actions, send); actions := actions + [send];
    Extend(Initial, actions, send); actions := actions + [send];
    Extend(Initial, actions, Begin(0)); actions := actions + [Begin(0)];
    Extend(Initial, actions, Replace); actions := actions + [Replace];
    Extend(Initial, actions, Finish); actions := actions + [Finish];
  }

  lemma Rebound() returns (actions: seq<Action>)
    ensures Run(Initial, actions) && OrderedRun(Initial, actions)
    ensures var s := After(Initial, actions);
            && s.host == Host([Asked.(outcome := Accepted), Asked], map[], {0, 1}, {}, false)
            && s.child.sessions == [Session(0, true), Session(1, true)]
            && s.child.bindings == [Binding("1", Some(0), Some(1), false)]
            && s.child.table == map["c" := 0] && s.child.calls == map[] && s.child.op == Op.Rebound(1, 0, 1)
  {
    actions := HandledOnce();
    Extend(Initial, actions, Begin(1)); actions := actions + [Begin(1)];
    Extend(Initial, actions, Rebind); actions := actions + [Rebind];
  }

  lemma HandledTwice() returns (actions: seq<Action>)
    ensures Run(Initial, actions) && OrderedRun(Initial, actions)
    ensures var s := After(Initial, actions);
            && s.host.requests == [Asked.(outcome := Accepted), Asked.(outcome := Accepted)]
            && Dials(s.child, "c") == Some(1)
  {
    actions := Rebound();
    Extend(Initial, actions, Swap); actions := actions + [Swap];
    Extend(Initial, actions, CloseSession(0)); actions := actions + [CloseSession(0)];
    Extend(Initial, actions, Finish); actions := actions + [Finish];
  }
}
