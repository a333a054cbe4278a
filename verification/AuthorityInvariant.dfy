/**
What every step of the authority protocol keeps.  Host steps are framed away from the child
by one lemma; each child step has its own.
*/
module AuthorityInvariant {
  import opened Wrappers
  import opened NotificationAuthority

  predicate Within(o: Option<nat>, n: nat) { o.Some? ==> o.value < n }

  predicate OpInRange(op: Op, sessions: nat, bindings: nat, requests: nat) {
    match op
    case Idle => true
    case Handling(r, _, b, x) => r < requests && b < bindings && Within(x, sessions)
    case Rebound(r, b, x) => r < requests && b < bindings && x < sessions
    case Cleaning(r, _, retire, closing) =>
      Within(r, requests) && (forall b | b in retire :: b < bindings) && (forall x | x in closing :: x < sessions)
  }

  // Indices stay inside the heap.
  predicate InRange(c: Child, requests: seq<Request>) {
    && (forall k | k in c.table :: c.table[k] < |c.bindings|)
    && (forall b: nat | b < |c.bindings| ::
          Within(c.bindings[b].session, |c.sessions|) && Within(c.bindings[b].target, |c.sessions|))
    && (forall x: nat | x < |c.sessions| :: c.sessions[x].callback < |requests|)
    && OpInRange(c.op, |c.sessions|, |c.bindings|, |requests|)
  }

  predicate Untargeted(c: Child, x: nat) { forall b: nat | b < |c.bindings| :: c.bindings[b].target != Some(x) }

  // A publisher that can send owns an open session of its own.
  predicate Exclusive(c: Child, requests: seq<Request>)
    requires InRange(c, requests)
  {
    && (forall b: nat | b < |c.bindings| && c.bindings[b].target.Some? ::
          !c.bindings[b].revoked && c.sessions[c.bindings[b].target.value].open)
    && (forall b: nat, d: nat | b < d < |c.bindings| && c.bindings[b].target.Some? ::
          c.bindings[b].target != c.bindings[d].target)
  }

  // A binding whose publisher and session agree.
  predicate Settled(b: Binding) { !b.revoked && b.session == b.target }

  // No binding in the table is revoked, and no two connections share one.
  predicate TableSettled(c: Child, requests: seq<Request>)
    requires InRange(c, requests)
  {
    && (forall k | k in c.table ::
          && !c.bindings[c.table[k]].revoked
          && ((c.op.Rebound? && c.op.binding == c.table[k]) || Settled(c.bindings[c.table[k]])))
    && (forall k, l | k in c.table && l in c.table && k != l :: c.table[k] != c.table[l])
  }

  predicate InTable(c: Child, b: nat) { exists k :: k in c.table && c.table[k] == b }

  // What the operation in progress works on.
  predicate OpOwns(c: Child, requests: seq<Request>)
    requires InRange(c, requests)
  {
    match c.op
    case Idle => true
    case Handling(r, same, b, x) =>
      && requests[r].kind.Configure? && requests[r].kind.grant == x.Some? && requests[r].outcome == Pending
      && (x.Some? ==> c.sessions[x.value] == Session(r, true))
      && (if same then
            && requests[r].conn in c.table && c.table[requests[r].conn] == b
            && c.bindings[b].session.Some? == x.Some?
            && (x.Some? ==> Untargeted(c, x.value))
          else
            Settled(c.bindings[b]) && c.bindings[b].session == x && !InTable(c, b))
    case Rebound(r, b, x) =>
      && requests[r].kind.Configure? && requests[r].kind.grant && requests[r].outcome == Pending
      && requests[r].conn in c.table && c.table[requests[r].conn] == b
      && c.bindings[b].target == Some(x) && c.sessions[x].callback == r
      && c.bindings[b].session.Some? && Untargeted(c, c.bindings[b].session.value)
    case Cleaning(r, outcome, retire, closing) =>
      && (r.Some? ==> requests[r.value].outcome == Pending)
      && outcome != Pending
      && (outcome == Rejected ==> r.Some? && requests[r.value].kind.Configure?)
      && (forall b | b in retire :: Settled(c.bindings[b]) && !InTable(c, b))
      && (forall x | x in closing :: Untargeted(c, x))
  }

  // A running call sends through the current target of its publisher.
  predicate CallsOnTarget(c: Child) {
    forall k | k in c.calls ::
      c.calls[k].binding < |c.bindings| && c.bindings[c.calls[k].binding].target == Some(c.calls[k].session)
  }

  predicate OpHolds(c: Child, b: nat) {
    (c.op.Cleaning? && b in c.op.retire) || (c.op.Handling? && !c.op.same && b == c.op.binding)
  }

  // A publisher that is not revoked belongs to the table or to the operation in progress.
  predicate NoStray(c: Child) {
    forall b: nat | b < |c.bindings| && !c.bindings[b].revoked :: InTable(c, b) || OpHolds(c, b)
  }

  // Until an operation takes effect, the child is as it found it.
  predicate NothingTouched(c: Child) {
    c.op.Handling? || (c.op.Cleaning? && c.op.outcome == Rejected) ==>
      && c.table == c.foundTable
      && c.foundBindings <= c.bindings
      && (c.op.Cleaning? ==> forall b | b in c.op.retire :: |c.foundBindings| <= b)
      && (c.op.Handling? && !c.op.same ==> |c.foundBindings| <= c.op.binding)
  }

  // The binding in the table dials the callback of the Configure that last took effect.
  predicate AppliedDialed(c: Child, requests: seq<Request>) {
    && c.applied.Keys == c.table.Keys
    && (forall k | k in c.table ::
          && c.applied[k] < |requests| && requests[c.applied[k]].conn == k && requests[c.applied[k]].kind.Configure?
          && Dials(c, k) == (if requests[c.applied[k]].kind.grant then Some(c.applied[k]) else None))
    && (c.op.Rebound? ==>
          c.op.req < |requests| && requests[c.op.req].conn in c.applied && c.applied[requests[c.op.req].conn] == c.op.req)
    && (c.op.Cleaning? && c.op.outcome == Accepted && c.op.request.Some? && c.op.request.value < |requests|
        && requests[c.op.request.value].kind.Configure? ==>
          var conn := requests[c.op.request.value].conn;
          conn in c.applied && c.applied[conn] == c.op.request.value)
  }

  predicate Placement(c: Child, requests: seq<Request>) {
    && InRange(c, requests) && Exclusive(c, requests) && TableSettled(c, requests) && OpOwns(c, requests)
    && CallsOnTarget(c)
  }

  predicate Ownership(c: Child, requests: seq<Request>) { Placement(c, requests) && NoStray(c) }

  predicate History(c: Child, requests: seq<Request>) { NothingTouched(c) && AppliedDialed(c, requests) }

  predicate ChildInv(c: Child, requests: seq<Request>) { Ownership(c, requests) && History(c, requests) }

  // Every live callback has an owner that will stop it.
  predicate Owned(h: Host, r: nat) {
    && r < |h.requests|
    && (h.requests[r].waiting
        || (h.requests[r].conn in h.registered && h.registered[h.requests[r].conn] == r)
        || r in h.stopping)
  }

  predicate Granted(q: Request) { q.kind.Configure? && q.kind.grant }

  predicate HostInv(h: Host) {
    && (forall r | r in h.live :: Owned(h, r) && Granted(h.requests[r]))
    && (forall k | k in h.registered ::
          && h.registered[k] < |h.requests| && h.registered[k] in h.live && h.registered[k] !in h.stopping
          && h.requests[h.registered[k]].conn == k && !h.requests[h.registered[k]].waiting)
    && (forall r | r in h.stopping :: r in h.live && r < |h.requests| && !h.requests[r].waiting)
    && (forall r: nat | r < |h.requests| && h.requests[r].waiting && Granted(h.requests[r]) :: r in h.live)
  }

  predicate Inv(s: State) { HostInv(s.host) && ChildInv(s.child, s.host.requests) }

  // The child sees of a request only its connection, kind and outcome.
  predicate SameToChild(before: seq<Request>, after: seq<Request>) {
    && |before| <= |after|
    && (forall r: nat | r < |before| ::
          before[r].conn == after[r].conn && before[r].kind == after[r].kind && before[r].outcome == after[r].outcome)
  }

  lemma ChildFramed(c: Child, before: seq<Request>, after: seq<Request>)
    requires ChildInv(c, before) && SameToChild(before, after)
    ensures ChildInv(c, after)
  {
  }

  predicate SendsOrStops(a: Action) {
    a.SendConfigure? || a.SendClose? || a.GiveUp? || a.StopCallback? || a.Cancel?
  }

  lemma SendingKeepsAccounts(s: State, a: Action)
    requires HostInv(s.host) && Enabled(s, a) && SendsOrStops(a)
    ensures HostInv(Apply(s, a).host) && SameToChild(s.host.requests, Apply(s, a).host.requests)
    ensures Apply(s, a).child == s.child
  {
  }

  predicate MovesRegistration(a: Action) { a.Acknowledge? || a.CloseReply? || a.RevokeAll? }

  lemma RegistrationKeepsAccounts(s: State, a: Action)
    requires HostInv(s.host) && Enabled(s, a) && MovesRegistration(a)
    ensures HostInv(Apply(s, a).host) && SameToChild(s.host.requests, Apply(s, a).host.requests)
    ensures Apply(s, a).child == s.child
  {
    match a
    case Acknowledge(r) => AcknowledgeKeepsAccounts(s, r);
    case CloseReply(r) => CloseReplyKeepsAccounts(s, r);
    case RevokeAll => RevokeAllKeepsAccounts(s);
  }

  lemma AcknowledgeKeepsAccounts(s: State, r: nat)
    requires HostInv(s.host) && Enabled(s, Acknowledge(r))
    ensures var t := Apply(s, Acknowledge(r));
            HostInv(t.host) && SameToChild(s.host.requests, t.host.requests) && t.child == s.child
  {
  }

  lemma CloseReplyKeepsAccounts(s: State, r: nat)
    requires HostInv(s.host) && Enabled(s, CloseReply(r))
    ensures var t := Apply(s, CloseReply(r));
            HostInv(t.host) && SameToChild(s.host.requests, t.host.requests) && t.child == s.child
  {
  }

  lemma RevokeAllKeepsAccounts(s: State)
    requires HostInv(s.host) && Enabled(s, RevokeAll)
    ensures var t := Apply(s, RevokeAll);
            HostInv(t.host) && SameToChild(s.host.requests, t.host.requests) && t.child == s.child
  {
  }

  lemma AnswerKeepsAccounts(h: Host, r: nat, outcome: Outcome)
    requires HostInv(h) && r < |h.requests|
    ensures HostInv(h.(requests := Answer(h.requests, r, outcome)))
  {
  }

  // Taking one connection out of the table leaves every other binding held.
  lemma StillHeld(c: Child, d: Child, conn: string)
    requires NoStray(c) && d.bindings == c.bindings
    requires d.op.Cleaning? && d.op.retire == Lookup(c.table, conn)
    requires forall k | k in c.table && k != conn :: k in d.table && d.table[k] == c.table[k]
    requires forall b: nat | b < |c.bindings| && OpHolds(c, b) :: InTable(d, b)
    ensures NoStray(d)
  {
    forall b: nat | b < |d.bindings| && !d.bindings[b].revoked ensures InTable(d, b) || OpHolds(d, b) {
      if InTable(c, b) {
        var k :| k in c.table && c.table[k] == b;
        assert k == conn || d.table[k] == b;
      }
    }
  }

  lemma BeginKeepsPlacement(c: Child, requests: seq<Request>, r: nat)
    requires Placement(c, requests) && c.op.Idle? && r < |requests| && requests[r].kind.Configure? && requests[r].outcome == Pending
    ensures Placement(BeginStep(c, r, requests[r]), requests)
  {
    BeginKeepsRange(c, requests, r);
    BeginKeepsTable(c, requests, r);
    BeginTakesOwnership(c, requests, r);
  }

  lemma BeginKeepsRange(c: Child, requests: seq<Request>, r: nat)
    requires Placement(c, requests) && c.op.Idle? && r < |requests| && requests[r].kind.Configure?
    ensures InRange(BeginStep(c, r, requests[r]), requests) && CallsOnTarget(BeginStep(c, r, requests[r]))
  {
  }

  lemma BeginKeepsTable(c: Child, requests: seq<Request>, r: nat)
    requires Placement(c, requests) && c.op.Idle? && r < |requests| && requests[r].kind.Configure?
    requires InRange(BeginStep(c, r, requests[r]), requests)
    ensures Exclusive(BeginStep(c, r, requests[r]), requests) && TableSettled(BeginStep(c, r, requests[r]), requests)
  {
  }

  lemma BeginTakesOwnership(c: Child, requests: seq<Request>, r: nat)
    requires Placement(c, requests) && c.op.Idle? && r < |requests| && requests[r].kind.Configure? && requests[r].outcome == Pending
    requires InRange(BeginStep(c, r, requests[r]), requests)
    ensures OpOwns(BeginStep(c, r, requests[r]), requests)
  {
  }

  lemma BeginKeepsNoStray(c: Child, r: nat, req: Request)
    requires NoStray(c) && c.op.Idle? && req.kind.Configure?
    ensures NoStray(BeginStep(c, r, req))
  {
    var d := BeginStep(c, r, req);
    forall b: nat | b < |d.bindings| && !d.bindings[b].revoked ensures InTable(d, b) || OpHolds(d, b) {
      assert b < |c.bindings| ==> InTable(c, b);
    }
  }

  lemma BeginKeepsOwnership(c: Child, requests: seq<Request>, r: nat)
    requires Ownership(c, requests) && c.op.Idle? && r < |requests| && requests[r].kind.Configure? && requests[r].outcome == Pending
    ensures Ownership(BeginStep(c, r, requests[r]), requests)
  {
    BeginKeepsPlacement(c, requests, r);
    BeginKeepsNoStray(c, r, requests[r]);
  }

  lemma BeginKeepsHistory(c: Child, requests: seq<Request>, r: nat)
    requires Placement(c, requests) && History(c, requests) && c.op.Idle? && r < |requests| && requests[r].kind.Configure? && requests[r].outcome == Pending
    ensures History(BeginStep(c, r, requests[r]), requests)
  {
  }

  lemma RejectKeepsOwnership(c: Child, requests: seq<Request>)
    requires Ownership(c, requests) && c.op.Handling?
    ensures Ownership(RejectStep(c), requests)
  {
  }

  lemma RejectKeepsHistory(c: Child, requests: seq<Request>)
    requires Placement(c, requests) && History(c, requests) && c.op.Handling?
    ensures History(RejectStep(c), requests)
  {
  }

  lemma KeepKeepsOwnership(c: Child, requests: seq<Request>)
    requires Ownership(c, requests) && c.op.Handling? && c.op.same && c.op.session.None?
    ensures Ownership(KeepStep(c, requests[c.op.req].conn), requests)
  {
  }

  lemma KeepKeepsHistory(c: Child, requests: seq<Request>)
    requires Placement(c, requests) && History(c, requests) && c.op.Handling? && c.op.same && c.op.session.None?
    ensures History(KeepStep(c, requests[c.op.req].conn), requests)
  {
  }

  lemma RebindKeepsOwnership(c: Child, requests: seq<Request>)
    requires Ownership(c, requests) && c.op.Handling? && c.op.same && c.op.session.Some? && Quiet(c, c.op.binding)
    ensures Ownership(RebindStep(c, requests[c.op.req].conn), requests)
  {
  }

  lemma RebindKeepsHistory(c: Child, requests: seq<Request>)
    requires Placement(c, requests) && History(c, requests) && c.op.Handling? && c.op.same && c.op.session.Some? && Quiet(c, c.op.binding)
    ensures History(RebindStep(c, requests[c.op.req].conn), requests)
  {
    var conn := requests[c.op.req].conn;
    var d := RebindStep(c, conn);
    forall k | k in c.table && k != conn ensures Dials(d, k) == Dials(c, k) {
      assert c.table[k] != c.table[conn];
    }
  }

  lemma SwapKeepsOwnership(c: Child, requests: seq<Request>)
    requires Ownership(c, requests) && c.op.Rebound?
    ensures Ownership(SwapStep(c), requests)
  {
    SwapKeepsTable(c, requests);
    SwapKeepsNoStray(c, requests);
  }

  lemma SwapKeepsTable(c: Child, requests: seq<Request>)
    requires Placement(c, requests) && c.op.Rebound?
    ensures Placement(SwapStep(c), requests)
  {
  }

  lemma SwapKeepsNoStray(c: Child, requests: seq<Request>)
    requires Ownership(c, requests) && c.op.Rebound?
    ensures NoStray(SwapStep(c))
  {
  }

  lemma SwapKeepsHistory(c: Child, requests: seq<Request>)
    requires Placement(c, requests) && History(c, requests) && c.op.Rebound?
    ensures History(SwapStep(c), requests)
  {
  }

  lemma ReplaceKeepsOwnership(c: Child, requests: seq<Request>)
    requires Ownership(c, requests) && c.op.Handling? && !c.op.same
    ensures Ownership(ReplaceStep(c, requests[c.op.req].conn), requests)
  {
    var conn := requests[c.op.req].conn;
    var d := ReplaceStep(c, conn);
    assert d.table[conn] == c.op.binding;
    StillHeld(c, d, conn);
    ReplaceKeepsPlacement(c, requests);
  }

  lemma ReplaceKeepsPlacement(c: Child, requests: seq<Request>)
    requires Placement(c, requests) && c.op.Handling? && !c.op.same
    ensures Placement(ReplaceStep(c, requests[c.op.req].conn), requests)
  {
  }

  lemma ReplaceKeepsHistory(c: Child, requests: seq<Request>)
    requires Placement(c, requests) && History(c, requests) && c.op.Handling? && !c.op.same
    ensures History(ReplaceStep(c, requests[c.op.req].conn), requests)
  {
  }

  lemma CloseKeepsOwnership(c: Child, requests: seq<Request>, r: nat)
    requires Ownership(c, requests) && c.op.Idle? && r < |requests| && requests[r].kind.CloseConnection? && requests[r].outcome == Pending
    ensures Ownership(CloseStep(c, r, requests[r].conn), requests)
  {
    StillHeld(c, CloseStep(c, r, requests[r].conn), requests[r].conn);
  }

  lemma CloseKeepsHistory(c: Child, requests: seq<Request>, r: nat)
    requires Placement(c, requests) && History(c, requests) && c.op.Idle? && r < |requests| && requests[r].kind.CloseConnection? && requests[r].outcome == Pending
    ensures History(CloseStep(c, r, requests[r].conn), requests)
  {
  }

  lemma ShutdownKeepsOwnership(c: Child, requests: seq<Request>)
    requires Ownership(c, requests) && c.op.Idle?
    ensures Ownership(ShutdownStep(c), requests)
  {
  }

  lemma ShutdownKeepsHistory(c: Child, requests: seq<Request>)
    requires Placement(c, requests) && History(c, requests) && c.op.Idle?
    ensures History(ShutdownStep(c), requests)
  {
  }

  lemma RevokeKeepsOwnership(c: Child, requests: seq<Request>, b: nat)
    requires Ownership(c, requests) && c.op.Cleaning? && b in c.op.retire && Quiet(c, b)
    ensures Ownership(RevokeStep(c, b), requests)
  {
  }

  lemma RevokeKeepsHistory(c: Child, requests: seq<Request>, b: nat)
    requires Placement(c, requests) && History(c, requests) && c.op.Cleaning? && b in c.op.retire && Quiet(c, b)
    ensures History(RevokeStep(c, b), requests)
  {
    var d := RevokeStep(c, b);
    forall k | k in c.table ensures Dials(d, k) == Dials(c, k) {
      assert c.table[k] != b;
    }
  }

  lemma CloseSessionKeepsOwnership(c: Child, requests: seq<Request>, x: nat)
    requires Ownership(c, requests) && c.op.Cleaning? && x in c.op.closing
    ensures Ownership(CloseSessionStep(c, x), requests)
  {
  }

  lemma CloseSessionKeepsHistory(c: Child, requests: seq<Request>, x: nat)
    requires Placement(c, requests) && History(c, requests) && c.op.Cleaning? && x in c.op.closing
    ensures History(CloseSessionStep(c, x), requests)
  {
  }

  lemma AnswerKeepsOwnership(c: Child, requests: seq<Request>, r: nat, outcome: Outcome)
    requires Ownership(c, requests) && c.op.Idle? && r < |requests|
    ensures Ownership(c, Answer(requests, r, outcome))
  {
  }

  lemma AnswerKeepsHistory(c: Child, requests: seq<Request>, r: nat, outcome: Outcome)
    requires Placement(c, requests) && History(c, requests) && c.op.Idle? && r < |requests|
    ensures History(c, Answer(requests, r, outcome))
  {
  }

  lemma CallsKeepPlacement(c: Child, d: Child, requests: seq<Request>)
    requires Placement(c, requests) && d == c.(calls := d.calls) && CallsOnTarget(d)
    ensures Placement(d, requests)
  {
  }

  lemma CallsKeepNoStray(c: Child, d: Child)
    requires NoStray(c) && d == c.(calls := d.calls)
    ensures NoStray(d)
  {
  }

  lemma CallsKeepHistory(c: Child, d: Child, requests: seq<Request>)
    requires History(c, requests) && d == c.(calls := d.calls)
    ensures History(d, requests)
  {
  }

  lemma CallsKeepChild(c: Child, d: Child, requests: seq<Request>)
    requires ChildInv(c, requests) && d == c.(calls := d.calls) && CallsOnTarget(d)
    ensures ChildInv(d, requests)
  {
    CallsKeepPlacement(c, d, requests);
    CallsKeepNoStray(c, d);
    CallsKeepHistory(c, d, requests);
  }

  lemma ChildStepKeeps(s: State, a: Action)
    requires Inv(s) && Enabled(s, a) && !SendsOrStops(a) && !MovesRegistration(a)
    ensures ChildInv(Apply(s, a).child, Apply(s, a).host.requests)
  {
    match a
    case Refuse(_) => StartingStepKeeps(s, a);
    case Begin(_) => StartingStepKeeps(s, a);
    case HandlerRejects => RejectingStepKeeps(s, a);
    case HandlerKeeps => AcceptingStepKeeps(s, a);
    case Rebind => AcceptingStepKeeps(s, a);
    case RebindRefused => RejectingStepKeeps(s, a);
    case Swap => AcceptingStepKeeps(s, a);
    case Replace => AcceptingStepKeeps(s, a);
    case BeginClose(_) => ClosingStepKeeps(s, a);
    case BeginShutdown => ClosingStepKeeps(s, a);
    case Revoke(_) => CleaningStepKeeps(s, a);
    case CloseSession(_) => CleaningStepKeeps(s, a);
    case Finish => FinishKeeps(s);
    case BeginCall(_, _) => CallStepKeeps(s, a);
    case EndCall(_) => CallStepKeeps(s, a);
  }

  lemma StartingStepKeeps(s: State, a: Action)
    requires Inv(s) && Enabled(s, a) && (a.Refuse? || a.Begin?)
    ensures ChildInv(Apply(s, a).child, Apply(s, a).host.requests)
  {
    var c, q := s.child, s.host.requests;
    match a
    case Refuse(r) => AnswerKeepsOwnership(c, q, r, Rejected); AnswerKeepsHistory(c, q, r, Rejected);
    case Begin(r) => BeginKeepsOwnership(c, q, r); BeginKeepsHistory(c, q, r);
  }

  lemma RejectingStepKeeps(s: State, a: Action)
    requires Inv(s) && Enabled(s, a) && (a.HandlerRejects? || a.RebindRefused?)
    ensures ChildInv(Apply(s, a).child, Apply(s, a).host.requests)
  {
    RejectKeepsOwnership(s.child, s.host.requests);
    RejectKeepsHistory(s.child, s.host.requests);
  }

  lemma ClosingStepKeeps(s: State, a: Action)
    requires Inv(s) && Enabled(s, a) && (a.BeginClose? || a.BeginShutdown?)
    ensures ChildInv(Apply(s, a).child, Apply(s, a).host.requests)
  {
    var c, q := s.child, s.host.requests;
    match a
    case BeginClose(r) => CloseKeepsOwnership(c, q, r); CloseKeepsHistory(c, q, r);
    case BeginShutdown => ShutdownKeepsOwnership(c, q); ShutdownKeepsHistory(c, q);
  }

  lemma CallStepKeeps(s: State, a: Action)
    requires Inv(s) && Enabled(s, a) && (a.BeginCall? || a.EndCall?)
    ensures ChildInv(Apply(s, a).child, Apply(s, a).host.requests)
  {
    CallsKeepChild(s.child, Apply(s, a).child, s.host.requests);
  }

  lemma CleaningStepKeeps(s: State, a: Action)
    requires Inv(s) && Enabled(s, a) && (a.Revoke? || a.CloseSession?)
    ensures ChildInv(Apply(s, a).child, Apply(s, a).host.requests)
  {
    var c, q := s.child, s.host.requests;
    match a
    case Revoke(b) => RevokeKeepsOwnership(c, q, b); RevokeKeepsHistory(c, q, b);
    case CloseSession(x) => CloseSessionKeepsOwnership(c, q, x); CloseSessionKeepsHistory(c, q, x);
  }

  // The steps of a Configure that the handler accepted.
  lemma AcceptingStepKeeps(s: State, a: Action)
    requires Inv(s) && Enabled(s, a) && (a.HandlerKeeps? || a.Rebind? || a.Swap? || a.Replace?)
    ensures ChildInv(Apply(s, a).child, Apply(s, a).host.requests)
  {
    var c, q := s.child, s.host.requests;
    match a
    case HandlerKeeps => KeepKeepsOwnership(c, q); KeepKeepsHistory(c, q);
    case Rebind => RebindKeepsOwnership(c, q); RebindKeepsHistory(c, q);
    case Swap => SwapKeepsOwnership(c, q); SwapKeepsHistory(c, q);
    case Replace => ReplaceKeepsOwnership(c, q); ReplaceKeepsHistory(c, q);
  }

  lemma FinishKeeps(s: State)
    requires Inv(s) && Enabled(s, Finish)
    ensures ChildInv(Apply(s, Finish).child, Apply(s, Finish).host.requests)
  {
    var c, q := s.child, s.host.requests;
    IdleKeeps(c, q);
    if c.op.request.Some? {
      AnswerKeepsOwnership(c.(op := Idle), q, c.op.request.value, c.op.outcome);
      AnswerKeepsHistory(c.(op := Idle), q, c.op.request.value, c.op.outcome);
    }
  }

  lemma IdleKeeps(c: Child, requests: seq<Request>)
    requires ChildInv(c, requests) && c.op.Cleaning? && c.op.retire == {} && c.op.closing == {}
    ensures ChildInv(c.(op := Idle), requests)
  {
  }

  lemma StepKeeps(s: State, a: Action)
    requires Inv(s) && Enabled(s, a)
    ensures Inv(Apply(s, a))
  {
    if SendsOrStops(a) {
      SendingKeepsAccounts(s, a);
      ChildFramed(s.child, s.host.requests, Apply(s, a).host.requests);
    } else if MovesRegistration(a) {
      RegistrationKeepsAccounts(s, a);
      ChildFramed(s.child, s.host.requests, Apply(s, a).host.requests);
    } else {
      ChildStepKeeps(s, a);
      if a.Refuse? { AnswerKeepsAccounts(s.host, a.req, Rejected); }
      if a.Finish? && s.child.op.request.Some? {
        AnswerKeepsAccounts(s.host, s.child.op.request.value, s.child.op.outcome);
      }
    }
  }

  lemma {:induction false} RunKeeps(s: State, actions: seq<Action>)
    requires Inv(s) && Run(s, actions)
    ensures Inv(After(s, actions))
    decreases |actions|
  {
    if actions != [] {
      StepKeeps(s, actions[0]);
      RunKeeps(Apply(s, actions[0]), actions[1..]);
    }
  }
}
