/**
What the notification authority protocol promises over every run, for any interleaving of
publications, configurations, closings, revocations and lost replies.
*/
module AuthorityTheorems {
  import opened Wrappers
  import opened NotificationAuthority
  import opened AuthorityInvariant

  ghost predicate Reachable(s: State) { exists actions :: Run(Initial, actions) && After(Initial, actions) == s }

  lemma ReachableKeeps(s: State)
    requires Reachable(s)
    ensures Inv(s)
  {
    var actions :| Run(Initial, actions) && After(Initial, actions) == s;
    RunKeeps(Initial, actions);
  }

  // The child never closes a session while a call runs through it: every running call is on
  // an open session, and whatever the child may close now carries no call.
  lemma SessionOutlivesItsCalls(s: State, call: nat)
    requires Reachable(s) && call in s.child.calls
    ensures var x := s.child.calls[call].session;
            && x < |s.child.sessions| && s.child.sessions[x].open
            && !Enabled(s, CloseSession(x))
  {
    OpenUnderCall(s, call);
  }

  lemma OpenUnderCall(s: State, call: nat)
    requires Reachable(s) && call in s.child.calls
    ensures var x := s.child.calls[call].session;
            x < |s.child.sessions| && s.child.sessions[x].open && !(s.child.op.Cleaning? && x in s.child.op.closing)
  {
    ReachableKeeps(s);
    CallIsOnOpenSession(s.child, s.host.requests, call);
  }

  lemma CallIsOnOpenSession(c: Child, requests: seq<Request>, call: nat)
    requires Ownership(c, requests) && call in c.calls
    ensures var x := c.calls[call].session;
            x < |c.sessions| && c.sessions[x].open && !(c.op.Cleaning? && x in c.op.closing)
  {
    assert c.bindings[c.calls[call].binding].target == Some(c.calls[call].session);
  }

  // No binding in the table is revoked, so a rebinding is never refused.
  lemma RebindNeverRefused(s: State)
    requires Reachable(s)
    ensures forall k | k in s.child.table :: s.child.table[k] < |s.child.bindings| && !s.child.bindings[s.child.table[k]].revoked
    ensures !Enabled(s, RebindRefused)
  {
    ReachableKeeps(s);
  }

  predicate Revoked(s: State, b: nat) { b < |s.child.bindings| && s.child.bindings[b].revoked }

  lemma HostStepLeavesChild(s: State, a: Action)
    requires Enabled(s, a) && (SendsOrStops(a) || MovesRegistration(a) || a.Refuse?)
    ensures Apply(s, a).child == s.child
  {
  }

  predicate MovesBinding(a: Action) { a.Begin? || a.Rebind? || a.Swap? || a.Revoke? }

  lemma BindingStepKeepsRevoked(s: State, a: Action, b: nat)
    requires Enabled(s, a) && MovesBinding(a) && Revoked(s, b)
    ensures Revoked(Apply(s, a), b)
  {
  }

  lemma OtherStepLeavesBindings(s: State, a: Action)
    requires Enabled(s, a) && !SendsOrStops(a) && !MovesRegistration(a) && !a.Refuse? && !MovesBinding(a)
    ensures Apply(s, a).child.bindings == s.child.bindings
  {
  }

  lemma RevokedStep(s: State, a: Action, b: nat)
    requires Enabled(s, a) && Revoked(s, b)
    ensures Revoked(Apply(s, a), b) && (a.BeginCall? ==> a.binding != b)
  {
    if SendsOrStops(a) || MovesRegistration(a) || a.Refuse? {
      HostStepLeavesChild(s, a);
    } else if MovesBinding(a) {
      BindingStepKeepsRevoked(s, a, b);
    } else {
      OtherStepLeavesBindings(s, a);
    }
  }

  // A revoked publisher stays revoked, has no call running and starts none.
  lemma {:induction false} RevokedNeverSends(s: State, b: nat, later: seq<Action>)
    requires Reachable(s) && Revoked(s, b) && Run(s, later)
    ensures Revoked(After(s, later), b) && Quiet(After(s, later).child, b)
    ensures forall i | 0 <= i < |later| && later[i].BeginCall? :: later[i].binding != b
  {
    ReachableKeeps(s);
    RevokedRun(s, b, later);
  }

  lemma {:induction false} RevokedRun(s: State, b: nat, later: seq<Action>)
    requires Inv(s) && Revoked(s, b) && Run(s, later)
    ensures Revoked(After(s, later), b) && Quiet(After(s, later).child, b)
    ensures forall i | 0 <= i < |later| && later[i].BeginCall? :: later[i].binding != b
    decreases |later|
  {
    if later == [] {
      forall k | k in s.child.calls ensures s.child.calls[k].binding != b {
        assert s.child.bindings[s.child.calls[k].binding].target.Some?;
      }
    } else {
      RevokedStep(s, later[0], b);
      StepKeeps(s, later[0]);
      RevokedRun(Apply(s, later[0]), b, later[1..]);
      forall i | 0 <= i < |later| && later[i].BeginCall? ensures later[i].binding != b {
        assert i == 0 || later[1..][i - 1] == later[i];
      }
    }
  }

  // A publisher kept by the author can send exactly while the child holds its binding.
  lemma UnrevokedIsHeld(s: State, b: nat)
    requires Reachable(s) && b < |s.child.bindings|
    ensures !s.child.bindings[b].revoked <==> InTable(s.child, b) || OpHolds(s.child, b)
  {
    ReachableKeeps(s);
  }

  predicate InFlight(h: Host, r: nat) { r < |h.requests| && h.requests[r].waiting }

  predicate RegisteredFor(h: Host, conn: string, r: nat) { conn in h.registered && h.registered[conn] == r }

  // A binding dials the callback registered for its connection, or one that a call in flight
  // owns or is stopping, or a stopped one; and a live callback has exactly one owner.
  lemma DialedCallbackIsAccounted(s: State, conn: string)
    requires Reachable(s)
    ensures Dials(s.child, conn).Some? ==>
              var r := Dials(s.child, conn).value;
              && r < |s.host.requests| && s.host.requests[r].conn == conn && Granted(s.host.requests[r])
              && (r in s.host.live <==> RegisteredFor(s.host, conn, r) || InFlight(s.host, r) || r in s.host.stopping)
              && !(RegisteredFor(s.host, conn, r) && InFlight(s.host, r))
              && !(RegisteredFor(s.host, conn, r) && r in s.host.stopping)
              && !(InFlight(s.host, r) && r in s.host.stopping)
  {
    ReachableKeeps(s);
  }

  // With no host call in progress the live callbacks are exactly the registered ones.
  lemma NoCallbackLeaks(s: State)
    requires Reachable(s) && s.host.stopping == {}
    requires forall r: nat | r < |s.host.requests| :: !s.host.requests[r].waiting
    ensures s.host.live == s.host.registered.Values
  {
    ReachableKeeps(s);
    forall r | r in s.host.live ensures r in s.host.registered.Values {
      assert Owned(s.host, r);
    }
  }

  // One Configure at the child: from `s`, where request r begins, to `t`, where it is ready to
  // answer, with any steps of others in between.
  ghost predicate Configured(s: State, r: nat, mid: seq<Action>, t: State) {
    && Enabled(s, Begin(r))
    && Run(Apply(s, Begin(r)), mid) && (forall i | 0 <= i < |mid| :: !mid[i].Finish?)
    && After(Apply(s, Begin(r)), mid) == t
    && Enabled(t, Finish)
  }

  // The progress of that Configure, with the table and bindings it found.
  predicate Midway(s: State, r: nat, req: Request, table: map<string, nat>, bindings: seq<Binding>) {
    var c := s.child;
    && req.kind.Configure? && r < |s.host.requests|
    && s.host.requests[r].conn == req.conn && s.host.requests[r].kind == req.kind
    && c.foundTable == table && c.foundBindings == bindings && |bindings| <= |c.bindings|
    && match c.op
       case Idle => false
       case Handling(q, same, b, _) =>
         q == r && same == Repeats(req, table, bindings) && (same ==> req.conn in table && table[req.conn] == b)
       case Rebound(q, b, _) => q == r && Repeats(req, table, bindings) && req.conn in table && table[req.conn] == b && c.table == table
       case Cleaning(q, outcome, retire, _) =>
         && q == Some(r)
         && (outcome == Accepted ==>
               && req.conn in c.table
               && (if Repeats(req, table, bindings) then c.table == table
                   else |bindings| <= c.table[req.conn] && (req.conn in table && table[req.conn] < |bindings| ==>
                          table[req.conn] in retire || c.bindings[table[req.conn]].revoked)))
  }

  // SameConfiguration on what was found.
  predicate Repeats(req: Request, table: map<string, nat>, bindings: seq<Binding>)
    requires req.kind.Configure?
  {
    && req.conn in table && table[req.conn] < |bindings|
    && bindings[table[req.conn]].revision == req.kind.revision
    && bindings[table[req.conn]].session.Some? == req.kind.grant
  }

  lemma MidwayStep(s: State, a: Action, r: nat, req: Request, table: map<string, nat>, bindings: seq<Binding>)
    requires HostInv(s.host) && InRange(s.child, s.host.requests) && NothingTouched(s.child)
    requires Enabled(s, a) && !a.Finish? && Midway(s, r, req, table, bindings)
    ensures Midway(Apply(s, a), r, req, table, bindings)
  {
    if SendsOrStops(a) {
      SendingKeepsAccounts(s, a);
    } else if MovesRegistration(a) {
      RegistrationKeepsAccounts(s, a);
    }
  }

  lemma {:induction false} MidwayRun(s: State, mid: seq<Action>, t: State, r: nat, req: Request, table: map<string, nat>, bindings: seq<Binding>)
    requires Inv(s) && Midway(s, r, req, table, bindings)
    requires Run(s, mid) && After(s, mid) == t && (forall i | 0 <= i < |mid| :: !mid[i].Finish?)
    ensures Inv(t) && Midway(t, r, req, table, bindings)
    decreases |mid|
  {
    if mid != [] {
      MidwayStep(s, mid[0], r, req, table, bindings);
      StepKeeps(s, mid[0]);
      MidwayRun(Apply(s, mid[0]), mid[1..], t, r, req, table, bindings);
    }
  }

  lemma BeginIsMidway(s: State, r: nat)
    requires Inv(s) && Enabled(s, Begin(r))
    ensures Midway(Apply(s, Begin(r)), r, s.host.requests[r], s.child.table, s.child.bindings)
  {
  }

  lemma ConfiguredKeeps(s: State, r: nat, mid: seq<Action>, t: State)
    requires Reachable(s) && Configured(s, r, mid, t)
    ensures Midway(t, r, s.host.requests[r], s.child.table, s.child.bindings)
    ensures Inv(s) && Inv(t)
  {
    ReachableKeeps(s);
    StepKeeps(s, Begin(r));
    BeginIsMidway(s, r);
    MidwayRun(Apply(s, Begin(r)), mid, t, r, s.host.requests[r], s.child.table, s.child.bindings);
  }

  lemma ConfiguredMidway(s: State, r: nat, mid: seq<Action>, t: State)
    requires Reachable(s) && Configured(s, r, mid, t)
    ensures AppliedDialed(t.child, t.host.requests)
    ensures Midway(t, r, s.host.requests[r], s.child.table, s.child.bindings)
  {
    ConfiguredKeeps(s, r, mid, t);
  }

  // A Configure the handler rejects leaves every binding of the child as it was, whatever ran
  // meanwhile, and what it created is revoked.
  lemma RejectedConfigureChangesNothing(s: State, r: nat, mid: seq<Action>, t: State)
    requires Reachable(s) && Configured(s, r, mid, t) && t.child.op.Cleaning? && t.child.op.outcome == Rejected
    ensures var u := Apply(t, Finish);
            && r < |u.host.requests| && u.host.requests[r].outcome == Rejected
            && u.child.table == s.child.table && s.child.bindings <= u.child.bindings
            && (forall b: nat | |s.child.bindings| <= b < |u.child.bindings| :: u.child.bindings[b].revoked)
  {
    RejectedMidway(s, r, mid, t);
    FinishAnswers(t, r);
  }

  lemma FinishAnswers(t: State, r: nat)
    requires Enabled(t, Finish) && t.child.op.request == Some(r)
    ensures var u := Apply(t, Finish);
            && u.child.table == t.child.table && u.child.bindings == t.child.bindings
            && r < |u.host.requests| && u.host.requests[r].outcome == t.child.op.outcome
  { }

  lemma RejectedMidway(s: State, r: nat, mid: seq<Action>, t: State)
    requires Reachable(s) && Configured(s, r, mid, t) && t.child.op.Cleaning? && t.child.op.outcome == Rejected
    ensures t.child.op.request == Some(r)
    ensures t.child.table == s.child.table && s.child.bindings <= t.child.bindings
    ensures forall b: nat | |s.child.bindings| <= b < |t.child.bindings| :: t.child.bindings[b].revoked
  {
    assert Midway(t, r, s.host.requests[r], s.child.table, s.child.bindings) && NoStray(t.child) && NothingTouched(t.child) by {
      ConfiguredKeeps(s, r, mid, t);
    }
    TableInRange(s);
    RejectedState(t, r, s.host.requests[r], s.child.table, s.child.bindings);
  }

  lemma RejectedState(t: State, r: nat, req: Request, table: map<string, nat>, bindings: seq<Binding>)
    requires NoStray(t.child) && NothingTouched(t.child) && Midway(t, r, req, table, bindings) && (forall k | k in table :: table[k] < |bindings|)
    requires t.child.op.Cleaning? && t.child.op.outcome == Rejected && t.child.op.retire == {}
    ensures t.child.op.request == Some(r) && t.child.table == table && bindings <= t.child.bindings
    ensures forall b: nat | |bindings| <= b < |t.child.bindings| :: t.child.bindings[b].revoked
  {
    MidwayCleaning(t, r, req, table, bindings);
    RejectedIsAsFound(t.child, table, bindings);
  }

  lemma MidwayCleaning(t: State, r: nat, req: Request, table: map<string, nat>, bindings: seq<Binding>)
    requires Midway(t, r, req, table, bindings) && t.child.op.Cleaning?
    ensures t.child.op.request == Some(r) && t.child.foundTable == table && t.child.foundBindings == bindings
  { }

  // A child about to answer a rejection holds what was found and nothing else that can send.
  lemma RejectedIsAsFound(c: Child, table: map<string, nat>, bindings: seq<Binding>)
    requires NoStray(c) && NothingTouched(c) && c.foundTable == table && c.foundBindings == bindings
    requires c.op.Cleaning? && c.op.outcome == Rejected && c.op.retire == {}
    requires forall k | k in table :: table[k] < |bindings|
    ensures c.table == table && bindings <= c.bindings
    ensures forall b: nat | |bindings| <= b < |c.bindings| :: c.bindings[b].revoked
  {
    forall b: nat | |bindings| <= b < |c.bindings| ensures c.bindings[b].revoked {
      assert !OpHolds(c, b) && !InTable(c, b);
    }
  }

  // The host answers a rejected, malformed or lost reply by stopping the callback of that
  // request alone: no registration moves.
  lemma GivingUpTouchesOnlyItsCallback(s: State, r: nat)
    requires Reachable(s) && Enabled(s, GiveUp(r))
    ensures var t := Apply(s, GiveUp(r));
            && t.host.registered == s.host.registered && t.host.stopping == s.host.stopping && t.child == s.child
            && r !in t.host.live && (forall k | k in t.host.registered :: t.host.registered[k] in t.host.live)
  {
    ReachableKeeps(s);
  }

  // A publisher handed out earlier survives a repeated configuration: the connection keeps
  // its binding, now dialling the new callback.  Any other accepted configuration revokes it.
  lemma KeptPublisherFollows(s: State, r: nat, mid: seq<Action>, t: State)
    requires Reachable(s) && Configured(s, r, mid, t) && t.child.op.outcome == Accepted
    ensures var u, req := Apply(t, Finish), s.host.requests[r];
            && req.conn in u.child.table
            && Dials(u.child, req.conn) == (if req.kind.grant then Some(r) else None)
            && (SameConfiguration(s.child, req) ==> u.child.table[req.conn] == s.child.table[req.conn])
            && (!SameConfiguration(s.child, req) && req.conn in s.child.table ==> Revoked(u, s.child.table[req.conn]))
  {
    ConfiguredEnds(s, r, mid, t);
    TableInRange(s);
  }

  lemma TableInRange(s: State)
    requires Reachable(s)
    ensures forall k | k in s.child.table :: s.child.table[k] < |s.child.bindings|
  {
    ReachableKeeps(s);
  }

  lemma ConfiguredEnds(s: State, r: nat, mid: seq<Action>, t: State)
    requires Reachable(s) && Configured(s, r, mid, t) && t.child.op.outcome == Accepted
    ensures var req := s.host.requests[r]; AtEnd(t.child.(op := Idle), r, req, s.child.table, s.child.bindings)
  {
    ConfiguredMidway(s, r, mid, t);
    AcceptedIsApplied(t, r, s.host.requests[r], s.child.table, s.child.bindings);
  }

  predicate AtEnd(c: Child, r: nat, req: Request, table: map<string, nat>, bindings: seq<Binding>)
    requires req.kind.Configure?
  {
    && req.conn in c.table
    && Dials(c, req.conn) == (if req.kind.grant then Some(r) else None)
    && |bindings| <= |c.bindings|
    && (Repeats(req, table, bindings) ==> c.table == table)
    && (!Repeats(req, table, bindings) && req.conn in table && table[req.conn] < |bindings| ==> c.bindings[table[req.conn]].revoked)
  }

  lemma AcceptedIsApplied(t: State, r: nat, req: Request, table: map<string, nat>, bindings: seq<Binding>)
    requires AppliedDialed(t.child, t.host.requests) && Midway(t, r, req, table, bindings)
    requires t.child.op.Cleaning? && t.child.op.outcome == Accepted && t.child.op.retire == {}
    ensures AtEnd(t.child.(op := Idle), r, req, table, bindings)
  {
  }

  // An acknowledgement registers the callback of its request.  The child's binding is on it
  // exactly when no other call on the connection has taken effect at the child since.
  lemma AcknowledgedSidesAgree(s: State, r: nat)
    requires Reachable(s) && Enabled(s, Acknowledge(r))
    ensures var t, req := Apply(s, Acknowledge(r)), s.host.requests[r];
            var current := req.conn in s.child.applied && s.child.applied[req.conn] == r;
            && (req.kind.grant ==>
                  && RegisteredFor(t.host, req.conn, r) && r in t.host.live && r !in t.host.stopping
                  && (Dials(t.child, req.conn) == Some(r) <==> current))
            && (!req.kind.grant ==>
                  req.conn !in t.host.registered && (current ==> Dials(t.child, req.conn) == None))
  {
    ReachableKeeps(s);
    StepKeeps(s, Acknowledge(r));
    assert Dials(Apply(s, Acknowledge(r)).child, s.host.requests[r].conn) == Dials(s.child, s.host.requests[r].conn);
  }
}
