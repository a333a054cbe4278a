/**
The notification authority protocol never gets stuck: whatever ran before, the calls in progress
can return and the child can answer every pending request either way, and a publisher it holds
can send. Locks wait for readers in plugin-sdk/runtime/notifications.go, so this says that the
waits end.
*/
module AuthorityProgress {
  import opened Wrappers
  import opened NotificationAuthority
  import opened AuthorityInvariant
  import opened AuthorityTheorems

  // ---- sending ----

  // A publisher can begin a call exactly while it has a session to send through: that is the open
  // session the call then holds, and for a publisher in the table it dials what its connection dials.
  lemma HeldPublisherSends(s: State, b: nat, call: nat)
    requires Reachable(s) && b < |s.child.bindings| && call !in s.child.calls
    ensures Enabled(s, BeginCall(call, b)) <==> s.child.bindings[b].target.Some?
    ensures Enabled(s, BeginCall(call, b)) ==>
              var t := Apply(s, BeginCall(call, b));
              && call in t.child.calls && t.child.calls[call].binding == b
              && t.child.calls[call].session < |t.child.sessions| && t.child.sessions[t.child.calls[call].session].open
              && forall conn | conn in s.child.table && s.child.table[conn] == b ::
                   Dials(s.child, conn) == Some(t.child.sessions[t.child.calls[call].session].callback)
  {
    ReachableKeeps(s);
  }

  // In the table that is every publisher of a granted configuration.
  lemma GrantedPublisherSends(s: State, conn: string, call: nat)
    requires Reachable(s) && call !in s.child.calls && conn in s.child.table
    ensures conn in s.child.applied && s.child.applied[conn] < |s.host.requests|
    ensures Enabled(s, BeginCall(call, s.child.table[conn])) <==> Granted(s.host.requests[s.child.applied[conn]])
  {
    ReachableKeeps(s);
  }

  // ---- the operation in progress ends ----

  // Steps that need nobody but the child and the calls already running.
  predicate Settles(a: Action) {
    || a.EndCall? || a.HandlerRejects? || a.HandlerKeeps? || a.Rebind? || a.Swap? || a.Replace? || a.Revoke? || a.CloseSession?
    || a.Finish?
  }

  // What the requests are once the operation in progress ends, if the handler answers `verdict`.
  function Ending(s: State, verdict: Outcome): seq<Request> {
    var q := s.host.requests;
    match s.child.op
    case Idle => q
    case Handling(r, _, _, _) => if r < |q| then Answer(q, r, verdict) else q
    case Rebound(r, _, _) => if r < |q| then Answer(q, r, Accepted) else q
    case Cleaning(r, outcome, _, _) => if r.Some? && r.value < |q| then Answer(q, r.value, outcome) else q
  }

  function Stage(op: Op): nat {
    match op
    case Idle => 0
    case Cleaning(_, _, _, _) => 1
    case Rebound(_, _, _) => 2
    case Handling(_, _, _, _) => 3
  }

  // A revocation may leave one more session to close.
  function Work(op: Op): nat { if op.Cleaning? then 2 * |op.retire| + |op.closing| else 0 }

  ghost predicate Nearer(s: State, t: State, verdict: Outcome) {
    && t.host.requests == s.host.requests && Ending(t, verdict) == Ending(s, verdict)
    && (|t.child.calls| < |s.child.calls|
        || (|t.child.calls| == |s.child.calls|
            && (Stage(t.child.op) < Stage(s.child.op)
                || (Stage(t.child.op) == Stage(s.child.op) && Work(t.child.op) < Work(s.child.op)))))
  }

  lemma CallReturns(s: State, call: nat, verdict: Outcome)
    requires call in s.child.calls
    ensures Enabled(s, EndCall(call)) && Nearer(s, Apply(s, EndCall(call)), verdict)
  {
    var t := Apply(s, EndCall(call));
    assert s.child.calls == t.child.calls[call := s.child.calls[call]];
  }

  lemma HandlerCanAnswer(s: State)
    requires Inv(s) && s.child.op.Handling?
    ensures InHandler(s)
    ensures s.child.op.same ==> !s.child.bindings[s.child.op.binding].revoked
  { }

  lemma HandlerAnswers(s: State, verdict: Outcome) returns (a: Action)
    requires InHandler(s) && s.child.calls == map[] && verdict != Pending
    requires s.child.op.same ==> !s.child.bindings[s.child.op.binding].revoked
    ensures Settles(a) && Enabled(s, a) && Nearer(s, Apply(s, a), verdict)
  {
    var op := s.child.op;
    if verdict == Rejected { a := HandlerRejects; }
    else if !op.same { a := Replace; }
    else if op.session.None? { a := HandlerKeeps; }
    else { a := Rebind; }
  }

  lemma RevocationIsNearer(s: State, b: nat, verdict: Outcome)
    requires s.child.op.Cleaning? && s.child.calls == map[] && b in s.child.op.retire && b < |s.child.bindings|
    ensures Enabled(s, Revoke(b)) && Nearer(s, Apply(s, Revoke(b)), verdict)
  {
    var op, next := s.child.op, RevokeStep(s.child, b).op;
    assert op.retire == next.retire + {b} && b !in next.retire;
    assert |next.closing| <= |op.closing| + |AsSet(s.child.bindings[b].session)|;
  }

  lemma ClosingIsNearer(s: State, x: nat, verdict: Outcome)
    requires s.child.op.Cleaning? && s.child.calls == map[] && x in s.child.op.closing && x < |s.child.sessions|
    ensures Enabled(s, CloseSession(x)) && Nearer(s, Apply(s, CloseSession(x)), verdict)
  {
    var op, next := s.child.op, CloseSessionStep(s.child, x).op;
    assert op.closing == next.closing + {x} && x !in next.closing;
  }

  lemma CleaningGoesOn(s: State, verdict: Outcome) returns (a: Action)
    requires InRange(s.child, s.host.requests) && s.child.op.Cleaning? && s.child.calls == map[] && Work(s.child.op) > 0
    ensures Settles(a) && Enabled(s, a) && Nearer(s, Apply(s, a), verdict)
  {
    var op := s.child.op;
    if op.retire != {} {
      var b :| b in op.retire;
      RevocationIsNearer(s, b, verdict);
      a := Revoke(b);
    } else {
      var x :| x in op.closing;
      ClosingIsNearer(s, x, verdict);
      a := CloseSession(x);
    }
  }

  lemma NextStep(s: State, verdict: Outcome) returns (a: Action)
    requires Inv(s) && !s.child.op.Idle? && verdict != Pending
    requires s.child.calls == map[] && s.child.op.Cleaning? ==> Work(s.child.op) > 0
    ensures Settles(a) && Enabled(s, a) && Nearer(s, Apply(s, a), verdict)
  {
    if s.child.calls != map[] {
      var call :| call in s.child.calls;
      CallReturns(s, call, verdict);
      a := EndCall(call);
    } else if s.child.op.Handling? {
      HandlerCanAnswer(s);
      a := HandlerAnswers(s, verdict);
    } else if s.child.op.Rebound? {
      a := Swap;
    } else {
      a := CleaningGoesOn(s, verdict);
    }
  }

  lemma FinishEnds(s: State, verdict: Outcome)
    requires Inv(s) && s.child.op.Cleaning? && Work(s.child.op) == 0
    ensures Run(s, [Finish]) && Inv(After(s, [Finish]))
    ensures After(s, [Finish]).child.op.Idle? && After(s, [Finish]).host.requests == Ending(s, verdict)
  {
    assert Enabled(s, Finish);
    StepKeeps(s, Finish);
    assert [Finish][1..] == [];
  }

  lemma OperationEnds(s: State, verdict: Outcome) returns (steps: seq<Action>)
    requires Inv(s) && verdict != Pending
    ensures Run(s, steps) && forall a <- steps :: Settles(a)
    ensures Inv(After(s, steps)) && After(s, steps).child.op.Idle? && After(s, steps).host.requests == Ending(s, verdict)
    decreases |s.child.calls|, Stage(s.child.op), Work(s.child.op)
  {
    if s.child.op.Idle? {
      steps := [];
    } else if s.child.calls == map[] && s.child.op.Cleaning? && Work(s.child.op) == 0 {
      FinishEnds(s, verdict);
      steps := [Finish];
    } else {
      var a := NextStep(s, verdict);
      StepKeeps(s, a);
      var rest := OperationEnds(Apply(s, a), verdict);
      steps := [a] + rest;
      assert steps[1..] == rest;
    }
  }

  // ---- every request can be answered ----

  lemma {:induction false} RunJoins(s: State, first: seq<Action>, second: seq<Action>)
    requires Run(s, first) && Run(After(s, first), second)
    ensures Run(s, first + second) && After(s, first + second) == After(After(s, first), second)
    decreases |first|
  {
    if first == [] {
      assert first + second == second;
    } else {
      assert (first + second)[1..] == first[1..] + second;
      RunJoins(Apply(s, first[0]), first[1..], second);
    }
  }

  // The child has not yet decided what it will answer.
  predicate Undecided(s: State, r: nat) {
    && PendingConfigure(s, r)
    && !(s.child.op.Rebound? && s.child.op.req == r)
    && !(s.child.op.Cleaning? && s.child.op.request == Some(r))
  }

  lemma BegunIsAnswered(s: State, r: nat, verdict: Outcome) returns (steps: seq<Action>)
    requires Inv(s) && s.child.op.Idle? && PendingConfigure(s, r) && verdict != Pending
    ensures Run(s, steps) && forall a <- steps :: Settles(a) || a == Begin(r)
    ensures After(s, steps).host.requests == Answer(s.host.requests, r, verdict) && After(s, steps).child.op.Idle?
  {
    StepKeeps(s, Begin(r));
    var t := Apply(s, Begin(r));
    var rest := OperationEnds(t, verdict);
    steps := [Begin(r)] + rest;
    assert steps[0] == Begin(r) && steps[1..] == rest;
  }

  lemma OthersStayPending(s: State, r: nat, verdict: Outcome)
    requires Undecided(s, r)
    ensures |Ending(s, verdict)| == |s.host.requests| && Ending(s, verdict)[r].kind.Configure?
    ensures Ending(s, verdict)[r].outcome == if s.child.op.Handling? && s.child.op.req == r then verdict else Pending
  { }

  // Whatever ran before, a Configure the child has not decided can be accepted and can be
  // rejected, without anything new being sent.
  lemma PendingCanBeAnswered(s: State, r: nat, verdict: Outcome) returns (steps: seq<Action>)
    requires Reachable(s) && Undecided(s, r) && verdict != Pending
    ensures Run(s, steps) && forall a <- steps :: Settles(a) || a == Begin(r)
    ensures var t := After(s, steps); r < |t.host.requests| && t.host.requests[r].outcome == verdict && t.child.op.Idle?
  {
    ReachableKeeps(s);
    steps := OperationEnds(s, verdict);
    OthersStayPending(s, r, verdict);
    if !(s.child.op.Handling? && s.child.op.req == r) {
      var rest := BegunIsAnswered(After(s, steps), r, verdict);
      RunJoins(s, steps, rest);
      steps := steps + rest;
    }
  }
}
