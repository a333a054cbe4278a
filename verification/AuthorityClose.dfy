/**
What the host still holds after it has revoked every callback, on Close or when the child exits
(plugin-sdk/runtime/backend.go:50-64 and 77-127, plugin-sdk/runtime/notifications.go:434-460).
*/
module AuthorityClose {
  import opened Wrappers
  import opened NotificationAuthority
  import opened AuthorityInvariant
  import opened AuthorityTheorems
  import opened AuthorityOrder

  // The action ends a call on the connection in a way that moves its registration.
  predicate RepliesOn(a: Action, requests: seq<Request>, conn: string) {
    (a.Acknowledge? || a.CloseReply?) && a.req < |requests| && requests[a.req].conn == conn
  }

  function LastReplyOn(actions: seq<Action>, requests: seq<Request>, conn: string): Option<Action> {
    if actions == [] then None
    else if RepliesOn(actions[|actions| - 1], requests, conn) then Some(actions[|actions| - 1])
    else LastReplyOn(actions[..|actions| - 1], requests, conn)
  }

  // The last reply on the request's own connection acknowledged it and granted it a callback.
  predicate AcknowledgedLast(actions: seq<Action>, requests: seq<Request>, r: nat) {
    r < |requests| && Granted(requests[r]) && LastReplyOn(actions, requests, requests[r].conn) == Some(Acknowledge(r))
  }

  predicate NoRevokeAll(actions: seq<Action>) { forall i | 0 <= i < |actions| :: !actions[i].RevokeAll? }

  predicate RepliesKnown(actions: seq<Action>, requests: seq<Request>) {
    forall i | 0 <= i < |actions| && (actions[i].Acknowledge? || actions[i].CloseReply?) :: actions[i].req < |requests|
  }

  // Requests are only added; their connection and kind never change.
  predicate SameAsked(before: seq<Request>, after: seq<Request>) {
    && |before| <= |after|
    && forall r: nat | r < |before| :: before[r].conn == after[r].conn && before[r].kind == after[r].kind
  }

  lemma StepKeepsAsked(s: State, a: Action)
    requires Enabled(s, a)
    ensures SameAsked(s.host.requests, Apply(s, a).host.requests)
  { }

  lemma {:induction false} LastReplyKept(actions: seq<Action>, before: seq<Request>, after: seq<Request>, conn: string)
    requires RepliesKnown(actions, before) && SameAsked(before, after)
    ensures LastReplyOn(actions, before, conn) == LastReplyOn(actions, after, conn)
  {
    if actions != [] {
      var front, a := actions[..|actions| - 1], actions[|actions| - 1];
      assert forall i | 0 <= i < |front| :: front[i] == actions[i];
      LastReplyKept(front, before, after, conn);
    }
  }

  lemma {:induction false} LastReplyIsKnown(actions: seq<Action>, requests: seq<Request>, conn: string)
    ensures LastReplyOn(actions, requests, conn).Some? ==> RepliesOn(LastReplyOn(actions, requests, conn).value, requests, conn)
  {
    if actions != [] { LastReplyIsKnown(actions[..|actions| - 1], requests, conn); }
  }

  lemma RegistrationStep(h: Host, next: Host, a: Action, conn: string, r: nat)
    requires (a.Acknowledge? || a.CloseReply?) && a.req < |h.requests|
    requires next.registered ==
             if a.Acknowledge? && h.requests[a.req].kind.Configure? && h.requests[a.req].kind.grant
             then h.registered[h.requests[a.req].conn := a.req] else h.registered - {h.requests[a.req].conn}
    ensures RegisteredFor(next, conn, r) <==>
              if h.requests[a.req].conn == conn then a == Acknowledge(r) && Granted(h.requests[r]) else RegisteredFor(h, conn, r)
  { }

  predicate Registers(h: Host, actions: seq<Action>, conn: string, r: nat) {
    RegisteredFor(h, conn, r) <==> r < |h.requests| && h.requests[r].conn == conn && AcknowledgedLast(actions, h.requests, r)
  }

  lemma ReplyRegisters(s: State, actions: seq<Action>, a: Action, conn: string, r: nat)
    requires Enabled(s, a) && (a.Acknowledge? || a.CloseReply?)
    requires Registers(s.host, actions, conn, r) && RepliesKnown(actions, s.host.requests)
    ensures Registers(Apply(s, a).host, actions + [a], conn, r)
  {
    var h, next, more := s.host, Apply(s, a).host, actions + [a];
    StepKeepsAsked(s, a);
    assert more[..|more| - 1] == actions && more[|more| - 1] == a;
    LastReplyKept(actions, h.requests, next.requests, conn);
    RegistrationStep(h, next, a, conn, r);
    assert LastReplyOn(more, next.requests, conn) ==
           if h.requests[a.req].conn == conn then Some(a) else LastReplyOn(actions, h.requests, conn);
  }

  lemma OtherStepRegisters(s: State, actions: seq<Action>, a: Action, conn: string, r: nat)
    requires Enabled(s, a) && !a.Acknowledge? && !a.CloseReply? && !a.RevokeAll?
    requires Registers(s.host, actions, conn, r) && RepliesKnown(actions, s.host.requests)
    ensures Registers(Apply(s, a).host, actions + [a], conn, r)
  {
    var h, next, more := s.host, Apply(s, a).host, actions + [a];
    StepKeepsAsked(s, a);
    assert more[..|more| - 1] == actions && more[|more| - 1] == a;
    LastReplyKept(actions, h.requests, next.requests, conn);
    assert next.registered == h.registered;
    LastReplyIsKnown(actions, h.requests, conn);
    assert LastReplyOn(more, next.requests, conn) == LastReplyOn(actions, h.requests, conn);
  }

  // Over a run without another revocation the registrations are those of the last replies.
  lemma {:induction false} RunRegisters(s: State, actions: seq<Action>, conn: string, r: nat)
    requires s.host.registered == map[] && Run(s, actions) && NoRevokeAll(actions)
    ensures RepliesKnown(actions, After(s, actions).host.requests)
    ensures Registers(After(s, actions).host, actions, conn, r)
  {
    if actions != [] {
      var front, a := actions[..|actions| - 1], actions[|actions| - 1];
      assert actions == front + [a];
      LastAction(s, front, a);
      assert forall i | 0 <= i < |front| :: front[i] == actions[i];
      RunRegisters(s, front, conn, r);
      var t := After(s, front);
      StepKeepsAsked(t, a);
      if a.Acknowledge? || a.CloseReply? {
        ReplyRegisters(t, front, a, conn, r);
      } else {
        OtherStepRegisters(t, front, a, conn, r);
      }
    }
  }

  // No call of the host is in progress.
  predicate AtRest(h: Host) {
    h.stopping == {} && forall r: nat | r < |h.requests| :: !h.requests[r].waiting
  }

  // After the last revocation of everything, once no call is in progress, exactly the callbacks
  // are live whose Configure was acknowledged since, and last of the calls on its connection.
  lemma LiveAfterRevokeAll(s: State, later: seq<Action>, r: nat)
    requires Reachable(s) && Run(Apply(s, RevokeAll), later) && NoRevokeAll(later)
    requires AtRest(After(Apply(s, RevokeAll), later).host)
    ensures var h := After(Apply(s, RevokeAll), later).host;
            r in h.live <==> AcknowledgedLast(later, h.requests, r)
  {
    var u := Apply(s, RevokeAll);
    var t := After(u, later);
    ReachableOn(s, RevokeAll, later);
    NoCallbackLeaks(t);
    RegisteredValues(t);
    if r < |t.host.requests| { RunRegisters(u, later, t.host.requests[r].conn, r); }
    if r in t.host.live { RegisteredIsAsked(t, r); }
  }

  lemma ReachableOn(s: State, a: Action, later: seq<Action>)
    requires Reachable(s) && Enabled(s, a) && Run(Apply(s, a), later)
    ensures Reachable(After(Apply(s, a), later))
  {
    var actions :| Run(Initial, actions) && After(Initial, actions) == s;
    assert ([a] + later)[1..] == later;
    RunJoined(Initial, actions, [a] + later);
  }

  lemma RegisteredValues(t: State)
    ensures forall r :: r in t.host.registered.Values <==> exists conn :: RegisteredFor(t.host, conn, r)
  {
    forall r | r in t.host.registered.Values ensures exists conn :: RegisteredFor(t.host, conn, r) {
      var conn :| conn in t.host.registered && t.host.registered[conn] == r;
      assert RegisteredFor(t.host, conn, r);
    }
  }

  lemma RegisteredIsAsked(t: State, r: nat)
    requires Reachable(t) && r in t.host.registered.Values
    ensures r < |t.host.requests| && RegisteredFor(t.host, t.host.requests[r].conn, r)
  {
    ReachableKeeps(t);
    var conn :| conn in t.host.registered && t.host.registered[conn] == r;
  }

  // So nothing is left live exactly when no such acknowledgement came.
  lemma NothingLiveAfterRevokeAll(s: State, later: seq<Action>)
    requires Reachable(s) && Run(Apply(s, RevokeAll), later) && NoRevokeAll(later)
    requires AtRest(After(Apply(s, RevokeAll), later).host)
    ensures var h := After(Apply(s, RevokeAll), later).host;
            h.live == {} <==> forall r: nat | r < |h.requests| :: !AcknowledgedLast(later, h.requests, r)
  {
    var h := After(Apply(s, RevokeAll), later).host;
    forall r: nat ensures r in h.live <==> AcknowledgedLast(later, h.requests, r) { LiveAfterRevokeAll(s, later, r); }
  }

  // ---- on a closed host ----

  // Once closed, the host starts no further callback, and a call that returned stays returned.
  predicate ClosedSince(before: Host, after: Host) {
    && before.closed && after.closed && |before.requests| <= |after.requests|
    && (forall r: nat | r < |before.requests| && after.requests[r].waiting :: before.requests[r].waiting)
    && (forall r: nat | |before.requests| <= r < |after.requests| :: !Granted(after.requests[r]))
  }

  lemma StepStaysClosed(before: Host, s: State, a: Action)
    requires ClosedSince(before, s.host) && Enabled(s, a)
    ensures ClosedSince(before, Apply(s, a).host)
  { }

  lemma {:induction false} AcknowledgedWasWaiting(before: Host, s: State, actions: seq<Action>, r: nat)
    requires ClosedSince(before, s.host) && Run(s, actions) && Acknowledge(r) in actions
    requires r < |After(s, actions).host.requests| && Granted(After(s, actions).host.requests[r])
    ensures r < |before.requests| && before.requests[r].waiting
    decreases |actions|
  {
    StepStaysClosed(before, s, actions[0]);
    if actions[0] == Acknowledge(r) {
      GrantedStays(s, actions, r);
    } else {
      assert Acknowledge(r) in actions[1..];
      AcknowledgedWasWaiting(before, Apply(s, actions[0]), actions[1..], r);
    }
  }

  lemma {:induction false} GrantedStays(s: State, actions: seq<Action>, r: nat)
    requires Run(s, actions) && r < |s.host.requests|
    ensures SameAsked(s.host.requests, After(s, actions).host.requests)
    decreases |actions|
  {
    if actions != [] {
      StepKeepsAsked(s, actions[0]);
      GrantedStays(Apply(s, actions[0]), actions[1..], r);
    }
  }

  lemma {:induction false} LastReplyHappened(actions: seq<Action>, requests: seq<Request>, conn: string, a: Action)
    requires LastReplyOn(actions, requests, conn) == Some(a)
    ensures a in actions
  {
    if !RepliesOn(actions[|actions| - 1], requests, conn) {
      LastReplyHappened(actions[..|actions| - 1], requests, conn, a);
    }
  }

  // A callback that outlives Close belongs to a Configure that was in flight when everything was
  // revoked; so with none in flight nothing is left.
  lemma OnlyLateAcknowledgementsSurviveClose(s: State, later: seq<Action>, r: nat)
    requires Reachable(s) && s.host.closed && Run(Apply(s, RevokeAll), later) && NoRevokeAll(later)
    requires AtRest(After(Apply(s, RevokeAll), later).host) && r in After(Apply(s, RevokeAll), later).host.live
    ensures Acknowledge(r) in later && r < |s.host.requests| && s.host.requests[r].waiting
  {
    var u := Apply(s, RevokeAll);
    var h := After(u, later).host;
    LiveAfterRevokeAll(s, later, r);
    LastReplyHappened(later, h.requests, h.requests[r].conn, Acknowledge(r));
    AcknowledgedWasWaiting(u.host, u, later, r);
  }

  lemma ConfigureInFlight() returns (actions: seq<Action>)
    ensures Run(Initial, actions) && OrderedRun(Initial, actions)
    ensures After(Initial, actions).host == Host([Asked.(outcome := Accepted)], map[], {0}, {}, false)
  {
    var send := SendConfigure("c", "1", true);
    actions := [];
    Extend(Initial, actions, send); actions := actions + [send];
    Extend(Initial, actions, Begin(0)); actions := actions + [Begin(0)];
    Extend(Initial, actions, Replace); actions := actions + [Replace];
    Extend(Initial, actions, Finish); actions := actions + [Finish];
  }

  // And it can: a Configure acknowledged after Close leaves its callback live on a closed host.
  lemma LateAcknowledgementSurvivesClose() returns (actions: seq<Action>)
    ensures Run(Initial, actions)
    ensures var h := After(Initial, actions).host; h.closed && AtRest(h) && h.live == {0} && RegisteredFor(h, "c", 0)
  {
    actions := ConfigureInFlight();
    Extend(Initial, actions, Cancel); actions := actions + [Cancel];
    Extend(Initial, actions, RevokeAll); actions := actions + [RevokeAll];
    Extend(Initial, actions, Acknowledge(0)); actions := actions + [Acknowledge(0)];
  }
}
