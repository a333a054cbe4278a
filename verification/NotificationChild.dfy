/**
The child's server as the code that holds notificationConfigureMu runs it
(plugin-sdk/runtime/backend.go:150-234, plugin-sdk/runtime/notifications.go:48-109 and 341-376):
each method is a run of the protocol's steps. Publications may be running. Where a method waits for the
lock of a publisher, the publications that hold it end first, and their ends are among the steps.
*/
module NotificationChild {
  import opened Wrappers
  import opened NotificationAuthority
  import opened AuthorityInvariant
  import opened AuthorityTheorems

  // The steps `actions` lead from s to t.
  ghost predicate Leads(s: State, actions: seq<Action>, t: State) { Run(s, actions) && After(s, actions) == t }

  lemma {:induction false} OneMoreStep(s: State, actions: seq<Action>, t: State, a: Action)
    requires Leads(s, actions, t) && Enabled(t, a)
    ensures Leads(s, actions + [a], Apply(t, a))
    decreases |actions|
  {
    var more := actions + [a];
    if actions == [] {
      assert more[1..] == [];
    } else {
      assert more[0] == actions[0] && more[1..] == actions[1..] + [a];
      OneMoreStep(Apply(s, actions[0]), actions[1..], t, a);
    }
  }

  // What the code relies on: indices stay inside the heap.
  ghost predicate Sound(c: Child) {
    && (forall k | k in c.calls :: c.calls[k].binding < |c.bindings|)
    && (forall k | k in c.table :: c.table[k] < |c.bindings|)
    && (forall b: nat | b < |c.bindings| && c.bindings[b].session.Some? :: c.bindings[b].session.value < |c.sessions|)
  }

  function CallsElsewhere(c: Child, b: nat): map<nat, Call> {
    map k | k in c.calls && c.calls[k].binding != b :: c.calls[k]
  }

  // Taking the write lock of a publisher: every publication through it ends, and nothing else happens.
  lemma {:induction false} TakeLock(s: State, done: seq<Action>, t: State, b: nat) returns (actions: seq<Action>, u: State)
    requires Leads(s, done, t)
    ensures Leads(s, actions, u) && u == t.(child := t.child.(calls := CallsElsewhere(t.child, b))) && Quiet(u.child, b)
    decreases |t.child.calls|
  {
    if Quiet(t.child, b) {
      actions, u := done, t;
      assert CallsElsewhere(t.child, b) == t.child.calls;
    } else {
      var k :| k in t.child.calls && t.child.calls[k].binding == b;
      OneMoreStep(s, done, t, EndCall(k));
      var next := Apply(t, EndCall(k));
      assert CallsElsewhere(next.child, b) == CallsElsewhere(t.child, b);
      assert next.child.calls.Keys == t.child.calls.Keys - {k};
      actions, u := TakeLock(s, done + [EndCall(k)], next, b);
    }
  }

  // A publisher that can no longer send.
  function Retired(b: Binding): Binding { b.(target := None, revoked := true) }

  function Shut(sessions: seq<Session>, o: Option<nat>): seq<Session> {
    if o.Some? && o.value < |sessions| then sessions[o.value := sessions[o.value].(open := false)] else sessions
  }

  // The connection has a publisher of this revision that can send, through an open session on the
  // callback of request r, exactly when the request carries one.
  predicate Serves(c: Child, conn: string, revision: string, grant: bool, r: nat) {
    && conn in c.table && c.table[conn] < |c.bindings|
    && var b := c.bindings[c.table[conn]];
    && !b.revoked && b.revision == revision && b.target.Some? == grant && b.session == b.target
    && (grant ==> b.target.value < |c.sessions| && c.sessions[b.target.value] == Session(r, true))
  }

  // Every other connection is as it was.
  predicate OthersKept(c: Child, d: Child, conn: string) {
    forall k | k in c.table && k != conn ::
      && k in d.table && d.table[k] == c.table[k] < |c.bindings| <= |d.bindings| && d.bindings[c.table[k]] == c.bindings[c.table[k]]
  }

  // A publisher kept for the same configuration stays in place; one for another can no longer send.
  predicate PriorSettled(c: Child, d: Child, conn: string, revision: string, grant: bool)
    requires conn in c.table
  {
    var b := c.table[conn];
    && b < |c.bindings| <= |d.bindings| && conn in d.table
    && (d.table[conn] == b <==> c.bindings[b].revision == revision && c.bindings[b].session.Some? == grant)
    && (d.table[conn] != b ==> d.bindings[b].revoked && d.bindings[b].target == None)
  }

  // What a Configure finds: no publisher in the table is revoked, and no two connections share one.
  predicate Found(c: Child) {
    && (forall k | k in c.table :: c.table[k] < |c.bindings| && Settled(c.bindings[c.table[k]]))
    && (forall k, l | k in c.table && l in c.table && k != l :: c.table[k] != c.table[l])
  }

  lemma ReachableTable(s: State)
    requires Reachable(s)
    ensures s.child.op.Idle? ==> Found(s.child)
  {
    ReachableKeeps(s);
  }

  // An accepted Configure has taken effect on its connection and on no other.
  predicate InEffect(c: Child, d: Child, conn: string, revision: string, grant: bool, r: nat) {
    && Serves(d, conn, revision, grant, r) && OthersKept(c, d, conn) && d.table.Keys == c.table.Keys + {conn}
    && (conn in c.table ==> PriorSettled(c, d, conn, revision, grant))
  }

  predicate SessionsInRange(c: Child) {
    forall b: nat | b < |c.bindings| && c.bindings[b].session.Some? :: c.bindings[b].session.value < |c.sessions|
  }

  lemma ReboundInEffect(c: Child, d: Child, conn: string, revision: string, r: nat)
    requires Found(c) && SessionsInRange(c) && conn in c.table && d.table == c.table
    requires c.bindings[c.table[conn]].revision == revision && c.bindings[c.table[conn]].session.Some?
    requires var b, x := c.table[conn], Some(|c.sessions|);
             && d.bindings == c.bindings[b := c.bindings[b].(target := x, session := x)]
             && d.sessions == Shut(c.sessions + [Session(r, true)], c.bindings[b].session)
    ensures InEffect(c, d, conn, revision, true, r)
  { }

  lemma KeptInEffect(c: Child, d: Child, conn: string, revision: string, r: nat)
    requires Found(c) && conn in c.table && d.table == c.table && d.bindings == c.bindings
    requires c.bindings[c.table[conn]].revision == revision && c.bindings[c.table[conn]].session.None?
    ensures InEffect(c, d, conn, revision, false, r)
  { }

  lemma ReplacedInEffect(c: Child, d: Child, conn: string, revision: string, grant: bool, r: nat, session: Option<nat>)
    requires Found(c) && SessionsInRange(c) && session == if grant then Some(|c.sessions|) else None
    requires conn in c.table ==>
               !(c.bindings[c.table[conn]].revision == revision && c.bindings[c.table[conn]].session.Some? == grant)
    requires d.table == c.table[conn := |c.bindings|]
    requires var made := c.bindings + [Binding(revision, session, session, false)];
             var sessions := c.sessions + if grant then [Session(r, true)] else [];
             if conn in c.table then
               && d.bindings == made[c.table[conn] := Retired(made[c.table[conn]])]
               && d.sessions == Shut(sessions, made[c.table[conn]].session)
             else d.bindings == made && d.sessions == sessions
    ensures InEffect(c, d, conn, revision, grant, r)
  { }

  class ChildServer {
    var sessions: seq<Session>
    var bindings: seq<Binding>
    var table: map<string, nat>

    ghost predicate Shows(c: Child)
      reads this
    {
      sessions == c.sessions && bindings == c.bindings && table == c.table
    }

    constructor ()
      ensures Shows(Initial.child)
    {
      sessions, bindings, table := [], [], map[];
    }

    method CloseSession(x: nat, ghost s: State, ghost done: seq<Action>, ghost t: State) returns (ghost actions: seq<Action>, ghost u: State)
      requires Leads(s, done, t) && Shows(t.child) && Sound(t.child) && x < |sessions|
      requires t.child.op.Cleaning? && t.child.op.closing == {x}
      modifies this`sessions
      ensures Leads(s, actions, u) && Shows(u.child) && Sound(u.child) && u.host == t.host
      ensures u.child.op == t.child.op.(closing := {}) && sessions == Shut(old(sessions), Some(x))
    {
      sessions := sessions[x := sessions[x].(open := false)];
      OneMoreStep(s, done, t, NotificationAuthority.CloseSession(x));
      actions, u := done + [NotificationAuthority.CloseSession(x)], Apply(t, NotificationAuthority.CloseSession(x));
    }

    method RevokeAndClose(b: nat, ghost s: State, ghost done: seq<Action>, ghost t: State) returns (ghost actions: seq<Action>, ghost u: State)
      requires Leads(s, done, t) && Shows(t.child) && Sound(t.child) && b < |bindings|
      requires t.child.op.Cleaning? && b in t.child.op.retire && t.child.op.closing == {}
      modifies this`bindings, this`sessions
      ensures Leads(s, actions, u) && Shows(u.child) && Sound(u.child) && u.host == t.host
      ensures u.child.op == t.child.op.(retire := t.child.op.retire - {b}, closing := {})
      ensures bindings == old(bindings)[b := Retired(old(bindings[b]))]
      ensures sessions == Shut(old(sessions), old(bindings[b].session))
    {
      var session := bindings[b].session;
      actions, u := TakeLock(s, done, t, b);
      bindings := bindings[b := bindings[b].(target := None, revoked := true)];
      OneMoreStep(s, actions, u, Action.Revoke(b));
      actions, u := actions + [Action.Revoke(b)], Apply(u, Action.Revoke(b));
      if session.Some? { actions, u := CloseSession(session.value, s, actions, u); }
    }

    // Replies whatever the operation decided.
    ghost method Finish(s: State, done: seq<Action>, t: State) returns (actions: seq<Action>, u: State)
      requires Leads(s, done, t) && Shows(t.child) && t.child.op.Cleaning? && t.child.op.retire == {} && t.child.op.closing == {}
      requires t.child.op.request.Some? ==> t.child.op.request.value < |t.host.requests|
      ensures Leads(s, actions, u) && Shows(u.child) && u.child == t.child.(op := Idle)
      ensures u.host == if t.child.op.request.None? then t.host
                        else t.host.(requests := Answer(t.host.requests, t.child.op.request.value, t.child.op.outcome))
    {
      OneMoreStep(s, done, t, Action.Finish);
      actions, u := done + [Action.Finish], Apply(t, Action.Finish);
    }

    // The part of Configure up to the call of the author's handler.
    method Begin(r: nat, ghost s: State, conn: string, revision: string, grant: bool)
      returns (same: bool, b: nat, session: Option<nat>, ghost actions: seq<Action>, ghost t: State)
      requires Shows(s.child) && Sound(s.child) && Enabled(s, Action.Begin(r))
      requires s.host.requests[r].conn == conn && s.host.requests[r].kind == Kind.Configure(revision, grant)
      modifies this`sessions, this`bindings
      ensures Leads(s, actions, t) && Shows(t.child) && Sound(t.child) && t == Apply(s, Action.Begin(r))
      ensures t.child.op == Handling(r, same, b, session) && b < |bindings| && session.Some? == grant
      ensures same <==> conn in table && bindings[table[conn]].revision == revision && bindings[table[conn]].session.Some? == grant
      ensures if same then table[conn] == b && bindings == old(bindings)
              else b == |old(bindings)| && bindings == old(bindings) + [Binding(revision, session, session, false)]
      ensures sessions == old(sessions) + if grant then [Session(r, true)] else []
      ensures session.Some? ==> session.value == |old(sessions)| < |sessions|
    {
      session := None;
      if grant {
        session := Some(|sessions|);
        sessions := sessions + [Session(r, true)];
      }
      same := conn in table && bindings[table[conn]].revision == revision && bindings[table[conn]].session.Some? == session.Some?;
      if same {
        b := table[conn];
      } else {
        b := |bindings|;
        bindings := bindings + [Binding(revision, session, session, false)];
      }
      OneMoreStep(s, [], s, Action.Begin(r));
      actions, t := [] + [Action.Begin(r)], Apply(s, Action.Begin(r));
    }

    // The handler returned an error.
    method Reject(r: nat, ghost s: State, ghost done: seq<Action>, ghost t: State, same: bool, b: nat, session: Option<nat>)
      returns (ghost actions: seq<Action>, ghost u: State)
      requires Leads(s, done, t) && Shows(t.child) && Sound(t.child) && t.child.op == Handling(r, same, b, session)
      requires r < |t.host.requests| && b < |bindings| && (session.Some? ==> session.value < |sessions|)
      modifies this`sessions, this`bindings
      ensures Leads(s, actions, u) && Shows(u.child) && Sound(u.child) && u.child.op == Idle
      ensures u.host == t.host.(requests := Answer(t.host.requests, r, Rejected))
      ensures bindings == if same then old(bindings) else old(bindings)[b := Retired(old(bindings[b]))]
    {
      OneMoreStep(s, done, t, HandlerRejects);
      actions, u := done + [HandlerRejects], Apply(t, HandlerRejects);
      if !same {
        actions, u := RevokeAndClose(b, s, actions, u);
      } else if session.Some? {
        actions, u := CloseSession(session.value, s, actions, u);
      }
      actions, u := Finish(s, actions, u);
    }

    // The same configuration again, with a publisher: the kept publisher moves to the new session.
    method Rebind(r: nat, ghost s: State, ghost done: seq<Action>, ghost t: State, b: nat, x: nat)
      returns (ok: bool, ghost actions: seq<Action>, ghost u: State)
      requires Leads(s, done, t) && Shows(t.child) && Sound(t.child) && t.child.op == Handling(r, true, b, Some(x))
      requires r < |t.host.requests| && b < |bindings| && x < |sessions| && bindings[b].session.Some?
      modifies this`sessions, this`bindings
      ensures Leads(s, actions, u) && Shows(u.child) && Sound(u.child) && u.child.op == Idle
      ensures ok <==> !old(bindings[b].revoked)
      ensures u.host == t.host.(requests := Answer(t.host.requests, r, if ok then Accepted else Rejected))
      ensures bindings == if ok then old(bindings)[b := old(bindings[b]).(target := Some(x), session := Some(x))] else old(bindings)
      ensures ok ==> sessions == Shut(old(sessions), old(bindings[b].session))
    {
      actions, u := TakeLock(s, done, t, b);
      ok := !bindings[b].revoked;
      if !ok {
        OneMoreStep(s, actions, u, RebindRefused);
        actions, u := CloseSession(x, s, actions + [RebindRefused], Apply(u, RebindRefused));
      } else {
        bindings := bindings[b := bindings[b].(target := Some(x))];
        OneMoreStep(s, actions, u, Action.Rebind);
        actions, u := actions + [Action.Rebind], Apply(u, Action.Rebind);
        var oldSession := bindings[b].session.value;
        bindings := bindings[b := bindings[b].(session := Some(x))];
        OneMoreStep(s, actions, u, Swap);
        actions, u := CloseSession(oldSession, s, actions + [Swap], Apply(u, Swap));
      }
      actions, u := Finish(s, actions, u);
    }

    // Another configuration: the new binding takes the place of the old one.
    method Replace(r: nat, ghost s: State, ghost done: seq<Action>, ghost t: State, conn: string, b: nat)
      returns (ghost actions: seq<Action>, ghost u: State)
      requires Leads(s, done, t) && Shows(t.child) && Sound(t.child) && t.child.op.Handling?
      requires t.child.op.req == r && !t.child.op.same && t.child.op.binding == b
      requires r < |t.host.requests| && t.host.requests[r].conn == conn && b < |bindings|
      modifies this
      ensures Leads(s, actions, u) && Shows(u.child) && Sound(u.child) && u.child.op == Idle
      ensures u.host == t.host.(requests := Answer(t.host.requests, r, Accepted))
      ensures table == old(table)[conn := b]
      ensures if conn in old(table) then
                && old(table)[conn] < |old(bindings)|
                && bindings == old(bindings)[old(table)[conn] := Retired(old(bindings)[old(table)[conn]])]
                && sessions == Shut(old(sessions), old(bindings)[old(table)[conn]].session)
              else bindings == old(bindings) && sessions == old(sessions)
    {
      var known, prior := conn in table, if conn in table then table[conn] else 0;
      table := table[conn := b];
      OneMoreStep(s, done, t, Action.Replace);
      actions, u := done + [Action.Replace], Apply(t, Action.Replace);
      if known { actions, u := RevokeAndClose(prior, s, actions, u); }
      actions, u := Finish(s, actions, u);
    }

    // One Configure; `rejected` is the answer of the author's handler.
    method Configure(r: nat, ghost s: State, conn: string, revision: string, grant: bool, rejected: bool)
      returns (ok: bool, ghost actions: seq<Action>, ghost t: State)
      requires Shows(s.child) && Sound(s.child) && Enabled(s, Action.Begin(r))
      requires s.host.requests[r].conn == conn && s.host.requests[r].kind == Kind.Configure(revision, grant)
      modifies this
      ensures Leads(s, actions, t) && Shows(t.child) && Sound(t.child) && t.child.op == Idle
      ensures t.host == s.host.(requests := Answer(s.host.requests, r, if ok then Accepted else Rejected))
      ensures rejected ==> !ok
      ensures !ok ==> table == old(table)
      ensures Reachable(s) ==> (ok <==> !rejected)
      ensures Reachable(s) && ok ==> InEffect(s.child, t.child, conn, revision, grant, r)
      ensures Reachable(s) && !ok ==> s.child.bindings <= bindings
    {
      if Reachable(s) { ReachableTable(s); }
      var same, b, session;
      same, b, session, actions, t := Begin(r, s, conn, revision, grant);
      ok := !rejected;
      if rejected {
        actions, t := Reject(r, s, actions, t, same, b, session);
      } else if same && session.Some? {
        ok, actions, t := Rebind(r, s, actions, t, b, session.value);
        if Found(s.child) { ReboundInEffect(s.child, t.child, conn, revision, r); }
      } else if same {
        OneMoreStep(s, actions, t, HandlerKeeps);
        actions, t := Finish(s, actions + [HandlerKeeps], Apply(t, HandlerKeeps));
        if Found(s.child) { KeptInEffect(s.child, t.child, conn, revision, r); }
      } else {
        actions, t := Replace(r, s, actions, t, conn, b);
        if Found(s.child) { ReplacedInEffect(s.child, t.child, conn, revision, grant, r, session); }
      }
    }

    // Whatever the author's handler answers, the binding goes.
    method CloseConnection(r: nat, ghost s: State, conn: string) returns (ghost actions: seq<Action>, ghost t: State)
      requires Shows(s.child) && Sound(s.child) && Enabled(s, BeginClose(r)) && s.host.requests[r].conn == conn
      modifies this
      ensures Leads(s, actions, t) && Shows(t.child) && Sound(t.child) && t.child.op == Idle
      ensures t.host == s.host.(requests := Answer(s.host.requests, r, Accepted))
      ensures table == old(table) - {conn}
      ensures if conn in old(table) then
                && old(table)[conn] < |old(bindings)|
                && bindings == old(bindings)[old(table)[conn] := Retired(old(bindings)[old(table)[conn]])]
                && sessions == Shut(old(sessions), old(bindings)[old(table)[conn]].session)
              else bindings == old(bindings) && sessions == old(sessions)
    {
      var known, prior := conn in table, if conn in table then table[conn] else 0;
      table := table - {conn};
      OneMoreStep(s, [], s, BeginClose(r));
      actions, t := [] + [BeginClose(r)], Apply(s, BeginClose(r));
      if known { actions, t := RevokeAndClose(prior, s, actions, t); }
      actions, t := Finish(s, actions, t);
    }

    method Shutdown(ghost s: State) returns (ghost actions: seq<Action>, ghost t: State)
      requires Shows(s.child) && Sound(s.child) && Enabled(s, BeginShutdown)
      modifies this
      ensures Leads(s, actions, t) && Shows(t.child) && Sound(t.child) && t.child.op == Idle
      ensures table == map[] && |bindings| == |old(bindings)|
      ensures forall b | b in old(table).Values :: b < |bindings| && bindings[b] == Retired(old(bindings)[b])
      ensures forall b: nat | b < |bindings| && b !in old(table).Values :: bindings[b] == old(bindings)[b]
    {
      var rest := table.Values;
      table := map[];
      OneMoreStep(s, [], s, BeginShutdown);
      actions, t := [] + [BeginShutdown], Apply(s, BeginShutdown);
      while rest != {}
        invariant Leads(s, actions, t) && Shows(t.child) && Sound(t.child) && table == map[]
        invariant t.child.op == Cleaning(None, Accepted, rest, {})
        invariant rest <= old(table).Values && |bindings| == |old(bindings)|
        invariant forall b | b in old(table).Values ::
                    b < |bindings| && bindings[b] == if b in rest then old(bindings)[b] else Retired(old(bindings)[b])
        invariant forall b: nat | b < |bindings| && b !in old(table).Values :: bindings[b] == old(bindings)[b]
      {
        var b :| b in rest;
        rest := rest - {b};
        actions, t := RevokeAndClose(b, s, actions, t);
      }
      actions, t := Finish(s, actions, t);
    }
  }

  // Every reachable state is one the methods can start from.
  lemma ReachableIsSound(s: State)
    requires Reachable(s)
    ensures Sound(s.child)
  {
    ReachableKeeps(s);
  }
}
