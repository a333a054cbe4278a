/**
The notification authority protocol between a host and one plugin child
(plugin-sdk/runtime/backend.go, plugin-sdk/runtime/notifications.go) as a step system.

Heap objects of the child are sequences indexed by creation order.  The callback a
Configure starts has the index of its request, because each Configure starts at most one.
A lock whose critical section touches only fields is one step that waits for the readers;
a read lock that spans an RPC is an entry of `calls`, present for as long as it is held.
*/
module NotificationAuthority {
  import opened Wrappers

  // A child-owned connection to the host callback of request `callback`.
  datatype Session = Session(callback: nat, open: bool)

  // A binding with its rebindable publisher.  The publisher exists exactly when `session`
  // does; `target` is what it sends through.
  datatype Binding = Binding(revision: string, session: Option<nat>, target: Option<nat>, revoked: bool)

  // A Publish or BindService holding the read lock of a binding's publisher.
  datatype Call = Call(binding: nat, session: nat)

  datatype Kind = Configure(revision: string, grant: bool) | CloseConnection

  datatype Outcome = Pending | Accepted | Rejected

  // `waiting` is the host's side: its call has not returned.  `outcome` is the child's side.
  datatype Request = Request(conn: string, kind: Kind, waiting: bool, outcome: Outcome)

  // The operation that holds notificationConfigureMu.  A Cleaning operation has decided its
  // outcome and still has to revoke the bindings in `retire` and close the sessions in `closing`.
  datatype Op =
    | Idle
    | Handling(req: nat, same: bool, binding: nat, session: Option<nat>)
    | Rebound(req: nat, binding: nat, onto: nat)
    | Cleaning(request: Option<nat>, outcome: Outcome, retire: set<nat>, closing: set<nat>)

  // `applied` and the `found` pair are history: the Configure that last took effect on a
  // connection, and what the latest Configure found when it began.
  datatype Child = Child(
    sessions: seq<Session>, bindings: seq<Binding>, table: map<string, nat>, calls: map<nat, Call>, op: Op,
    applied: map<string, nat>, foundTable: map<string, nat>, foundBindings: seq<Binding>)

  // `live` are callbacks that were started and not stopped.  `stopping` were removed from
  // `registered` by a call that has yet to stop them.  `closed` is the cancelled lifecycle.
  datatype Host = Host(
    requests: seq<Request>, registered: map<string, nat>, live: set<nat>, stopping: set<nat>, closed: bool)

  datatype State = State(host: Host, child: Child)

  datatype Action =
    | SendConfigure(conn: string, revision: string, grant: bool)
    | SendClose(conn: string)
    | GiveUp(req: nat)        // rejected, malformed or lost reply: stop the own callback
    | Acknowledge(req: nat)
    | CloseReply(req: nat)    // any result of CloseConnection revokes the callback
    | RevokeAll
    | Cancel
    | StopCallback(req: nat)
    | Refuse(req: nat)        // the child rejects before touching anything
    | Begin(req: nat)
    | HandlerRejects
    | HandlerKeeps            // same configuration without a publisher
    | Rebind
    | RebindRefused
    | Swap
    | Replace
    | BeginClose(req: nat)
    | BeginShutdown
    | Revoke(binding: nat)
    | CloseSession(session: nat)
    | Finish
    | BeginCall(call: nat, binding: nat)
    | EndCall(call: nat)

  const Initial: State :=
    State(Host([], map[], {}, {}, false), Child([], [], map[], map[], Idle, map[], map[], []))

  // No call holds the read lock of this publisher.
  predicate Quiet(c: Child, b: nat) { forall k | k in c.calls :: c.calls[k].binding != b }

  // The child compares revisions only.
  predicate SameConfiguration(c: Child, req: Request)
    requires req.kind.Configure?
  {
    && req.conn in c.table
    && var b := c.table[req.conn];
    && b < |c.bindings|
    && c.bindings[b].revision == req.kind.revision
    && c.bindings[b].session.Some? == req.kind.grant
  }

  predicate PendingConfigure(s: State, r: nat) {
    && r < |s.host.requests|
    && s.host.requests[r].kind.Configure?
    && s.host.requests[r].outcome == Pending
  }

  // The child is inside Configure, up to or past the rebinding of its publisher.
  predicate InHandler(s: State) {
    s.child.op.Handling? && s.child.op.req < |s.host.requests| && s.child.op.binding < |s.child.bindings|
  }

  predicate InRebound(s: State) {
    s.child.op.Rebound? && s.child.op.req < |s.host.requests| && s.child.op.binding < |s.child.bindings|
  }

  predicate CanRebind(s: State) {
    InHandler(s) && s.child.op.same && s.child.op.session.Some? && Quiet(s.child, s.child.op.binding)
  }

  predicate Enabled(s: State, a: Action) {
    var h, c := s.host, s.child;
    match a
    case SendConfigure(_, _, grant) => grant ==> !h.closed
    case SendClose(_) => true
    case GiveUp(r) => r < |h.requests| && h.requests[r].waiting && h.requests[r].kind.Configure?
    case Acknowledge(r) =>
      r < |h.requests| && h.requests[r].waiting && h.requests[r].kind.Configure? && h.requests[r].outcome == Accepted
    case CloseReply(r) => r < |h.requests| && h.requests[r].waiting && h.requests[r].kind.CloseConnection?
    case RevokeAll => true
    case Cancel => true
    case StopCallback(k) => k in h.stopping
    case Refuse(r) => c.op.Idle? && PendingConfigure(s, r)
    case Begin(r) => c.op.Idle? && PendingConfigure(s, r)
    case HandlerRejects => InHandler(s)
    case HandlerKeeps => InHandler(s) && c.op.same && c.op.session.None?
    case Rebind => CanRebind(s) && !c.bindings[c.op.binding].revoked
    case RebindRefused => CanRebind(s) && c.bindings[c.op.binding].revoked
    case Swap => InRebound(s)
    case Replace => InHandler(s) && !c.op.same
    case BeginClose(r) =>
      && c.op.Idle? && r < |h.requests| && h.requests[r].kind.CloseConnection? && h.requests[r].outcome == Pending
    case BeginShutdown => c.op.Idle?
    case Revoke(b) => c.op.Cleaning? && b in c.op.retire && b < |c.bindings| && Quiet(c, b)
    case CloseSession(x) => c.op.Cleaning? && x in c.op.closing && x < |c.sessions|
    case Finish =>
      && c.op.Cleaning? && c.op.retire == {} && c.op.closing == {}
      && (c.op.request.Some? ==> c.op.request.value < |h.requests|)
    case BeginCall(k, b) =>
      k !in c.calls && b < |c.bindings| && !c.bindings[b].revoked && c.bindings[b].target.Some?
    case EndCall(k) => k in c.calls
  }

  function AsSet(o: Option<nat>): set<nat> { if o.Some? then {o.value} else {} }

  function Lookup(m: map<string, nat>, k: string): set<nat> { if k in m then {m[k]} else {} }

  // The child's transitions, one function each; `requests` is what the wire carries.

  function BeginStep(c: Child, r: nat, req: Request): Child
    requires req.kind.Configure?
  {
    var session := if req.kind.grant then Some(|c.sessions|) else None;
    var same := SameConfiguration(c, req);
    c.(sessions := if req.kind.grant then c.sessions + [Session(r, true)] else c.sessions,
       bindings := if same then c.bindings else c.bindings + [Binding(req.kind.revision, session, session, false)],
       op := Handling(r, same, if same then c.table[req.conn] else |c.bindings|, session),
       foundTable := c.table, foundBindings := c.bindings)
  }

  function RejectStep(c: Child): Child
    requires c.op.Handling?
  {
    c.(op := if c.op.same then Cleaning(Some(c.op.req), Rejected, {}, AsSet(c.op.session))
             else Cleaning(Some(c.op.req), Rejected, {c.op.binding}, {}))
  }

  function KeepStep(c: Child, conn: string): Child
    requires c.op.Handling?
  {
    c.(op := Cleaning(Some(c.op.req), Accepted, {}, {}), applied := c.applied[conn := c.op.req])
  }

  function RebindStep(c: Child, conn: string): Child
    requires c.op.Handling? && c.op.session.Some? && c.op.binding < |c.bindings|
  {
    c.(op := Rebound(c.op.req, c.op.binding, c.op.session.value),
       bindings := c.bindings[c.op.binding := c.bindings[c.op.binding].(target := c.op.session)],
       applied := c.applied[conn := c.op.req])
  }

  function SwapStep(c: Child): Child
    requires c.op.Rebound? && c.op.binding < |c.bindings|
  {
    var prior := c.bindings[c.op.binding];
    c.(op := Cleaning(Some(c.op.req), Accepted, {}, AsSet(prior.session)),
       bindings := c.bindings[c.op.binding := prior.(session := Some(c.op.onto))])
  }

  function ReplaceStep(c: Child, conn: string): Child
    requires c.op.Handling?
  {
    c.(op := Cleaning(Some(c.op.req), Accepted, Lookup(c.table, conn), {}),
       table := c.table[conn := c.op.binding], applied := c.applied[conn := c.op.req])
  }

  function CloseStep(c: Child, r: nat, conn: string): Child {
    c.(op := Cleaning(Some(r), Accepted, Lookup(c.table, conn), {}),
       table := c.table - {conn}, applied := c.applied - {conn})
  }

  function ShutdownStep(c: Child): Child {
    c.(op := Cleaning(None, Accepted, c.table.Values, {}), table := map[], applied := map[])
  }

  function RevokeStep(c: Child, b: nat): Child
    requires c.op.Cleaning? && b < |c.bindings|
  {
    c.(op := c.op.(retire := c.op.retire - {b}, closing := c.op.closing + AsSet(c.bindings[b].session)),
       bindings := c.bindings[b := c.bindings[b].(target := None, revoked := true)])
  }

  function CloseSessionStep(c: Child, x: nat): Child
    requires c.op.Cleaning? && x < |c.sessions|
  {
    c.(op := c.op.(closing := c.op.closing - {x}), sessions := c.sessions[x := c.sessions[x].(open := false)])
  }

  function Answer(requests: seq<Request>, r: nat, outcome: Outcome): seq<Request>
    requires r < |requests|
  {
    requests[r := requests[r].(outcome := outcome)]
  }

  function Return(s: State, r: nat): seq<Request>
    requires r < |s.host.requests|
  {
    s.host.requests[r := s.host.requests[r].(waiting := false)]
  }

  function Apply(s: State, a: Action): State
    requires Enabled(s, a)
  {
    var h, c := s.host, s.child;
    match a
    case SendConfigure(conn, revision, grant) =>
      s.(host := h.(requests := h.requests + [Request(conn, Configure(revision, grant), true, Pending)],
                    live := if grant then h.live + {|h.requests|} else h.live))
    case SendClose(conn) =>
      s.(host := h.(requests := h.requests + [Request(conn, CloseConnection, true, Pending)]))
    case GiveUp(r) =>
      s.(host := h.(requests := Return(s, r), live := h.live - {r}))
    case Acknowledge(r) =>
      var req := h.requests[r];
      s.(host := h.(requests := Return(s, r),
                    registered := if req.kind.grant then h.registered[req.conn := r] else h.registered - {req.conn},
                    stopping := h.stopping + Lookup(h.registered, req.conn)))
    case CloseReply(r) =>
      var req := h.requests[r];
      s.(host := h.(requests := Return(s, r), registered := h.registered - {req.conn},
                    stopping := h.stopping + Lookup(h.registered, req.conn)))
    case RevokeAll =>
      s.(host := h.(registered := map[], stopping := h.stopping + h.registered.Values))
    case Cancel => s.(host := h.(closed := true))
    case StopCallback(k) => s.(host := h.(live := h.live - {k}, stopping := h.stopping - {k}))
    case Refuse(r) => s.(host := h.(requests := Answer(h.requests, r, Rejected)))
    case Begin(r) => s.(child := BeginStep(c, r, h.requests[r]))
    case HandlerRejects => s.(child := RejectStep(c))
    case HandlerKeeps => s.(child := KeepStep(c, h.requests[c.op.req].conn))
    case Rebind => s.(child := RebindStep(c, h.requests[c.op.req].conn))
    case RebindRefused => s.(child := RejectStep(c))
    case Swap => s.(child := SwapStep(c))
    case Replace => s.(child := ReplaceStep(c, h.requests[c.op.req].conn))
    case BeginClose(r) => s.(child := CloseStep(c, r, h.requests[r].conn))
    case BeginShutdown => s.(child := ShutdownStep(c))
    case Revoke(b) => s.(child := RevokeStep(c, b))
    case CloseSession(x) => s.(child := CloseSessionStep(c, x))
    case Finish =>
      State(if c.op.request.None? then h else h.(requests := Answer(h.requests, c.op.request.value, c.op.outcome)),
            c.(op := Idle))
    case BeginCall(k, b) =>
      s.(child := c.(calls := c.calls[k := Call(b, c.bindings[b].target.value)]))
    case EndCall(k) => s.(child := c.(calls := c.calls - {k}))
  }

  // A run: every action is enabled where it is taken.
  predicate Run(s: State, actions: seq<Action>)
    decreases |actions|
  {
    actions == [] || (Enabled(s, actions[0]) && Run(Apply(s, actions[0]), actions[1..]))
  }

  function After(s: State, actions: seq<Action>): State
    requires Run(s, actions)
    decreases |actions|
  {
    if actions == [] then s else After(Apply(s, actions[0]), actions[1..])
  }

  // What the child's binding of a connection sends through.
  function Dials(c: Child, conn: string): Option<nat> {
    if conn in c.table && c.table[conn] < |c.bindings| && c.bindings[c.table[conn]].target.Some?
       && c.bindings[c.table[conn]].target.value < |c.sessions|
    then Some(c.sessions[c.bindings[c.table[conn]].target.value].callback)
    else None
  }
}
