/**
The host's connection-scoped publisher (internal/adapters/plugins/notifications.go) under any
interleaving of publications, service bindings, cancellation and revocation.

The read-write mutex is modelled as it works: readers share it, a writer that waits keeps new
readers out and gets it when the last reader leaves. Only the authority check and what the
core service commits happen under it.
*/
module ConnectionPublisher {
  // A revocation waits for the lock, holds it, and has cleared the flag before it unlocks.
  datatype Writer = Absent | Waiting | Holding | Cleared

  // Calls that hold the read lock: before the check, past it, and denied by it.
  datatype Authority = Authority(
    active: bool, cancelled: bool, entering: set<nat>, inside: set<nat>, denied: set<nat>, writer: Writer, stored: seq<string>)

  datatype Event =
    | RLock(call: nat)              // Publish or BindService
    | Check(call: nat)
    | Store(call: nat, row: string) // the core service commits
    | RUnlock(call: nat)
    | CancelContext
    | AskLock                       // revoke
    | Lock
    | Clear
    | Unlock                        // revoke returns

  const Granted := Authority(true, false, {}, {}, {}, Absent, [])

  function Readers(s: Authority): set<nat> { s.entering + s.inside + s.denied }

  predicate Possible(s: Authority, e: Event) {
    match e
    case RLock(k) => s.writer == Absent && k !in Readers(s)
    case Check(k) => k in s.entering
    case Store(k, _) => k in s.inside
    case RUnlock(k) => k in s.inside || k in s.denied
    case CancelContext => true
    case AskLock => s.writer == Absent
    case Lock => s.writer == Waiting && Readers(s) == {}
    case Clear => s.writer == Holding
    case Unlock => s.writer == Cleared
  }

  function Happen(s: Authority, e: Event): Authority
    requires Possible(s, e)
  {
    match e
    case RLock(k) => s.(entering := s.entering + {k})
    case Check(k) =>
      if s.active && !s.cancelled then s.(entering := s.entering - {k}, inside := s.inside + {k})
      else s.(entering := s.entering - {k}, denied := s.denied + {k})
    case Store(_, row) => s.(stored := s.stored + [row])
    case RUnlock(k) => s.(inside := s.inside - {k}, denied := s.denied - {k})
    case CancelContext => s.(cancelled := true)
    case AskLock => s.(writer := Waiting)
    case Lock => s.(writer := Holding)
    case Clear => s.(active := false, writer := Cleared)
    case Unlock => s.(writer := Absent)
  }

  predicate Run(s: Authority, events: seq<Event>)
    decreases |events|
  {
    events == [] || (Possible(s, events[0]) && Run(Happen(s, events[0]), events[1..]))
  }

  function After(s: Authority, events: seq<Event>): Authority
    requires Run(s, events)
    decreases |events|
  {
    if events == [] then s else After(Happen(s, events[0]), events[1..])
  }

  // A writer with the lock is alone, and without authority nobody is past the check.
  predicate Inv(s: Authority) {
    && (s.writer == Holding || s.writer == Cleared ==> Readers(s) == {})
    && (s.writer == Cleared ==> !s.active)
    && (!s.active ==> s.inside == {})
  }

  lemma {:induction false} RunKeeps(s: Authority, events: seq<Event>)
    requires Inv(s) && Run(s, events)
    ensures Inv(After(s, events))
    decreases |events|
  {
    if events != [] { RunKeeps(Happen(s, events[0]), events[1..]); }
  }

  lemma {:induction false} SilentOnceCleared(s: Authority, later: seq<Event>)
    requires Inv(s) && !s.active && Run(s, later)
    ensures After(s, later).stored == s.stored && After(s, later).inside == {} && !After(s, later).active
    decreases |later|
  {
    if later != [] { SilentOnceCleared(Happen(s, later[0]), later[1..]); }
  }

  // Nothing is stored, and no call is past the check, at any time after a revoke returns.
  lemma NothingStoredAfterRevoke(before: seq<Event>, later: seq<Event>)
    requires Run(Granted, before) && Possible(After(Granted, before), Unlock)
    requires Run(Happen(After(Granted, before), Unlock), later)
    ensures var s := After(Granted, before);
            var t := After(Happen(s, Unlock), later);
            t.stored == s.stored && s.inside == {} && t.inside == {}
  {
    RunKeeps(Granted, before);
    SilentOnceCleared(Happen(After(Granted, before), Unlock), later);
  }

  // A call past the check stays until it unlocks.
  lemma {:induction false} InsideUntilUnlocked(s: Authority, events: seq<Event>, call: nat)
    requires Run(s, events) && call in s.inside && RUnlock(call) !in events
    ensures call in After(s, events).inside
    decreases |events|
  {
    if events != [] {
      assert events[0] in events && forall e <- events[1..] :: e in events;
      InsideUntilUnlocked(Happen(s, events[0]), events[1..], call);
    }
  }

  // Revoke waits: before it can return, every call that was past the check has unlocked, so
  // everything such a call stored, it stored before.
  lemma RevokeWaitsForCallsInside(before: seq<Event>, mid: seq<Event>, call: nat)
    requires Run(Granted, before) && call in After(Granted, before).inside
    requires Run(After(Granted, before), mid) && Possible(After(After(Granted, before), mid), Unlock)
    ensures RUnlock(call) in mid
  {
    RunKeeps(Granted, before);
    RunKeeps(After(Granted, before), mid);
    if RUnlock(call) !in mid { InsideUntilUnlocked(After(Granted, before), mid, call); }
  }

  // It waits for nothing else: once the calls that hold the lock are gone, it can go through.
  lemma RevokeGoesThrough(before: seq<Event>)
    requires Run(Granted, before) && After(Granted, before).writer == Waiting && Readers(After(Granted, before)) == {}
    ensures Run(After(Granted, before), [Lock, Clear, Unlock])
    ensures !After(After(Granted, before), [Lock, Clear, Unlock]).active
  {
    var s := After(Granted, before);
    var t := Happen(s, Lock);
    var u := Happen(t, Clear);
    assert [Lock, Clear, Unlock][1..] == [Clear, Unlock] && [Clear, Unlock][1..] == [Unlock] && [Unlock][1..] == [];
    assert Run(u, [Unlock]) && Run(t, [Clear, Unlock]);
    assert After(u, [Unlock]) == Happen(u, Unlock) && After(t, [Clear, Unlock]) == Happen(u, Unlock);
  }

  // ---- calls that have authority ----

  lemma {:induction false} RunSplits(s: Authority, events: seq<Event>, e: Event)
    ensures Run(s, events + [e]) <==> Run(s, events) && Possible(After(s, events), e)
    ensures Run(s, events + [e]) ==> After(s, events + [e]) == Happen(After(s, events), e)
    decreases |events|
  {
    if events == [] {
      assert events + [e] == [e] && [e][1..] == [];
    } else if Possible(s, events[0]) {
      assert (events + [e])[1..] == events[1..] + [e];
      RunSplits(Happen(s, events[0]), events[1..], e);
    }
  }

  // A call past the check has passed it while the connection had its authority and was not
  // cancelled, and has held the lock since.
  lemma {:induction false} InsidePassedItsCheck(events: seq<Event>, call: nat) returns (i: nat)
    requires Run(Granted, events) && call in After(Granted, events).inside
    ensures i < |events| && events[i] == Check(call) && RUnlock(call) !in events[i..]
    ensures Run(Granted, events[..i]) && After(Granted, events[..i]).active && !After(Granted, events[..i]).cancelled
    decreases |events|
  {
    var k := |events| - 1;
    var front, e := events[..k], events[k];
    assert events == front + [e];
    RunSplits(Granted, front, e);
    if call in After(Granted, front).inside {
      i := InsidePassedItsCheck(front, call);
      assert events[..i] == front[..i] && events[i..] == front[i..] + [e];
    } else {
      i := k;
    }
  }

  // A call that asks while no revocation does, with authority and not cancelled, can store.
  lemma GrantedCallStores(before: seq<Event>, call: nat, row: string)
    requires Run(Granted, before)
    requires var s := After(Granted, before);
             s.active && !s.cancelled && s.writer == Absent && call !in Readers(s)
    ensures var s, events := After(Granted, before), [RLock(call), Check(call), Store(call, row), RUnlock(call)];
            Run(s, events) && After(s, events) == s.(stored := s.stored + [row])
  {
    var s := After(Granted, before);
    RunSplits(s, [], RLock(call));
    RunSplits(s, [RLock(call)], Check(call));
    RunSplits(s, [RLock(call), Check(call)], Store(call, row));
    RunSplits(s, [RLock(call), Check(call), Store(call, row)], RUnlock(call));
    assert [] + [RLock(call)] == [RLock(call)];
    assert [RLock(call)] + [Check(call)] == [RLock(call), Check(call)];
    assert [RLock(call), Check(call)] + [Store(call, row)] == [RLock(call), Check(call), Store(call, row)];
    assert [RLock(call), Check(call), Store(call, row)] + [RUnlock(call)] == [RLock(call), Check(call), Store(call, row), RUnlock(call)];
  }
}
