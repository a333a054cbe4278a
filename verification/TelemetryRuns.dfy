/**
Whole runs of the telemetry store, internal/adapters/sqlite/telemetry.go:17-200: what every
reachable store keeps, that pruning cannot be observed, and where a kept sample comes from.
*/
module TelemetryRuns {
  import opened Wrappers
  import opened Sets
  import opened Telemetry

  datatype Op =
    | Register(sources: seq<Source>)
    | Prune(now: int)
    | Ingest(batch: Batch, now: int)

  ghost function Step(s: Store, op: Op): Store {
    match op
    case Register(sources) => Registered(s, sources)
    case Prune(now) => Pruned(s, now)
    case Ingest(b, now) => Ingested(s, b, now)
  }

  ghost function Run(s: Store, ops: seq<Op>): Store {
    if ops == [] then s else Step(Run(s, ops[..|ops| - 1]), ops[|ops| - 1])
  }

  const Empty := Store(map[], map[])

  // ---- one row after each operation ----

  lemma {:induction false} ReportedRows(s: Store, b: Batch, hosts: seq<Observation>, now: int, id: HostId)
    ensures var after := WithReports(s, b, hosts, now);
            if id.source == b.source && id.node in Nodes(hosts)
            then id in after.hosts && after.hosts[id].observed == b.observed && after.hosts[id].received == now
            else (id in after.hosts <==> id in s.hosts) && (id in s.hosts ==> after.hosts[id] == s.hosts[id])
  {
    if hosts != [] {
      ReportedRows(s, b, hosts[..|hosts| - 1], now, id);
      assert hosts == hosts[..|hosts| - 1] + [hosts[|hosts| - 1]];
    }
  }

  lemma {:induction false} RegisteredRows(s: Store, sources: seq<Source>, id: HostId)
    ensures id in s.hosts ==> id in Registered(s, sources).hosts && Registered(s, sources).hosts[id] == s.hosts[id]
    ensures id !in s.hosts && id in Registered(s, sources).hosts ==>
              id.node == "" && id.source in sources && Registered(s, sources).hosts[id] == NewRow("")
    ensures Registered(s, sources).samples == s.samples
  {
    if sources != [] { RegisteredRows(s, sources[..|sources| - 1], id); }
  }

  // ---- what every reachable store keeps ----

  ghost predicate RootNewest(s: Store, id: HostId) {
    id in s.hosts ==>
      && Root(id.source) in s.hosts
      && s.hosts[id].observed <= s.hosts[Root(id.source)].observed && 0 <= s.hosts[Root(id.source)].observed
  }

  predicate Referential(s: Store) { forall key <- s.samples :: key.host in s.hosts }

  ghost predicate Inv(s: Store) {
    && (forall id :: RootNewest(s, id))
    && (forall source :: |HostsOf(s.hosts, source)| <= HostLimit)
    && Referential(s)
  }

  lemma FewerHosts(a: map<HostId, HostRow>, b: map<HostId, HostRow>, source: Source)
    requires forall id <- a :: id.source == source ==> id in b
    ensures |HostsOf(a, source)| <= |HostsOf(b, source)|
  {
    SubsetSize(HostsOf(a, source), HostsOf(b, source));
  }

  lemma WithoutExpiredKeeps(s: Store, now: int)
    requires Inv(s)
    ensures Inv(WithoutExpired(s, now))
  {
    var after := WithoutExpired(s, now);
    forall id ensures RootNewest(after, id) { assert RootNewest(s, id); }
    forall source ensures |HostsOf(after.hosts, source)| <= HostLimit { FewerHosts(after.hosts, s.hosts, source); }
  }

  lemma FewerSamplesKeep(s: Store, minute: int)
    requires Inv(s)
    ensures Inv(s.(samples := SamplesSince(s.samples, minute)))
  {
    var after := s.(samples := SamplesSince(s.samples, minute));
    forall id ensures RootNewest(after, id) { assert RootNewest(s, id); }
  }

  // A new root is the only host of its source: nodes never come without their root.
  lemma RegisterKeeps(s: Store, sources: seq<Source>)
    requires Inv(s)
    ensures Inv(Registered(s, sources))
  {
    var after := Registered(s, sources);
    forall id ensures RootNewest(after, id) {
      RegisteredRows(s, sources, id);
      RegisteredRows(s, sources, Root(id.source));
      assert RootNewest(s, id);
    }
    forall source ensures |HostsOf(after.hosts, source)| <= HostLimit {
      forall id | id in HostsOf(after.hosts, source)
        ensures if Root(source) in s.hosts then id in HostsOf(s.hosts, source) else id == Root(source)
      {
        RegisteredRows(s, sources, id);
        assert RootNewest(s, id);
      }
      if Root(source) in s.hosts {
        SubsetSize(HostsOf(after.hosts, source), HostsOf(s.hosts, source));
      } else {
        SubsetSize(HostsOf(after.hosts, source), {Root(source)});
      }
    }
    RegisteredRows(s, sources, Root(Source("", "")));
    forall key | key in after.samples ensures key.host in after.hosts { RegisteredRows(s, sources, key.host); }
  }

  lemma {:induction false} ReportedSamples(s: Store, b: Batch, hosts: seq<Observation>, now: int, key: SampleKey)
    requires key in WithReports(s, b, hosts, now).samples
    ensures if key.host.source == b.source && key.host.node in Nodes(hosts) && key.minute == MinuteOf(b.observed)
            then exists h <- hosts :: h.node == key.host.node && WithReports(s, b, hosts, now).samples[key] == h.metrics
            else key in s.samples && WithReports(s, b, hosts, now).samples[key] == s.samples[key]
  {
    if hosts != [] {
      var front, h := hosts[..|hosts| - 1], hosts[|hosts| - 1];
      assert hosts == front + [h];
      if key != SampleKey(HostId(b.source, h.node), MinuteOf(b.observed)) {
        ReportedSamples(s, b, front, now, key);
      }
    }
  }

  lemma ReportsKeep(s: Store, b: Batch, now: int)
    requires Inv(s) && ValidBatch(b, now) && b.observed > LastObserved(s, b.source)
    requires |HostsOf(WithReports(s, b, b.hosts, now).hosts, b.source)| <= HostLimit
    ensures Inv(WithReports(s, b, b.hosts, now))
  {
    var after := WithReports(s, b, b.hosts, now);
    assert "" in Nodes(b.hosts);
    forall id ensures RootNewest(after, id) {
      ReportedRows(s, b, b.hosts, now, id);
      ReportedRows(s, b, b.hosts, now, Root(id.source));
      assert RootNewest(s, id) && RootNewest(s, Root(id.source));
    }
    forall source ensures |HostsOf(after.hosts, source)| <= HostLimit {
      if source != b.source {
        forall id: HostId | id in after.hosts && id.source == source ensures id in s.hosts { ReportedRows(s, b, b.hosts, now, id); }
        FewerHosts(after.hosts, s.hosts, source);
      }
    }
    forall key | key in after.samples ensures key.host in after.hosts {
      ReportedSamples(s, b, b.hosts, now, key);
      ReportedRows(s, b, b.hosts, now, key.host);
    }
  }

  lemma LastObservedKept(s: Store, now: int, source: Source)
    ensures LastObserved(WithoutExpired(s, now), source) == LastObserved(s, source)
  { }

  lemma IngestKeeps(s: Store, b: Batch, now: int)
    requires Inv(s) && Stored(s, b, now)
    ensures Inv(Ingested(s, b, now))
  {
    WithoutExpiredKeeps(s, now);
    LastObservedKept(s, now, b.source);
    ReportsKeep(WithoutExpired(s, now), b, now);
    FewerSamplesKeep(Draft(s, b, now), MinuteOf(now - Day));
  }

  lemma StepKeeps(s: Store, op: Op)
    requires Inv(s)
    ensures Inv(Step(s, op))
  {
    match op
    case Register(sources) => RegisterKeeps(s, sources);
    case Prune(now) =>
      FewerSamplesKeep(s, MinuteOf(now - Day));
      WithoutExpiredKeeps(s.(samples := SamplesSince(s.samples, MinuteOf(now - Day))), now);
    case Ingest(b, now) =>
      if Stored(s, b, now) { IngestKeeps(s, b, now); }
  }

  // At most 128 hosts for each source, a root for every node, and the root observed last.
  lemma {:induction false} ReachableStoreKeeps(ops: seq<Op>)
    ensures Inv(Run(Empty, ops))
  {
    if ops != [] {
      ReachableStoreKeeps(ops[..|ops| - 1]);
      StepKeeps(Run(Empty, ops[..|ops| - 1]), ops[|ops| - 1]);
    } else {
      forall source ensures |HostsOf(Empty.hosts, source)| <= HostLimit { assert HostsOf(Empty.hosts, source) == {}; }
    }
  }

  // ---- pruning cannot be observed ----

  // Nothing but what is left by pruning at `t` matters from `t` on.
  ghost predicate Alike(a: Store, b: Store, t: int) { Pruned(a, t) == Pruned(b, t) }

  lemma PrunedRow(s: Store, t: int, id: HostId)
    ensures id in Pruned(s, t).hosts <==> id in s.hosts && !Expired(id, s.hosts[id], t)
    ensures id in Pruned(s, t).hosts ==> Pruned(s, t).hosts[id] == s.hosts[id]
  { }

  lemma PrunedSample(s: Store, t: int, key: SampleKey)
    ensures key in Pruned(s, t).samples <==>
              key in s.samples && key.minute >= MinuteOf(t - Day) && key.host in Pruned(s, t).hosts
    ensures key in Pruned(s, t).samples ==> Pruned(s, t).samples[key] == s.samples[key]
  { }

  lemma PrunedTwice(s: Store, t: int, u: int)
    requires t <= u
    ensures Pruned(Pruned(s, t), u) == Pruned(s, u)
  {
    var once := Pruned(s, t);
    MinutesAscend(t - Day, u - Day);
    forall id ensures id in Pruned(once, u).hosts <==> id in Pruned(s, u).hosts {
      PrunedRow(s, t, id);
      PrunedRow(once, u, id);
      PrunedRow(s, u, id);
    }
    forall key ensures key in Pruned(once, u).samples <==> key in Pruned(s, u).samples {
      PrunedSample(s, t, key);
      PrunedSample(once, u, key);
      PrunedSample(s, u, key);
      PrunedRow(once, u, key.host);
      PrunedRow(s, u, key.host);
      PrunedRow(s, t, key.host);
    }
    assert Pruned(once, u).hosts == Pruned(s, u).hosts;
    assert Pruned(once, u).samples == Pruned(s, u).samples;
  }

  lemma AlikeLater(a: Store, b: Store, t: int, u: int)
    requires Alike(a, b, t) && t <= u
    ensures Alike(a, b, u)
  {
    PrunedTwice(a, t, u);
    PrunedTwice(b, t, u);
  }

  lemma PruneIsAlike(s: Store, t: int)
    ensures Alike(s, Pruned(s, t), t)
  {
    PrunedTwice(s, t, t);
  }

  // A list at `t` shows what pruning at `t` leaves.
  lemma ListOfPruned(s: Store, t: int, discovered: set<Source>)
    ensures Listed(Pruned(s, t), t, discovered) == Listed(s, t, discovered)
  {
    var hosts := Pruned(s, t).hosts;
    var all := map id | id in s.hosts && !Expired(id, s.hosts[id], t) :: ViewOf(s.hosts[id], t);
    var left := map id | id in hosts && !Expired(id, hosts[id], t) :: ViewOf(hosts[id], t);
    assert left == all;
  }

  // A window never reaches back to a minute that pruning drops.
  lemma WindowIsRecent(t: int, n: nat, i: nat)
    requires n <= 1440 && i < n
    ensures MinuteOf(WindowStart(t, n) + i * Minute) >= MinuteOf(t - Day)
  {
    assert t - Day <= WindowStart(t, n) + i * Minute;
    MinutesAscend(t - Day, WindowStart(t, n) + i * Minute);
  }

  lemma WindowOfPruned(s: Store, t: int, id: HostId, n: nat)
    requires n <= 1440 && (id in s.hosts ==> !Expired(id, s.hosts[id], t)) && Referential(s)
    ensures Window(Pruned(s, t), id, t, n) == Window(s, id, t, n)
  {
    forall i | 0 <= i < n ensures Window(Pruned(s, t), id, t, n)[i] == Window(s, id, t, n)[i] {
      WindowIsRecent(t, n, i);
      PrunedRow(s, t, id);
      PrunedSample(s, t, SampleKey(id, MinuteOf(WindowStart(t, n) + i * Minute)));
    }
  }

  lemma DetailOfPruned(s: Store, t: int, id: HostId, window: string, discovered: set<Source>)
    requires Referential(s)
    ensures Detailed(Pruned(s, t), id, window, t, discovered) == Detailed(s, id, window, t, discovered)
  {
    ListOfPruned(s, t, discovered);
    if id in Listed(s, t, discovered) && Slots(window).Some? {
      WindowOfPruned(s, t, id, Slots(window).value);
    }
  }

  // Stores that are alike answer every later question alike.
  lemma AlikeAnswers(a: Store, b: Store, t: int, u: int, id: HostId, window: string, discovered: set<Source>)
    requires Inv(a) && Inv(b) && Alike(a, b, t) && t <= u
    ensures Listed(a, u, discovered) == Listed(b, u, discovered)
    ensures Detailed(a, id, window, u, discovered) == Detailed(b, id, window, u, discovered)
  {
    AlikeLater(a, b, t, u);
    ListOfPruned(a, u, discovered);
    ListOfPruned(b, u, discovered);
    DetailOfPruned(a, u, id, window, discovered);
    DetailOfPruned(b, u, id, window, discovered);
  }

  // ---- and stay alike through every later operation ----

  predicate From(op: Op, t: int) { op.Register? || op.now >= t }

  ghost function WithRoot(s: Store, source: Source): Store {
    if Root(source) in s.hosts then s else s.(hosts := s.hosts[Root(source) := NewRow("")])
  }

  lemma PrunedWithRoot(s: Store, t: int, source: Source)
    requires Referential(s)
    ensures Pruned(WithRoot(s, source), t) == WithRoot(Pruned(s, t), source)
  {
    var after := WithRoot(s, source);
    forall id ensures id in Pruned(after, t).hosts <==> id in WithRoot(Pruned(s, t), source).hosts {
      PrunedRow(after, t, id);
      PrunedRow(s, t, id);
    }
    forall key ensures key in Pruned(after, t).samples <==> key in Pruned(s, t).samples {
      PrunedSample(after, t, key);
      PrunedSample(s, t, key);
      PrunedRow(after, t, key.host);
      PrunedRow(s, t, key.host);
    }
    PrunedRow(s, t, Root(source));
    assert Pruned(after, t).hosts == WithRoot(Pruned(s, t), source).hosts;
    assert Pruned(after, t).samples == Pruned(s, t).samples;
  }

  lemma {:induction false} PrunedRegistered(s: Store, t: int, sources: seq<Source>)
    requires Referential(s)
    ensures Referential(Registered(s, sources)) && Pruned(Registered(s, sources), t) == Registered(Pruned(s, t), sources)
  {
    if sources != [] {
      var front := sources[..|sources| - 1];
      PrunedRegistered(s, t, front);
      PrunedWithRoot(Registered(s, front), t, sources[|sources| - 1]);
    }
  }

  // A stored batch leaves the same store whether or not the one before it was pruned.
  lemma WithoutExpiredAlike(a: Store, b: Store, t: int)
    requires Alike(a, b, t)
    ensures WithoutExpired(a, t).hosts == WithoutExpired(b, t).hosts
    ensures forall key: SampleKey | key.minute >= MinuteOf(t - Day) ::
              && (key in WithoutExpired(a, t).samples <==> key in WithoutExpired(b, t).samples)
              && (key in WithoutExpired(a, t).samples ==> WithoutExpired(a, t).samples[key] == WithoutExpired(b, t).samples[key])
  {
    assert WithoutExpired(a, t).hosts == Pruned(a, t).hosts && WithoutExpired(b, t).hosts == Pruned(b, t).hosts;
    forall key: SampleKey | key.minute >= MinuteOf(t - Day)
      ensures key in WithoutExpired(a, t).samples <==> key in WithoutExpired(b, t).samples
      ensures key in WithoutExpired(a, t).samples ==> WithoutExpired(a, t).samples[key] == WithoutExpired(b, t).samples[key]
    {
      PrunedSample(a, t, key);
      PrunedSample(b, t, key);
    }
  }

  lemma {:induction false} ReportsAlike(a: Store, b: Store, batch: Batch, hosts: seq<Observation>, now: int, since: int)
    requires a.hosts == b.hosts && SamplesSince(a.samples, since) == SamplesSince(b.samples, since)
    ensures WithReports(a, batch, hosts, now).hosts == WithReports(b, batch, hosts, now).hosts
    ensures SamplesSince(WithReports(a, batch, hosts, now).samples, since) ==
            SamplesSince(WithReports(b, batch, hosts, now).samples, since)
  {
    if hosts != [] {
      var front := hosts[..|hosts| - 1];
      ReportsAlike(a, b, batch, front, now, since);
      SampleAlike(WithReports(a, batch, front, now).samples, WithReports(b, batch, front, now).samples, since,
                  SampleKey(HostId(batch.source, hosts[|hosts| - 1].node), MinuteOf(batch.observed)), hosts[|hosts| - 1].metrics);
    }
  }

  lemma SampleAlike(a: map<SampleKey, Metrics>, b: map<SampleKey, Metrics>, since: int, key: SampleKey, m: Metrics)
    requires SamplesSince(a, since) == SamplesSince(b, since)
    ensures SamplesSince(a[key := m], since) == SamplesSince(b[key := m], since)
  {
    var x, y := SamplesSince(a[key := m], since), SamplesSince(b[key := m], since);
    forall k ensures (k in x <==> k in y) && (k in x ==> x[k] == y[k]) {
      assert k in SamplesSince(a, since) <==> k in SamplesSince(b, since);
      assert k in SamplesSince(a, since) ==> a[k] == SamplesSince(a, since)[k] && b[k] == SamplesSince(b, since)[k];
    }
  }

  lemma IngestAlike(a: Store, b: Store, batch: Batch, now: int)
    requires Alike(a, b, now)
    ensures Stored(a, batch, now) <==> Stored(b, batch, now)
    ensures IngestResult(a, batch, now) == IngestResult(b, batch, now)
    ensures Stored(a, batch, now) ==> Ingested(a, batch, now) == Ingested(b, batch, now)
  {
    var since := MinuteOf(now - Day);
    var x, y := WithoutExpired(a, now), WithoutExpired(b, now);
    WithoutExpiredAlike(a, b, now);
    assert SamplesSince(x.samples, since) == SamplesSince(y.samples, since);
    ReportsAlike(x, y, batch, batch.hosts, now, since);
    LastObservedKept(a, now, batch.source);
    LastObservedKept(b, now, batch.source);
  }

  lemma StepAlike(a: Store, b: Store, t: int, op: Op)
    requires Referential(a) && Referential(b) && Alike(a, b, t) && From(op, t)
    ensures Alike(Step(a, op), Step(b, op), t)
  {
    match op
    case Register(sources) =>
      PrunedRegistered(a, t, sources);
      PrunedRegistered(b, t, sources);
    case Prune(now) => AlikeLater(a, b, t, now);
    case Ingest(batch, now) =>
      AlikeLater(a, b, t, now);
      IngestAlike(a, b, batch, now);
  }

  lemma {:induction false} RunAlike(a: Store, b: Store, t: int, ops: seq<Op>)
    requires Inv(a) && Inv(b) && Alike(a, b, t) && forall op <- ops :: From(op, t)
    ensures Inv(Run(a, ops)) && Inv(Run(b, ops)) && Alike(Run(a, ops), Run(b, ops), t)
  {
    if ops != [] {
      var front, op := ops[..|ops| - 1], ops[|ops| - 1];
      assert From(op, t);
      RunAlike(a, b, t, front);
      StepKeeps(Run(a, front), op);
      StepKeeps(Run(b, front), op);
      StepAlike(Run(a, front), Run(b, front), t, op);
    }
  }

  // Pruning at t changes no answer given from t on, whatever is stored in between.
  lemma PruneIsInvisible(before: seq<Op>, t: int, after: seq<Op>, u: int, id: HostId, window: string, discovered: set<Source>)
    requires t <= u && forall op <- after :: From(op, t)
    ensures var s := Run(Empty, before);
            var kept, pruned := Run(s, after), Run(Pruned(s, t), after);
            && Listed(pruned, u, discovered) == Listed(kept, u, discovered)
            && Detailed(pruned, id, window, u, discovered) == Detailed(kept, id, window, u, discovered)
  {
    var s := Run(Empty, before);
    ReachableStoreKeeps(before);
    StepKeeps(s, Prune(t));
    PruneIsAlike(s, t);
    RunAlike(s, Pruned(s, t), t, after);
    AlikeAnswers(Run(s, after), Run(Pruned(s, t), after), t, u, id, window, discovered);
  }

  // A detail has one slot for each of the 60 or 1440 minutes up to now, with what is stored there.
  lemma DetailIsComplete(s: Store, id: HostId, window: string, now: int, discovered: set<Source>)
    ensures var r := Detailed(s, id, window, now, discovered);
            r.Ok? ==>
              var slots := r.value.samples;
              && |slots| == (if window == "24h" then 1440 else 60)
              && (forall i :: 0 <= i < |slots| ==> SlotAgrees(s, id, slots[i], now / Minute - |slots| + 1 + i))
              && (forall m :: now / Minute - |slots| < m <= now / Minute && SampleKey(id, m) in s.samples ==>
                    slots[m - now / Minute + |slots| - 1].metrics == s.samples[SampleKey(id, m)])
  {
    var r := Detailed(s, id, window, now, discovered);
    if r.Ok? {
      var n := |r.value.samples|;
      forall i | 0 <= i < n ensures SlotAgrees(s, id, r.value.samples[i], now / Minute - n + 1 + i) {
        assert WindowStart(now, n) + i * Minute == (now / Minute - n + 1 + i) * Minute;
        WholeMinute(now / Minute - n + 1 + i);
      }
    }
  }

  predicate SlotAgrees(s: Store, id: HostId, slot: Slot, minute: int) {
    slot.at == minute * Minute && slot.metrics == SampleAt(s, id, minute)
  }

  // ---- where a kept sample comes from ----

  // The i-th operation of a run is a batch that was stored.
  ghost predicate Accepted(ops: seq<Op>, i: nat) {
    i < |ops| && ops[i].Ingest? && Stored(Run(Empty, ops[..i]), ops[i].batch, ops[i].now)
  }

  ghost predicate ReportsAt(op: Op, key: SampleKey) {
    && op.Ingest? && op.batch.source == key.host.source && key.host.node in Nodes(op.batch.hosts)
    && MinuteOf(op.batch.observed) == key.minute
  }

  ghost predicate Carries(op: Op, key: SampleKey, m: Metrics) {
    ReportsAt(op, key) && exists h <- op.batch.hosts :: h.node == key.host.node && h.metrics == m
  }

  // The i-th operation brought the sample and no stored batch for its host and minute is newer.
  ghost predicate Origin(ops: seq<Op>, key: SampleKey, m: Metrics, i: nat) {
    && Accepted(ops, i) && Carries(ops[i], key, m)
    && forall j: nat | Accepted(ops, j) && ReportsAt(ops[j], key) :: ops[j].batch.observed <= ops[i].batch.observed
  }

  lemma LastObservedGrows(s: Store, op: Op, source: Source)
    requires Inv(s)
    ensures LastObserved(Step(s, op), source) >= LastObserved(s, source)
    ensures op.Ingest? && Stored(s, op.batch, op.now) ==> LastObserved(Step(s, op), op.batch.source) == op.batch.observed
  {
    match op
    case Register(sources) => RegisteredRows(s, sources, Root(source));
    case Prune(now) =>
    case Ingest(b, now) =>
      if Stored(s, b, now) {
        LastObservedKept(s, now, source);
        ReportedRows(WithoutExpired(s, now), b, b.hosts, now, Root(source));
        ReportedRows(WithoutExpired(s, now), b, b.hosts, now, Root(b.source));
      }
  }

  lemma PrefixAccepted(front: seq<Op>, op: Op, j: nat)
    requires j < |front|
    ensures Accepted(front + [op], j) <==> Accepted(front, j)
  {
    assert (front + [op])[..j] == front[..j];
  }

  lemma {:induction false} AcceptedIsBehind(ops: seq<Op>, j: nat)
    requires Accepted(ops, j)
    ensures ops[j].batch.observed <= LastObserved(Run(Empty, ops), ops[j].batch.source)
  {
    var front, op := ops[..|ops| - 1], ops[|ops| - 1];
    assert ops == front + [op];
    ReachableStoreKeeps(front);
    LastObservedGrows(Run(Empty, front), op, ops[j].batch.source);
    if j < |front| {
      PrefixAccepted(front, op, j);
      AcceptedIsBehind(front, j);
    } else {
      assert ops[..j] == front;
    }
  }

  // The origin in a prefix stays the origin when the next operation does not report the key.
  lemma OriginKept(front: seq<Op>, op: Op, key: SampleKey, m: Metrics, i: nat)
    requires Origin(front, key, m, i) && !(Accepted(front + [op], |front|) && ReportsAt(op, key))
    ensures Origin(front + [op], key, m, i)
  {
    var ops := front + [op];
    PrefixAccepted(front, op, i);
    forall j: nat | Accepted(ops, j) && ReportsAt(ops[j], key) ensures ops[j].batch.observed <= ops[i].batch.observed {
      if j < |front| { PrefixAccepted(front, op, j); }
    }
  }

  lemma OriginIsNew(front: seq<Op>, op: Op, key: SampleKey, m: Metrics)
    requires Accepted(front + [op], |front|) && Carries(op, key, m)
    ensures Origin(front + [op], key, m, |front|)
  {
    var ops := front + [op];
    assert ops[..|front|] == front;
    forall j: nat | Accepted(ops, j) && ReportsAt(ops[j], key) ensures ops[j].batch.observed <= op.batch.observed {
      if j < |front| {
        PrefixAccepted(front, op, j);
        AcceptedIsBehind(front, j);
      }
    }
  }

  // What a step leaves in a sample it had before, or the batch it takes it from.
  lemma StepSample(s: Store, op: Op, key: SampleKey)
    requires key in Step(s, op).samples
    ensures if op.Ingest? && Stored(s, op.batch, op.now) && ReportsAt(op, key)
            then Carries(op, key, Step(s, op).samples[key])
            else key in s.samples && s.samples[key] == Step(s, op).samples[key]
  {
    match op
    case Register(sources) => RegisteredRows(s, sources, key.host);
    case Prune(now) => PrunedSample(s, now, key);
    case Ingest(b, now) =>
      if Stored(s, b, now) { ReportedSamples(WithoutExpired(s, now), b, b.hosts, now, key); }
  }

  // A kept sample is from the newest stored batch of its minute that reported its host.
  lemma {:induction false} SampleIsFromNewestBatch(ops: seq<Op>, key: SampleKey) returns (i: nat)
    requires key in Run(Empty, ops).samples
    ensures Origin(ops, key, Run(Empty, ops).samples[key], i)
  {
    var front, op := ops[..|ops| - 1], ops[|ops| - 1];
    assert ops == front + [op] && ops[..|front|] == front;
    StepSample(Run(Empty, front), op, key);
    if Accepted(ops, |front|) && ReportsAt(op, key) {
      OriginIsNew(front, op, key, Run(Empty, ops).samples[key]);
      i := |front|;
    } else {
      i := SampleIsFromNewestBatch(front, key);
      OriginKept(front, op, key, Run(Empty, ops).samples[key], i);
    }
  }

  // The n-th operation is the newest stored batch of the key's source and minute.
  ghost predicate NewestOfMinute(ops: seq<Op>, key: SampleKey, n: nat) {
    && Accepted(ops, n) && OfMinute(ops[n], key)
    && forall j: nat | Accepted(ops, j) && OfMinute(ops[j], key) :: ops[j].batch.observed <= ops[n].batch.observed
  }

  predicate OfMinute(op: Op, key: SampleKey) {
    op.Ingest? && op.batch.source == key.host.source && MinuteOf(op.batch.observed) == key.minute
  }

  // Stored batches of one source get ever newer.
  lemma AcceptedGetNewer(ops: seq<Op>, i: nat, j: nat)
    requires i < j && Accepted(ops, i) && Accepted(ops, j) && ops[i].batch.source == ops[j].batch.source
    ensures ops[i].batch.observed < ops[j].batch.observed
  {
    var front := ops[..j];
    assert front[..i] == ops[..i] && front[i] == ops[i];
    AcceptedIsBehind(front, i);
  }

  // A kept sample is from the newest stored batch of its minute if and only if that batch
  // reports its host.
  lemma SampleIsFromNewestIffReported(ops: seq<Op>, key: SampleKey, n: nat)
    requires key in Run(Empty, ops).samples && NewestOfMinute(ops, key, n)
    ensures Origin(ops, key, Run(Empty, ops).samples[key], n) <==> key.host.node in Nodes(ops[n].batch.hosts)
  {
    if key.host.node in Nodes(ops[n].batch.hosts) {
      var i := SampleIsFromNewestBatch(ops, key);
      assert ReportsAt(ops[n], key) && OfMinute(ops[i], key);
      if i < n { AcceptedGetNewer(ops, i, n); } else if n < i { AcceptedGetNewer(ops, n, i); }
    }
  }

  // A stored batch leaves the samples of hosts it does not report, as far as they are kept.
  lemma {:induction false} UnreportedSampleStays(s: Store, b: Batch, hosts: seq<Observation>, now: int, key: SampleKey)
    requires key in s.samples && !(key.host.source == b.source && key.host.node in Nodes(hosts))
    ensures key in WithReports(s, b, hosts, now).samples && WithReports(s, b, hosts, now).samples[key] == s.samples[key]
  {
    if hosts != [] {
      assert hosts == hosts[..|hosts| - 1] + [hosts[|hosts| - 1]];
      UnreportedSampleStays(s, b, hosts[..|hosts| - 1], now, key);
    }
  }

  const Cluster := Source("kubernetes", "home")
  const Start: int := 100 * Second
  const RootSeen := Observation("", NoMetrics, "")
  const NodeSeen := Observation("node", Metrics(Some(1), None, None), "")
  const FirstBatch := Batch(Cluster, 61 * Second, [RootSeen, NodeSeen], true)
  const SecondBatch := Batch(Cluster, 62 * Second, [RootSeen], true)
  const NodeSample := SampleKey(HostId(Cluster, "node"), 1)

  lemma BatchesValid()
    ensures ValidBatch(FirstBatch, Start) && ValidBatch(SecondBatch, Start)
    ensures MinuteOf(FirstBatch.observed) == 1 && MinuteOf(SecondBatch.observed) == 1
  {
    assert FirstBatch.hosts[0] == RootSeen && SecondBatch.hosts[0] == RootSeen;
  }

  lemma FirstStored()
    ensures Stored(Empty, FirstBatch, Start)
    ensures Ingested(Empty, FirstBatch, Start).hosts.Keys == {Root(Cluster), HostId(Cluster, "node")}
    ensures Ingested(Empty, FirstBatch, Start).hosts[Root(Cluster)].observed == 61 * Second
    ensures Ingested(Empty, FirstBatch, Start).hosts[HostId(Cluster, "node")].received == Start
    ensures NodeSample in Ingested(Empty, FirstBatch, Start).samples
    ensures Ingested(Empty, FirstBatch, Start).samples[NodeSample] == NodeSeen.metrics
  {
    BatchesValid();
    var hosts := FirstBatch.hosts;
    assert hosts[..1] == [RootSeen] && hosts[..1][..0] == [];
    assert WithoutExpired(Empty, Start) == Empty;
    var draft := WithReport(WithReport(Empty, FirstBatch, RootSeen, Start), FirstBatch, NodeSeen, Start);
    assert WithReports(Empty, FirstBatch, [RootSeen], Start) == WithReport(Empty, FirstBatch, RootSeen, Start);
    assert Draft(Empty, FirstBatch, Start) == draft;
    SubsetSize(HostsOf(draft.hosts, Cluster), {Root(Cluster), HostId(Cluster, "node")});
  }

  // A newer batch of the same minute that does not report a host leaves the host's older sample.
  lemma NewerBatchLeavesOlderSample()
    ensures var first := Run(Empty, [Ingest(FirstBatch, Start)]);
            var both := Run(Empty, [Ingest(FirstBatch, Start), Ingest(SecondBatch, Start)]);
            && Stored(Empty, FirstBatch, Start) && Stored(first, SecondBatch, Start)
            && FirstBatch.observed < SecondBatch.observed
            && MinuteOf(FirstBatch.observed) == MinuteOf(SecondBatch.observed) == NodeSample.minute
            && NodeSample in both.samples && both.samples[NodeSample] == NodeSeen.metrics
  {
    BatchesValid();
    FirstStored();
    var ops := [Ingest(FirstBatch, Start), Ingest(SecondBatch, Start)];
    assert ops[..1] == [Ingest(FirstBatch, Start)] && ops[..1][..0] == [];
    var first := Ingested(Empty, FirstBatch, Start);
    var kept := WithoutExpired(first, Start);
    assert kept.hosts == first.hosts;
    assert SecondBatch.hosts == [RootSeen] && [RootSeen][..0] == [];
    assert WithReports(kept, SecondBatch, [RootSeen], Start) == WithReport(kept, SecondBatch, RootSeen, Start);
    assert Draft(first, SecondBatch, Start) == WithReport(kept, SecondBatch, RootSeen, Start);
    SubsetSize(HostsOf(Draft(first, SecondBatch, Start).hosts, Cluster), first.hosts.Keys);
    UnreportedSampleStays(kept, SecondBatch, SecondBatch.hosts, Start, NodeSample);
  }
}
