/**
Host telemetry, internal/adapters/sqlite/telemetry.go:17-200 with
internal/application/telemetry/model.go:70-151. Times are nanoseconds since the Unix epoch. A host
is identified by its source and node, which is what its ID digests; the host with no node name
is the root of its source. Samples are deleted with their host.
*/
module Telemetry {
  import opened Wrappers

  const Second: int := 1_000_000_000
  const Minute: int := 60_000_000_000
  const Day: int := 86_400_000_000_000
  const HostLimit: nat := 128

  datatype Source = Source(kind: string, id: string)

  datatype HostId = HostId(source: Source, node: string)

  datatype Metrics = Metrics(cpu: Option<int>, used: Option<int>, total: Option<int>)

  // `details` stands for workloads, architecture and readiness.
  datatype Observation = Observation(node: string, metrics: Metrics, details: string)

  // `sound` says that every text, metric and workload in the batch passes its own check.
  datatype Batch = Batch(source: Source, observed: int, hosts: seq<Observation>, sound: bool)

  datatype HostRow = HostRow(observed: int, received: int, observation: Observation)

  datatype SampleKey = SampleKey(host: HostId, minute: int)

  datatype Store = Store(hosts: map<HostId, HostRow>, samples: map<SampleKey, Metrics>)

  datatype TelemetryError = InvalidBatch | HostLimitReached | NoSuchHost | InvalidRange

  const NoMetrics := Metrics(None, None, None)

  // Go's division truncates toward zero; Unix() itself rounds down.
  function Quotient(a: int, b: int): int
    requires b > 0
  {
    if a >= 0 then a / b else -(-a / b)
  }

  function MinuteOf(t: int): int { Quotient(t / Second, 60) }

  function Root(source: Source): HostId { HostId(source, "") }

  // ---- registration ----

  function NewRow(node: string): HostRow { HostRow(0, 0, Observation(node, NoMetrics, "")) }

  // A root that is already stored stays as it is.
  function Registered(s: Store, sources: seq<Source>): Store {
    if sources == [] then s
    else
      var before := Registered(s, sources[..|sources| - 1]);
      var id := Root(sources[|sources| - 1]);
      if id in before.hosts then before else before.(hosts := before.hosts[id := NewRow("")])
  }

  // ---- expiry ----

  predicate Expired(id: HostId, row: HostRow, now: int) { id.node != "" && row.received < now - Day }

  function LiveHosts(hosts: map<HostId, HostRow>, now: int): map<HostId, HostRow> {
    map id | id in hosts && !Expired(id, hosts[id], now) :: hosts[id]
  }

  function SamplesOf(samples: map<SampleKey, Metrics>, hosts: set<HostId>): map<SampleKey, Metrics> {
    map key | key in samples && key.host in hosts :: samples[key]
  }

  function SamplesSince(samples: map<SampleKey, Metrics>, minute: int): map<SampleKey, Metrics> {
    map key | key in samples && key.minute >= minute :: samples[key]
  }

  function WithoutExpired(s: Store, now: int): Store {
    var hosts := LiveHosts(s.hosts, now);
    Store(hosts, SamplesOf(s.samples, hosts.Keys))
  }

  function Pruned(s: Store, now: int): Store {
    WithoutExpired(s.(samples := SamplesSince(s.samples, MinuteOf(now - Day))), now)
  }

  // ---- batches ----

  predicate UniqueNodes(hosts: seq<Observation>) {
    forall i, j :: 0 <= i < j < |hosts| ==> hosts[i].node != hosts[j].node
  }

  ghost predicate ValidBatch(b: Batch, now: int) {
    && b.source.kind in {"container", "kubernetes"} && b.sound
    && now - Day <= b.observed <= now + 30 * Second
    && 1 <= |b.hosts| <= HostLimit
    && UniqueNodes(b.hosts)
    && (b.source.kind == "container" ==> |b.hosts| == 1)
    && (exists h <- b.hosts :: h.node == "")
  }

  function Nodes(hosts: seq<Observation>): set<string> { set h <- hosts :: h.node }

  method Validate(b: Batch, now: int) returns (ok: bool)
    ensures ok <==> ValidBatch(b, now)
  {
    if (b.source.kind != "container" && b.source.kind != "kubernetes") || !b.sound { return false; }
    if b.observed < now - Day || b.observed > now + 30 * Second { return false; }
    if |b.hosts| == 0 || |b.hosts| > HostLimit || (b.source.kind == "container" && |b.hosts| != 1) { return false; }
    var seen: set<string> := {};
    for k := 0 to |b.hosts|
      invariant UniqueNodes(b.hosts[..k]) && seen == Nodes(b.hosts[..k])
      invariant b.source.kind == "container" ==> forall h <- b.hosts[..k] :: h.node == ""
    {
      var h := b.hosts[k];
      assert b.hosts[..k + 1] == b.hosts[..k] + [h];
      if h.node in seen || (b.source.kind == "container" && h.node != "") { return false; }
      seen := seen + {h.node};
    }
    assert b.hosts[..|b.hosts|] == b.hosts;
    return "" in seen;
  }

  function LastObserved(s: Store, source: Source): int {
    if Root(source) in s.hosts then s.hosts[Root(source)].observed else 0
  }

  function HostsOf(hosts: map<HostId, HostRow>, source: Source): set<HostId> {
    set id <- hosts | id.source == source
  }

  function WithReport(s: Store, b: Batch, h: Observation, now: int): Store {
    var id := HostId(b.source, h.node);
    Store(s.hosts[id := HostRow(b.observed, now, h)], s.samples[SampleKey(id, MinuteOf(b.observed)) := h.metrics])
  }

  function WithReports(s: Store, b: Batch, hosts: seq<Observation>, now: int): Store {
    if hosts == [] then s
    else WithReport(WithReports(s, b, hosts[..|hosts| - 1], now), b, hosts[|hosts| - 1], now)
  }

  // Expired hosts go before the batch is stored and counted.
  function Draft(s: Store, b: Batch, now: int): Store { WithReports(WithoutExpired(s, now), b, b.hosts, now) }

  ghost predicate Stored(s: Store, b: Batch, now: int) {
    && ValidBatch(b, now) && b.observed > LastObserved(s, b.source)
    && |HostsOf(Draft(s, b, now).hosts, b.source)| <= HostLimit
  }

  ghost function Ingested(s: Store, b: Batch, now: int): Store {
    if Stored(s, b, now) then
      var draft := Draft(s, b, now);
      draft.(samples := SamplesSince(draft.samples, MinuteOf(now - Day)))
    else s
  }

  ghost function IngestResult(s: Store, b: Batch, now: int): Result<(), TelemetryError> {
    if !ValidBatch(b, now) then Err(InvalidBatch)
    else if b.observed > LastObserved(s, b.source) && !Stored(s, b, now) then Err(HostLimitReached)
    else Ok(())
  }

  // ---- reading ----

  datatype Status = Unavailable | Fresh | Stale | Partial

  datatype View = View(observed: Option<int>, received: Option<int>, observation: Observation, status: Status)

  function Stamp(t: int): Option<int> { if t != 0 then Some(t) else None }

  function StatusOf(row: HostRow, now: int): Status {
    if row.received == 0 || row.observed == 0 then Unavailable
    else if now - row.received > 3 * Minute || now - row.observed > 3 * Minute then Stale
    else
      var m := row.observation.metrics;
      if m.cpu.None? || m.used.None? || m.total.None? then Partial else Fresh
  }

  function ViewOf(row: HostRow, now: int): View {
    View(Stamp(row.observed), Stamp(row.received), row.observation, StatusOf(row, now))
  }

  const Bare := View(None, None, Observation("", NoMetrics, ""), Unavailable)

  // Hosts not expired, and a bare root for every other source that discovery knows.
  function Listed(s: Store, now: int, discovered: set<Source>): map<HostId, View> {
    (map source | source in discovered :: Root(source) := Bare)
    + (map id | id in s.hosts && !Expired(id, s.hosts[id], now) :: ViewOf(s.hosts[id], now))
  }

  datatype Slot = Slot(at: int, metrics: Metrics)

  datatype HostDetail = HostDetail(host: View, children: map<HostId, View>, samples: seq<Slot>)

  function Slots(window: string): Option<nat> {
    if window == "24h" then Some(1440) else if window == "1h" then Some(60) else None
  }

  function SampleAt(s: Store, id: HostId, minute: int): Metrics {
    if SampleKey(id, minute) in s.samples then s.samples[SampleKey(id, minute)] else NoMetrics
  }

  // The first of `n` minutes that end with the minute of `now`.
  function WindowStart(now: int, n: nat): int { now / Minute * Minute - n * Minute + Minute }

  function Window(s: Store, id: HostId, now: int, n: nat): seq<Slot> {
    seq(n, i requires 0 <= i < n =>
      var at := WindowStart(now, n) + i * Minute;
      Slot(at, SampleAt(s, id, MinuteOf(at))))
  }

  function Detailed(s: Store, id: HostId, window: string, now: int, discovered: set<Source>): Result<HostDetail, TelemetryError> {
    var hosts := Listed(s, now, discovered);
    if id !in hosts then Err(NoSuchHost)
    else if Slots(window) == None then Err(InvalidRange)
    else
      Ok(HostDetail(hosts[id],
                map child | child in hosts && child.node != "" && Root(child.source) == id :: hosts[child],
                Window(s, id, now, Slots(window).value)))
  }

  lemma WholeMinute(k: int)
    ensures MinuteOf(k * Minute) == k
  {
    assert k * Minute == (k * 60) * Second;
    assert (k * 60) * Second / Second == k * 60;
  }

  lemma MinutesAscend(t: int, u: int)
    requires t <= u
    ensures MinuteOf(t) <= MinuteOf(u)
  { }

  function SelectSamples(samples: map<SampleKey, Metrics>, id: HostId, from: int, to: int): map<int, Metrics> {
    map key | key in samples && key.host == id && from <= key.minute <= to :: key.minute := samples[key]
  }

  lemma SelectedIsStored(s: Store, id: HostId, from: int, to: int, m: int)
    requires from <= m <= to
    ensures var found := SelectSamples(s.samples, id, from, to);
            SampleAt(s, id, m) == if m in found then found[m] else NoMetrics
  {
    var found := SelectSamples(s.samples, id, from, to);
    if SampleKey(id, m) in s.samples { assert m in found; }
  }

  // Discovered sources without a host of their own stay visible.
  method AddDiscovered(listed: map<HostId, View>, discovered: set<Source>) returns (result: map<HostId, View>)
    ensures result == (map source | source in discovered :: Root(source) := Bare) + listed
  {
    result := listed;
    var rest := discovered;
    while rest != {}
      invariant rest <= discovered
      invariant result == (map source | source in discovered - rest :: Root(source) := Bare) + listed
    {
      var source :| source in rest;
      rest := rest - {source};
      if Root(source) !in result { result := result[Root(source) := Bare]; }
    }
  }

  // ---- what each call means, row by row ----

  predicate Keeps(id: HostId, row: HostRow, now: int) { id.node == "" || row.received >= now - Day }

  predicate Reports(b: Batch, id: HostId) { id.source == b.source && exists h <- b.hosts :: h.node == id.node }

  // A row for each missing root, with nothing in it.
  ghost predicate RootsAdded(s: Store, t: Store, sources: seq<Source>) {
    && t.samples == s.samples
    && t.hosts.Keys == s.hosts.Keys + (set source <- sources :: Root(source))
    && forall id <- t.hosts ::
         t.hosts[id] == if id in s.hosts then s.hosts[id] else HostRow(0, 0, Observation("", Metrics(None, None, None), ""))
  }

  // Nodes not received for a day go with their samples, and so do samples older than a day.
  ghost predicate OldGone(s: Store, t: Store, now: int) {
    && (forall id :: id in t.hosts <==> id in s.hosts && Keeps(id, s.hosts[id], now))
    && (forall id <- t.hosts :: t.hosts[id] == s.hosts[id])
    && (forall key :: key in t.samples <==> key in s.samples && key.minute >= MinuteOf(now - Day) && key.host in t.hosts)
    && (forall key <- t.samples :: t.samples[key] == s.samples[key])
  }

  // The hosts of a source once a batch is stored.
  function HostsWith(s: Store, b: Batch, now: int): set<HostId> {
    (set id <- s.hosts | id.source == b.source && Keeps(id, s.hosts[id], now))
    + (set h <- b.hosts :: HostId(b.source, h.node))
  }

  ghost predicate HostsReplaced(s: Store, t: Store, b: Batch, now: int) {
    && (forall h <- b.hosts ::
          && HostId(b.source, h.node) in t.hosts
          && t.hosts[HostId(b.source, h.node)] == HostRow(b.observed, now, h))
    && (forall id | !Reports(b, id) ::
          && (id in t.hosts <==> id in s.hosts && Keeps(id, s.hosts[id], now))
          && (id in t.hosts ==> t.hosts[id] == s.hosts[id]))
  }

  predicate InBatch(b: Batch, key: SampleKey) { Reports(b, key.host) && key.minute == MinuteOf(b.observed) }

  // Older samples of a reported host stay with its row, if that had not expired.
  ghost predicate SamplesReplaced(s: Store, t: Store, b: Batch, now: int) {
    && (forall h <- b.hosts ::
          && SampleKey(HostId(b.source, h.node), MinuteOf(b.observed)) in t.samples
          && t.samples[SampleKey(HostId(b.source, h.node), MinuteOf(b.observed))] == h.metrics)
    && (forall key | !InBatch(b, key) ::
          && (key in t.samples <==>
                && key in s.samples && key.minute >= MinuteOf(now - Day)
                && key.host in s.hosts && Keeps(key.host, s.hosts[key.host], now))
          && (key in t.samples ==> t.samples[key] == s.samples[key]))
  }

  // A valid batch that is newer than its root and within the limit is stored as reported; an
  // older one is passed over, and any other is refused.
  ghost predicate IngestAnswers(s: Store, t: Store, b: Batch, now: int, r: Result<(), TelemetryError>) {
    var newer := b.observed > if Root(b.source) in s.hosts then s.hosts[Root(b.source)].observed else 0;
    if ValidBatch(b, now) && newer && |HostsWith(s, b, now)| <= 128 then
      r == Ok(()) && HostsReplaced(s, t, b, now) && SamplesReplaced(s, t, b, now)
    else
      t == s && r == if !ValidBatch(b, now) then Err(InvalidBatch) else if newer then Err(HostLimitReached) else Ok(())
  }

  // A view shows the row as it is, and is fresh when both its times are known and at most three
  // minutes old and every metric is there.
  ghost predicate Shows(view: View, row: HostRow, now: int) {
    && view.observation == row.observation
    && view.observed == (if row.observed == 0 then None else Some(row.observed))
    && view.received == (if row.received == 0 then None else Some(row.received))
    && (view.status == Unavailable <==> row.observed == 0 || row.received == 0)
    && (view.status == Stale <==> view.status != Unavailable && (row.observed < now - 3 * Minute || row.received < now - 3 * Minute))
    && (view.status == Fresh ==> row.observation.metrics.cpu.Some? && row.observation.metrics.used.Some? && row.observation.metrics.total.Some?)
    && (view.status == Partial ==>
          row.observation.metrics.cpu.None? || row.observation.metrics.used.None? || row.observation.metrics.total.None?)
  }

  ghost predicate ListAnswers(s: Store, now: int, discovered: set<Source>, result: map<HostId, View>) {
    && (forall id :: id in result <==> (id in s.hosts && Keeps(id, s.hosts[id], now)) || (id.node == "" && id.source in discovered))
    && (forall id <- result ::
          if id in s.hosts then Shows(result[id], s.hosts[id], now)
          else result[id] == View(None, None, Observation("", Metrics(None, None, None), ""), Unavailable))
  }

  // A detail is refused for a host that is not listed, then for an unknown window; the root of a
  // source has all its listed nodes as children and a node has none.
  ghost predicate DetailAnswers(listed: map<HostId, View>, id: HostId, window: string, r: Result<HostDetail, TelemetryError>) {
    && (r == Err(NoSuchHost) <==> id !in listed)
    && (r.Ok? <==> id in listed && window in {"1h", "24h"})
    && (r.Err? ==> r.error in {NoSuchHost, InvalidRange})
    && (r.Ok? ==>
          && r.value.host == listed[id]
          && (forall child :: child in r.value.children <==>
                id.node == "" && child.node != "" && child.source == id.source && child in listed)
          && (forall child <- r.value.children :: r.value.children[child] == listed[child]))
  }

  // Minutes are counted from the epoch.
  lemma MinuteHolds(t: int)
    requires t >= 0
    ensures MinuteOf(t) * Minute <= t < (MinuteOf(t) + 1) * Minute
  {
    var s := t / Second;
    assert s * Second <= t < (s + 1) * Second && s / 60 * 60 <= s < (s / 60 + 1) * 60;
  }

  lemma {:induction false} RootsAreAdded(s: Store, sources: seq<Source>)
    ensures RootsAdded(s, Registered(s, sources), sources)
  {
    if sources != [] {
      var front := sources[..|sources| - 1];
      RootsAreAdded(s, front);
      assert sources == front + [sources[|sources| - 1]];
    }
  }

  lemma OldIsGone(s: Store, now: int)
    ensures OldGone(s, Pruned(s, now), now)
  { }

  // A stored batch, observation by observation.
  lemma {:induction false} RowsAreStored(s: Store, b: Batch, hosts: seq<Observation>, now: int)
    requires UniqueNodes(hosts)
    ensures var t := WithReports(s, b, hosts, now).hosts;
            && (forall h <- hosts ::
                  HostId(b.source, h.node) in t && t[HostId(b.source, h.node)] == HostRow(b.observed, now, h))
            && (forall id: HostId | id.source != b.source || id.node !in Nodes(hosts) ::
                  (id in t <==> id in s.hosts) && (id in t ==> t[id] == s.hosts[id]))
  {
    if hosts != [] {
      var front, last := hosts[..|hosts| - 1], hosts[|hosts| - 1];
      RowsAreStored(s, b, front, now);
      assert hosts == front + [last];
      assert last.node !in Nodes(front);
    }
  }

  lemma {:induction false} SamplesAreStored(s: Store, b: Batch, hosts: seq<Observation>, now: int)
    requires UniqueNodes(hosts)
    ensures var t := WithReports(s, b, hosts, now).samples;
            && (forall h <- hosts ::
                  && SampleKey(HostId(b.source, h.node), MinuteOf(b.observed)) in t
                  && t[SampleKey(HostId(b.source, h.node), MinuteOf(b.observed))] == h.metrics)
            && (forall key: SampleKey |
                  key.host.source != b.source || key.host.node !in Nodes(hosts) || key.minute != MinuteOf(b.observed) ::
                  (key in t <==> key in s.samples) && (key in t ==> t[key] == s.samples[key]))
  {
    if hosts != [] {
      var front, last := hosts[..|hosts| - 1], hosts[|hosts| - 1];
      SamplesAreStored(s, b, front, now);
      assert hosts == front + [last];
      assert last.node !in Nodes(front);
    }
  }

  lemma HostsAreCounted(s: Store, b: Batch, now: int)
    requires UniqueNodes(b.hosts)
    ensures HostsOf(Draft(s, b, now).hosts, b.source) == HostsWith(s, b, now)
  {
    var draft := Draft(s, b, now);
    RowsAreStored(WithoutExpired(s, now), b, b.hosts, now);
    forall id ensures id in HostsOf(draft.hosts, b.source) <==> id in HostsWith(s, b, now) {
      if id.source == b.source && id.node in Nodes(b.hosts) {
        var h :| h in b.hosts && h.node == id.node;
        assert id == HostId(b.source, h.node);
      }
    }
  }

  lemma HostsAreReplaced(s: Store, b: Batch, now: int)
    requires Stored(s, b, now)
    ensures HostsReplaced(s, Ingested(s, b, now), b, now)
  {
    RowsAreStored(WithoutExpired(s, now), b, b.hosts, now);
    assert forall id :: Reports(b, id) <==> id.source == b.source && id.node in Nodes(b.hosts);
  }

  lemma SamplesAreReplaced(s: Store, b: Batch, now: int)
    requires Stored(s, b, now)
    ensures SamplesReplaced(s, Ingested(s, b, now), b, now)
  {
    SamplesAreStored(WithoutExpired(s, now), b, b.hosts, now);
    MinutesAscend(now - Day, b.observed);
    assert forall id :: Reports(b, id) <==> id.source == b.source && id.node in Nodes(b.hosts);
  }

  // A reported host is listed as it was reported until it expires or something else is stored.
  lemma StoredIsShown(s: Store, b: Batch, now: int, h: Observation, later: int, discovered: set<Source>)
    requires Stored(s, b, now) && h in b.hosts && (h.node == "" || later - Day <= now)
    ensures var listed := Listed(Ingested(s, b, now), later, discovered);
            HostId(b.source, h.node) in listed && Shows(listed[HostId(b.source, h.node)], HostRow(b.observed, now, h), later)
  {
    HostsAreReplaced(s, b, now);
  }

  lemma IngestIsAnswered(s: Store, b: Batch, now: int)
    ensures IngestAnswers(s, Ingested(s, b, now), b, now, IngestResult(s, b, now))
  {
    if ValidBatch(b, now) { HostsAreCounted(s, b, now); }
    if Stored(s, b, now) {
      HostsAreReplaced(s, b, now);
      SamplesAreReplaced(s, b, now);
    }
  }

  // ---- the store ----

  class TelemetryStore {
    var hosts: map<HostId, HostRow>
    var samples: map<SampleKey, Metrics>

    ghost function Contents(): Store
      reads this
    {
      Store(hosts, samples)
    }

    constructor ()
      ensures Contents() == Store(map[], map[])
    {
      hosts, samples := map[], map[];
    }

    method Register(sources: seq<Source>)
      modifies this
      ensures Contents() == Registered(old(Contents()), sources)
      ensures RootsAdded(old(Contents()), Contents(), sources)
    {
      for k := 0 to |sources|
        invariant Contents() == Registered(old(Contents()), sources[..k])
      {
        assert sources[..k + 1][..k] == sources[..k];
        var id := Root(sources[k]);
        if id !in hosts { hosts := hosts[id := NewRow("")]; }
      }
      assert sources[..|sources|] == sources;
      RootsAreAdded(old(Contents()), sources);
    }

    // DELETE FROM telemetry_hosts, with the samples that refer to them.
    method DeleteExpired(now: int)
      modifies this
      ensures Contents() == WithoutExpired(old(Contents()), now)
    {
      hosts := map id | id in hosts && !(id.node != "" && hosts[id].received < now - Day) :: hosts[id];
      samples := map key | key in samples && key.host in hosts :: samples[key];
    }

    method DeleteSamples(now: int)
      modifies this`samples
      ensures samples == SamplesSince(old(samples), MinuteOf(now - Day))
    {
      samples := map key | key in samples && !(key.minute < MinuteOf(now - Day)) :: samples[key];
    }

    method Prune(now: int)
      modifies this
      ensures Contents() == Pruned(old(Contents()), now)
      ensures OldGone(old(Contents()), Contents(), now)
    {
      DeleteSamples(now);
      DeleteExpired(now);
      OldIsGone(old(Contents()), now);
    }

    method StoreReports(b: Batch, now: int)
      modifies this
      ensures Contents() == WithReports(old(Contents()), b, b.hosts, now)
    {
      for k := 0 to |b.hosts|
        invariant Contents() == WithReports(old(Contents()), b, b.hosts[..k], now)
      {
        var h := b.hosts[k];
        assert b.hosts[..k + 1][..k] == b.hosts[..k];
        hosts := hosts[HostId(b.source, h.node) := HostRow(b.observed, now, h)];
        samples := samples[SampleKey(HostId(b.source, h.node), MinuteOf(b.observed)) := h.metrics];
      }
      assert b.hosts[..|b.hosts|] == b.hosts;
    }

    // A transaction: a batch over the host limit leaves no trace.
    method Ingest(b: Batch, now: int) returns (r: Result<(), TelemetryError>)
      modifies this
      ensures Contents() == Ingested(old(Contents()), b, now)
      ensures r == IngestResult(old(Contents()), b, now)
      ensures IngestAnswers(old(Contents()), Contents(), b, now, r)
    {
      IngestIsAnswered(Contents(), b, now);
      var ok := Validate(b, now);
      if !ok { return Err(InvalidBatch); }
      var last := if Root(b.source) in hosts then hosts[Root(b.source)].observed else 0;
      if b.observed <= last { return Ok(()); }
      var savedHosts, savedSamples := hosts, samples;
      DeleteExpired(now);
      StoreReports(b, now);
      var count := |set id | id in hosts && id.source == b.source|;
      if count > HostLimit {
        hosts, samples := savedHosts, savedSamples;
        return Err(HostLimitReached);
      }
      DeleteSamples(now);
      return Ok(());
    }

    method ListHosts(now: int) returns (result: map<HostId, View>)
      ensures result == map id | id in hosts && !Expired(id, hosts[id], now) :: ViewOf(hosts[id], now)
    {
      result := map[];
      var rows := hosts.Keys;
      while rows != {}
        invariant rows <= hosts.Keys
        invariant result == map id | id in hosts.Keys - rows && !Expired(id, hosts[id], now) :: ViewOf(hosts[id], now)
      {
        var id :| id in rows;
        rows := rows - {id};
        var row := hosts[id];
        if id.node != "" && row.received < now - Day { continue; }
        result := result[id := ViewOf(row, now)];
      }
    }

    method List(now: int, discovered: set<Source>) returns (result: map<HostId, View>)
      ensures result == Listed(Contents(), now, discovered)
      ensures ListAnswers(Contents(), now, discovered, result)
    {
      result := ListHosts(now);
      result := AddDiscovered(result, discovered);
    }

    method SampleWindow(id: HostId, now: int, n: nat) returns (slots: seq<Slot>)
      requires n > 0
      ensures slots == Window(Contents(), id, now, n)
    {
      var end := now / Minute * Minute;
      var start := end - n * Minute + Minute;
      var found := SelectSamples(samples, id, MinuteOf(start), MinuteOf(end));
      slots := [];
      var at := start;
      while at <= end
        invariant |slots| <= n && at == start + |slots| * Minute
        invariant slots == Window(Contents(), id, now, n)[..|slots|]
        decreases end - at
      {
        MinutesAscend(start, at);
        MinutesAscend(at, end);
        var m := MinuteOf(at);
        SelectedIsStored(Contents(), id, MinuteOf(start), MinuteOf(end), m);
        slots := slots + [Slot(at, if m in found then found[m] else NoMetrics)];
        at := at + Minute;
      }
      assert |slots| == n;
    }

    method Detail(id: HostId, window: string, now: int, discovered: set<Source>) returns (r: Result<HostDetail, TelemetryError>)
      ensures r == Detailed(Contents(), id, window, now, discovered)
      ensures ListAnswers(Contents(), now, discovered, Listed(Contents(), now, discovered))
      ensures DetailAnswers(Listed(Contents(), now, discovered), id, window, r)
    {
      var list := List(now, discovered);
      if id !in list { return Err(NoSuchHost); }
      var children := map child | child in list && child.node != "" && Root(child.source) == id :: list[child];
      var n := 60;
      if window == "24h" { n := 1440; } else if window != "1h" { return Err(InvalidRange); }
      var slots := SampleWindow(id, now, n);
      return Ok(HostDetail(list[id], children, slots));
    }
  }
}
