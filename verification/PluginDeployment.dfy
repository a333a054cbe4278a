/**
Loading a deployment file, internal/adapters/plugins/deployment.go:60-129 and 199-208, and what the
provisions it gives mean for the stored connections.
*/
module PluginDeployment {
  import opened Wrappers
  import opened Routes
  import opened PluginConnections
  import opened PluginRuns

  // `ready` says that configuration, secrets and grants of a connection pass their checks;
  // `digest` is the hash taken over them, in hexadecimal.
  datatype ConnectionEntry = ConnectionEntry(key: string, name: string, ready: bool, digest: string)

  // `plugin` is the ID in the package's manifest, None when the package does not load; `pinned`
  // says that its digests are the pinned ones and the runtime supports it.
  datatype Installation = Installation(
    plugin: Option<string>, pinned: bool, manifest: string, version: string, connections: Option<seq<ConnectionEntry>>)

  datatype Prepared = Prepared(plugin: string, provisions: seq<Provision>)

  const MaxInstallations: nat := 16
  const MaxConnections: nat := 16

  // The characters of a plugin ID, ^[a-z][a-z0-9]*(\.[a-z][a-z0-9-]*)+$
  predicate PluginId(s: string) {
    s != "" && forall c <- s :: 'a' <= c <= 'z' || '0' <= c <= '9' || c == '.' || c == '-'
  }

  // What the manifest and the hash guarantee.
  predicate Manifested(i: Installation) {
    && (i.plugin.Some? ==> PluginId(i.plugin.value))
    && (i.connections.Some? ==> forall c <- i.connections.value :: c.ready ==> c.name != "" && c.digest != "")
  }

  predicate ManifestedAll(file: seq<Installation>) { forall i <- file :: Manifested(i) }

  function ProvisionOf(i: Installation, c: ConnectionEntry): Provision
    requires i.plugin.Some?
  {
    Provision(i.plugin.value, c.key, c.name, c.digest, i.manifest, i.version)
  }

  // ---- one installation ----

  function Keys(cs: seq<ConnectionEntry>): set<string> { set c <- cs | ValidLocal(c.key) :: c.key }

  // A connection counts unless its key is malformed, was seen before, or it is not ready.
  function KeptConnections(i: Installation, cs: seq<ConnectionEntry>): seq<Provision>
    requires i.plugin.Some?
  {
    if cs == [] then []
    else
      var front, c := cs[..|cs| - 1], cs[|cs| - 1];
      KeptConnections(i, front)
      + if ValidLocal(c.key) && c.key !in Keys(front) && c.ready then [ProvisionOf(i, c)] else []
  }

  predicate Acceptable(i: Installation) {
    i.plugin.Some? && i.pinned && i.connections.Some? && |i.connections.value| <= MaxConnections
  }

  function Plugins(d: seq<Prepared>): set<string> { set p <- d :: p.plugin }

  function KeptInstallations(file: seq<Installation>): seq<Prepared> {
    if file == [] then []
    else
      var front, i := KeptInstallations(file[..|file| - 1]), file[|file| - 1];
      if Acceptable(i) && i.plugin.value !in Plugins(front)
      then front + [Prepared(i.plugin.value, KeptConnections(i, i.connections.value))] else front
  }

  lemma NextConnection(i: Installation, cs: seq<ConnectionEntry>, k: nat)
    requires i.plugin.Some? && k < |cs|
    ensures Keys(cs[..k + 1]) == Keys(cs[..k]) + if ValidLocal(cs[k].key) then {cs[k].key} else {}
    ensures KeptConnections(i, cs[..k + 1]) == KeptConnections(i, cs[..k])
            + if ValidLocal(cs[k].key) && cs[k].key !in Keys(cs[..k]) && cs[k].ready then [ProvisionOf(i, cs[k])] else []
  {
    assert cs[..k + 1] == cs[..k] + [cs[k]] && cs[..k + 1][..k] == cs[..k];
  }

  // ---- what is kept, by position ----

  // Connection j is ready, and the first with its key among those whose key is well formed.
  predicate ConnectionStands(cs: seq<ConnectionEntry>, j: nat) {
    && j < |cs| && ValidLocal(cs[j].key) && cs[j].ready
    && forall i :: 0 <= i < j ==> cs[i].key != cs[j].key
  }

  // Installation k is acceptable, and the first such of its plugin.
  predicate InstallationStands(file: seq<Installation>, k: nat) {
    && k < |file| && Acceptable(file[k])
    && forall i :: 0 <= i < k && Acceptable(file[i]) ==> file[i].plugin.value != file[k].plugin.value
  }

  ghost predicate ConnectionGives(i: Installation, cs: seq<ConnectionEntry>, p: Provision) {
    exists j: nat :: ConnectionStands(cs, j) && i.plugin == Some(p.plugin)
                     && p == Provision(p.plugin, cs[j].key, cs[j].name, cs[j].digest, i.manifest, i.version)
  }

  ghost predicate FileGives(file: seq<Installation>, p: Provision) {
    exists k: nat :: InstallationStands(file, k) && ConnectionGives(file[k], file[k].connections.value, p)
  }

  lemma {:induction false} KeptIsGiven(i: Installation, cs: seq<ConnectionEntry>, p: Provision)
    requires i.plugin.Some?
    ensures p in KeptConnections(i, cs) <==> ConnectionGives(i, cs, p)
  {
    if cs != [] {
      var front, c := cs[..|cs| - 1], cs[|cs| - 1];
      KeptIsGiven(i, front, p);
      assert forall j: nat :: j < |front| ==> (ConnectionStands(cs, j) <==> ConnectionStands(front, j));
      assert ConnectionStands(cs, |front|) <==> ValidLocal(c.key) && c.ready && c.key !in Keys(front) by {
        assert forall j :: 0 <= j < |front| ==> front[j] in front && front[j] == cs[j];
      }
    }
  }

  lemma {:induction false} PluginsAreAcceptable(file: seq<Installation>, plugin: string)
    ensures plugin in Plugins(KeptInstallations(file)) <==> exists i <- file :: Acceptable(i) && i.plugin.value == plugin
  {
    if file != [] {
      var front, i := file[..|file| - 1], file[|file| - 1];
      PluginsAreAcceptable(front, plugin);
      assert file == front + [i];
      if Acceptable(i) { PluginsAreAcceptable(front, i.plugin.value); }
    }
  }

  lemma StandsInFront(file: seq<Installation>, k: nat)
    requires k < |file|
    ensures k < |file| - 1 ==> (InstallationStands(file, k) <==> InstallationStands(file[..|file| - 1], k))
    ensures k == |file| - 1 ==>
              (InstallationStands(file, k) <==>
                 Acceptable(file[k]) && file[k].plugin.value !in Plugins(KeptInstallations(file[..|file| - 1])))
  {
    if k == |file| - 1 && Acceptable(file[k]) {
      PluginsAreAcceptable(file[..k], file[k].plugin.value);
      assert forall i :: 0 <= i < k ==> file[..k][i] == file[i] && file[i] in file[..k];
    }
  }

  // A file gives the provisions of its standing connections in standing installations, and no others.
  lemma {:induction false} LoadedIsGiven(file: seq<Installation>, p: Provision)
    ensures p in Provisions(KeptInstallations(file)) <==> FileGives(file, p)
  {
    if file != [] {
      var front, k := file[..|file| - 1], |file| - 1;
      LoadedIsGiven(front, p);
      forall i: nat | i < |file|
        ensures if i < k then InstallationStands(file, i) <==> InstallationStands(front, i)
                else InstallationStands(file, i) <==>
                       Acceptable(file[k]) && file[k].plugin.value !in Plugins(KeptInstallations(front))
      {
        StandsInFront(file, i);
      }
      if InstallationStands(file, k) {
        KeptIsGiven(file[k], file[k].connections.value, p);
        var d := KeptInstallations(file);
        assert d[..|d| - 1] == KeptInstallations(front);
      }
    }
  }

  ghost predicate GivesExactly(file: seq<Installation>, items: seq<Provision>) { forall p :: p in items <==> FileGives(file, p) }

  lemma LoadGives(file: seq<Installation>)
    ensures GivesExactly(file, Provisions(KeptInstallations(file)))
  {
    forall p ensures p in Provisions(KeptInstallations(file)) <==> FileGives(file, p) { LoadedIsGiven(file, p); }
  }

  method LoadConnections(i: Installation, cs: seq<ConnectionEntry>) returns (provisions: seq<Provision>)
    requires i.plugin.Some?
    ensures provisions == KeptConnections(i, cs)
  {
    provisions := [];
    var keys: set<string> := {};
    for k := 0 to |cs|
      invariant provisions == KeptConnections(i, cs[..k]) && keys == Keys(cs[..k])
    {
      var c := cs[k];
      NextConnection(i, cs, k);
      if !ValidLocal(c.key) || c.key in keys { continue; }
      keys := keys + {c.key};
      if !c.ready { continue; }
      provisions := provisions + [ProvisionOf(i, c)];
    }
    assert cs[..|cs|] == cs;
  }

  lemma NextInstallation(file: seq<Installation>, k: nat)
    requires k < |file|
    ensures var front, i := KeptInstallations(file[..k]), file[k];
            KeptInstallations(file[..k + 1]) ==
              if Acceptable(i) && i.plugin.value !in Plugins(front)
              then front + [Prepared(i.plugin.value, KeptConnections(i, i.connections.value))] else front
  {
    assert file[..k + 1] == file[..k] + [file[k]] && file[..k + 1][..k] == file[..k];
  }

  method LoadInstallations(file: seq<Installation>) returns (result: seq<Prepared>)
    ensures result == KeptInstallations(file)
  {
    result := [];
    var seen: set<string> := {};
    for k := 0 to |file|
      invariant result == KeptInstallations(file[..k]) && seen == Plugins(result)
    {
      var i := file[k];
      NextInstallation(file, k);
      if i.plugin == None || !i.pinned { continue; }
      if i.plugin.value in seen || i.connections == None || |i.connections.value| > MaxConnections { continue; }
      seen := seen + {i.plugin.value};
      var provisions := LoadConnections(i, i.connections.value);
      result := result + [Prepared(i.plugin.value, provisions)];
    }
    assert file[..|file|] == file;
  }

  // Defective installations and connections are reported and left out; the others are kept.
  method Load(file: seq<Installation>) returns (d: Option<seq<Prepared>>)
    ensures d == if |file| > MaxInstallations then None else Some(KeptInstallations(file))
    ensures d.Some? <==> |file| <= 16
    ensures d.Some? ==> GivesExactly(file, Provisions(d.value))
  {
    if |file| > MaxInstallations { return None; }
    var result := LoadInstallations(file);
    LoadGives(file);
    return Some(result);
  }

  function Provisions(d: seq<Prepared>): seq<Provision> {
    if d == [] then [] else Provisions(d[..|d| - 1]) + d[|d| - 1].provisions
  }

  // ---- what loading guarantees ----

  predicate DistinctPlaces(items: seq<Provision>) {
    forall i, j :: 0 <= i < j < |items| ==> PlaceOf(items[i]) != PlaceOf(items[j])
  }

  predicate Sound(items: seq<Provision>) {
    (forall p <- items :: Filled(p) && '/' !in p.plugin) && DistinctPlaces(items)
  }

  lemma {:induction false} KeptConnectionsSound(i: Installation, cs: seq<ConnectionEntry>)
    requires i.plugin.Some? && PluginId(i.plugin.value)
    requires forall c <- cs :: c.ready ==> c.name != "" && c.digest != ""
    ensures Sound(KeptConnections(i, cs))
    ensures forall p <- KeptConnections(i, cs) :: p.plugin == i.plugin.value && p.key in Keys(cs)
  {
    if cs != [] {
      var front, c := cs[..|cs| - 1], cs[|cs| - 1];
      assert cs == front + [c];
      KeptConnectionsSound(i, front);
      assert Keys(front) <= Keys(cs);
    }
  }

  lemma {:induction false} KeptPlugins(file: seq<Installation>)
    ensures forall p <- Provisions(KeptInstallations(file)) :: p.plugin in Plugins(KeptInstallations(file))
  {
    if file != [] {
      var front, i := KeptInstallations(file[..|file| - 1]), file[|file| - 1];
      KeptPlugins(file[..|file| - 1]);
      if Acceptable(i) && i.plugin.value !in Plugins(front) {
        var d := KeptInstallations(file);
        assert d[..|d| - 1] == front;
        assert Plugins(d) == Plugins(front) + {i.plugin.value};
        KeptNames(i, i.connections.value);
      }
    }
  }

  lemma {:induction false} KeptNames(i: Installation, cs: seq<ConnectionEntry>)
    requires i.plugin.Some?
    ensures forall p <- KeptConnections(i, cs) :: p.plugin == i.plugin.value
  {
    if cs != [] { KeptNames(i, cs[..|cs| - 1]); }
  }

  lemma SoundTogether(a: seq<Provision>, b: seq<Provision>)
    requires Sound(a) && Sound(b) && forall p <- a, q <- b :: p.plugin != q.plugin
    ensures Sound(a + b)
  {
    var all := a + b;
    forall i, j | 0 <= i < j < |all| ensures PlaceOf(all[i]) != PlaceOf(all[j]) {
      if i < |a| <= j { assert all[i] in a && all[j] in b; }
    }
  }

  lemma {:induction false} LoadedIsSound(file: seq<Installation>)
    requires ManifestedAll(file)
    ensures Sound(Provisions(KeptInstallations(file)))
  {
    if file != [] {
      var front, i := KeptInstallations(file[..|file| - 1]), file[|file| - 1];
      assert i in file;
      LoadedIsSound(file[..|file| - 1]);
      KeptPlugins(file[..|file| - 1]);
      if Acceptable(i) && i.plugin.value !in Plugins(front) {
        var d := KeptInstallations(file);
        assert d[..|d| - 1] == front;
        KeptConnectionsSound(i, i.connections.value);
        SoundTogether(Provisions(front), KeptConnections(i, i.connections.value));
      }
    }
  }

  // The provisions of a loaded file are ones Reconcile accepts, and their plugins have no slash.
  lemma LoadedIsValid(file: seq<Installation>)
    requires ManifestedAll(file)
    ensures Valid(Provisions(KeptInstallations(file))) && Loaded(Provisions(KeptInstallations(file)))
  {
    LoadedIsSound(file);
    var items := Provisions(KeptInstallations(file));
    forall i, j | 0 <= i < j < |items| ensures Text(PlaceOf(items[i])) != Text(PlaceOf(items[j])) {
      assert items[i] in items && items[j] in items;
      if Text(PlaceOf(items[i])) == Text(PlaceOf(items[j])) { TextsDiffer(PlaceOf(items[i]), PlaceOf(items[j])); }
    }
  }

  // ---- deployments over time ----

  function Calls(files: seq<seq<Installation>>): (calls: seq<seq<Provision>>)
    ensures |calls| == |files|
  {
    seq(|files|, k requires 0 <= k < |files| => Provisions(KeptInstallations(files[k])))
  }

  // After any sequence of loaded files every call succeeds and the enabled places are exactly
  // those of the file loaded last.
  lemma DeploymentIsReconciled(files: seq<seq<Installation>>, file: seq<Installation>)
    requires ManifestedAll(file) && forall f <- files :: ManifestedAll(f)
    ensures var items := Provisions(KeptInstallations(file));
            Valid(items) && Enabled(Reconciled(Run(Calls(files)), items)) == Places(items)
    ensures forall place :: place in Places(Provisions(KeptInstallations(file))) <==> exists p :: FileGives(file, p) && PlaceOf(p) == place
  {
    LoadGives(file);
    LoadedIsValid(file);
    var calls := Calls(files);
    forall items | items in calls ensures Loaded(items) {
      var k :| 0 <= k < |calls| && calls[k] == items;
      assert files[k] in files;
      LoadedIsValid(files[k]);
    }
    LoadedEnabledIsDesired(calls, Provisions(KeptInstallations(file)));
  }
}
