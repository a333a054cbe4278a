/**
What reconciliation promises, internal/adapters/sqlite/plugins.go:51-108, and why a plugin child
may tell configurations apart by revision alone, plugin-sdk/runtime/notifications.go:79-81.
*/
module PluginRuns {
  import opened Wrappers
  import opened PluginConnections

  // ---- one row after a call ----

  function Wanted(items: seq<Provision>, place: Place): (r: Option<Provision>)
    ensures r.Some? ==> r.value in items && PlaceOf(r.value) == place
    ensures r == None ==> place !in Places(items)
  {
    if items == [] then None
    else if PlaceOf(items[|items| - 1]) == place then Some(items[|items| - 1])
    else
      assert items == items[..|items| - 1] + [items[|items| - 1]];
      Wanted(items[..|items| - 1], place)
  }

  lemma {:induction false} ProvisionedRow(t: Table, items: seq<Provision>, place: Place)
    requires Valid(items)
    ensures var after := AllProvisioned(t, items);
            var p := Wanted(items, place);
            && after.issued >= t.issued
            && (place in t.rows && p.Some? ==> place in after.rows && after.rows[place] == Updated(t.rows[place], p.value))
            && (place in t.rows && p == None ==> place in after.rows && after.rows[place] == t.rows[place])
            && (place !in t.rows && p.Some? ==>
                  && place in after.rows && t.issued <= after.rows[place].id < after.issued
                  && after.rows[place].revision == 1 && Same(after.rows[place], p.value))
            && (place !in t.rows && p == None ==> place !in after.rows)
  {
    if items != [] {
      LastIsNew(items);
      ProvisionedRow(t, items[..|items| - 1], place);
    }
  }

  lemma WantedIsDesired(items: seq<Provision>, place: Place)
    ensures place in Places(items) <==> Wanted(items, place).Some?
    ensures place in Places(items) ==> Text(place) in Texts(items)
  { }

  // A row keeps its ID; the revision goes up by one exactly when name, digest or enabled changes,
  // and otherwise nothing in the row changes.
  predicate RowStep(a: Connection, b: Connection) {
    && a.id == b.id
    && (a.name == b.name && a.digest == b.digest && a.enabled == b.enabled ==> a == b)
    && (a.name != b.name || a.digest != b.digest || a.enabled != b.enabled ==> b.revision == a.revision + 1)
  }

  lemma ReconcileRow(t: Table, items: seq<Provision>, place: Place)
    requires place in t.rows
    ensures place in Reconciled(t, items).rows && RowStep(t.rows[place], Reconciled(t, items).rows[place])
  {
    if Valid(items) {
      ProvisionedRow(t, items, place);
      WantedIsDesired(items, place);
    }
  }

  // ---- the enabled places ----

  function Enabled(t: Table): set<Place> { set place <- t.rows | t.rows[place].enabled }

  // Stored places nobody asked for whose text is that of a place somebody did ask for.
  function Mistaken(t: Table, items: seq<Provision>): set<Place> {
    set place <- Enabled(t) | place !in Places(items) && Text(place) in Texts(items)
  }

  lemma EnabledAfter(t: Table, items: seq<Provision>)
    requires Valid(items)
    ensures Enabled(Reconciled(t, items)) == Places(items) + Mistaken(t, items)
  {
    var after := Reconciled(t, items);
    forall place ensures place in Enabled(after) <==> place in Places(items) + Mistaken(t, items) {
      ProvisionedRow(t, items, place);
      WantedIsDesired(items, place);
    }
  }

  // The enabled set is the desired one exactly when no stored place is mistaken for another.
  lemma EnabledIsDesired(t: Table, items: seq<Provision>)
    requires Valid(items)
    ensures Enabled(Reconciled(t, items)) == Places(items) <==> Mistaken(t, items) == {}
  {
    EnabledAfter(t, items);
    assert Mistaken(t, items) <= Enabled(Reconciled(t, items)) && Mistaken(t, items) !! Places(items);
  }

  lemma SlashMistakesPlaces()
    ensures var t := Reconciled(Table(map[], 0), [Provision("a/b", "c", "n", "d", "m", "v")]);
            var items := [Provision("a", "b/c", "n", "d", "m", "v")];
            Valid(items) && Place("a/b", "c") in Enabled(Reconciled(t, items)) && Place("a/b", "c") !in Places(items)
  {
    var first, items := [Provision("a/b", "c", "n", "d", "m", "v")], [Provision("a", "b/c", "n", "d", "m", "v")];
    var t := Reconciled(Table(map[], 0), first);
    EnabledAfter(Table(map[], 0), first);
    EnabledAfter(t, items);
    assert PlaceOf(first[0]) == Place("a/b", "c") && first[0] in first && items[0] in items;
    assert Text(Place("a/b", "c")) == "a/b/c" == Text(PlaceOf(items[0]));
  }

  // Provisions of a loaded deployment name their plugin without a slash.
  predicate Loaded(items: seq<Provision>) { forall p <- items :: '/' !in p.plugin }

  lemma TextsDiffer(a: Place, b: Place)
    requires '/' !in a.plugin && '/' !in b.plugin && Text(a) == Text(b)
    ensures a == b
  {
    FirstSlash(a);
    FirstSlash(b);
    var n := |a.plugin|;
    assert a.plugin == Text(a)[..n] == Text(b)[..n] == b.plugin;
    assert a.key == Text(a)[n + 1..] == Text(b)[n + 1..] == b.key;
  }

  lemma FirstSlash(place: Place)
    requires '/' !in place.plugin
    ensures Text(place)[|place.plugin|] == '/' && forall i :: 0 <= i < |place.plugin| ==> Text(place)[i] != '/'
  {
    forall i | 0 <= i < |place.plugin| ensures Text(place)[i] != '/' { assert Text(place)[i] == place.plugin[i]; }
  }

  // ---- runs ----

  function Run(calls: seq<seq<Provision>>): Table {
    if calls == [] then Table(map[], 0) else Reconciled(Run(calls[..|calls| - 1]), calls[|calls| - 1])
  }

  lemma {:induction false} RunPlaces(calls: seq<seq<Provision>>, place: Place)
    requires place in Run(calls).rows && forall items <- calls :: Loaded(items)
    ensures '/' !in place.plugin
  {
    var front, items := calls[..|calls| - 1], calls[|calls| - 1];
    assert Loaded(items);
    if place in Run(front).rows {
      RunPlaces(front, place);
    } else if Valid(items) {
      ProvisionedRow(Run(front), items, place);
    }
  }

  // After any run of loaded deployments the enabled places are exactly those last asked for.
  lemma LoadedEnabledIsDesired(calls: seq<seq<Provision>>, items: seq<Provision>)
    requires Loaded(items) && Valid(items) && forall other <- calls :: Loaded(other)
    ensures Enabled(Reconciled(Run(calls), items)) == Places(items)
  {
    forall place | place in Mistaken(Run(calls), items) ensures false {
      RunPlaces(calls, place);
      var p :| p in items && Text(PlaceOf(p)) == Text(place);
      TextsDiffer(place, PlaceOf(p));
    }
    EnabledIsDesired(Run(calls), items);
  }

  // Asking for the same list again changes nothing.
  lemma RepeatChangesNothing(t: Table, items: seq<Provision>)
    ensures Reconciled(Reconciled(t, items), items) == Reconciled(t, items)
  {
    if Valid(items) {
      var once := Reconciled(t, items);
      forall p | p in items ensures PlaceOf(p) in once.rows && Same(once.rows[PlaceOf(p)], p) {
        SettledRow(t, items, p);
      }
      NothingToProvision(once, items);
      assert WithoutOmitted(once.rows, Texts(items)) == once.rows;
    }
  }

  lemma SettledRow(t: Table, items: seq<Provision>, p: Provision)
    requires Valid(items) && p in items
    ensures PlaceOf(p) in Reconciled(t, items).rows && Same(Reconciled(t, items).rows[PlaceOf(p)], p)
  {
    var place := PlaceOf(p);
    assert place in Places(items);
    WantedIsDesired(items, place);
    OnlyOneWanted(items, p);
    ProvisionedRow(t, items, place);
  }

  lemma OnlyOneWanted(items: seq<Provision>, p: Provision)
    requires Valid(items) && p in items
    ensures Wanted(items, PlaceOf(p)) == Some(p)
  {
    var i :| 0 <= i < |items| && items[i] == p;
    assert PlaceOf(p) in Places(items);
    var q := Wanted(items, PlaceOf(p)).value;
    var j :| 0 <= j < |items| && items[j] == q;
  }

  lemma {:induction false} NothingToProvision(t: Table, items: seq<Provision>)
    requires forall p <- items :: PlaceOf(p) in t.rows && Same(t.rows[PlaceOf(p)], p)
    ensures AllProvisioned(t, items) == t
  {
    if items != [] {
      var front, p := items[..|items| - 1], items[|items| - 1];
      assert p in items && forall q <- front :: q in items;
      NothingToProvision(t, front);
    }
  }

  // ---- revisions tell configurations apart ----

  lemma {:induction false} RowKept(calls: seq<seq<Provision>>, i: nat, place: Place)
    requires i <= |calls| && place in Run(calls[..i]).rows
    ensures place in Run(calls).rows
    ensures var a, b := Run(calls[..i]).rows[place], Run(calls).rows[place];
            a.id == b.id && a.revision <= b.revision && (a.revision == b.revision ==> a == b)
  {
    if i == |calls| {
      assert calls[..i] == calls;
    } else {
      var front := calls[..|calls| - 1];
      assert front[..i] == calls[..i];
      RowKept(front, i, place);
      ReconcileRow(Run(front), calls[|calls| - 1], place);
    }
  }

  ghost predicate IdsUnique(t: Table) {
    && (forall p <- t.rows :: t.rows[p].id < t.issued)
    && (forall p <- t.rows, q <- t.rows :: t.rows[p].id == t.rows[q].id ==> p == q)
  }

  lemma {:induction false} ProvisionedIdsUnique(t: Table, items: seq<Provision>)
    requires IdsUnique(t)
    ensures IdsUnique(AllProvisioned(t, items))
  {
    if items != [] { ProvisionedIdsUnique(t, items[..|items| - 1]); }
  }

  lemma {:induction false} RunIdsUnique(calls: seq<seq<Provision>>)
    ensures IdsUnique(Run(calls))
  {
    if calls != [] {
      var front, items := calls[..|calls| - 1], calls[|calls| - 1];
      RunIdsUnique(front);
      ProvisionedIdsUnique(Run(front), items);
    }
  }

  // Two rows with one ID and one revision, at any two moments of a run, are one configuration:
  // the child's revision-only test never joins two different ones.
  lemma RevisionIdentifiesConfiguration(calls: seq<seq<Provision>>, i: nat, p: Place, q: Place)
    requires i <= |calls| && p in Run(calls[..i]).rows && q in Run(calls).rows
    requires Run(calls[..i]).rows[p].id == Run(calls).rows[q].id
    requires Run(calls[..i]).rows[p].revision == Run(calls).rows[q].revision
    ensures p == q && Run(calls[..i]).rows[p] == Run(calls).rows[q]
  {
    RowKept(calls, i, p);
    RunIdsUnique(calls);
  }
}
