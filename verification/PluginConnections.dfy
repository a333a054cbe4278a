/**
Plugin connections, internal/adapters/sqlite/plugins.go:51-108, provisioned from a deployment
file, internal/adapters/plugins/deployment.go:84-127. A place is a plugin and a deployment key;
connection IDs are drawn from a counter that stands for fresh UUIDs.
*/
module PluginConnections {
  import opened Wrappers

  datatype Provision = Provision(plugin: string, key: string, name: string, digest: string, manifest: string, version: string)

  datatype Place = Place(plugin: string, key: string)

  datatype Connection =
    Connection(id: nat, name: string, revision: nat, digest: string, manifest: string, version: string, enabled: bool)

  datatype Table = Table(rows: map<Place, Connection>, issued: nat)

  // ---- what is asked for ----

  function PlaceOf(p: Provision): Place { Place(p.plugin, p.key) }

  // The key under which a place is remembered during a call.
  function Text(place: Place): string { place.plugin + "/" + place.key }

  predicate Filled(p: Provision) { p.plugin != "" && p.key != "" && p.name != "" && p.digest != "" }

  predicate Valid(items: seq<Provision>) {
    && (forall p <- items :: Filled(p))
    && (forall i, j :: 0 <= i < j < |items| ==> Text(PlaceOf(items[i])) != Text(PlaceOf(items[j])))
  }

  function Texts(items: seq<Provision>): set<string> { set p <- items :: Text(PlaceOf(p)) }

  function Places(items: seq<Provision>): set<Place> { set p <- items :: PlaceOf(p) }

  // ---- one provision ----

  predicate Same(c: Connection, p: Provision) { c.digest == p.digest && c.name == p.name && c.enabled }

  function Updated(c: Connection, p: Provision): Connection {
    if Same(c, p) then c
    else c.(name := p.name, revision := c.revision + 1, digest := p.digest, manifest := p.manifest, version := p.version, enabled := true)
  }

  function Provisioned(t: Table, p: Provision): Table {
    var place := PlaceOf(p);
    if place in t.rows then t.(rows := t.rows[place := Updated(t.rows[place], p)])
    else Table(t.rows[place := Connection(t.issued, p.name, 1, p.digest, p.manifest, p.version, true)], t.issued + 1)
  }

  function AllProvisioned(t: Table, items: seq<Provision>): Table {
    if items == [] then t else Provisioned(AllProvisioned(t, items[..|items| - 1]), items[|items| - 1])
  }

  // ---- one call ----

  predicate Omitted(place: Place, c: Connection, desired: set<string>) { c.enabled && Text(place) !in desired }

  function Disabled(c: Connection): Connection { c.(enabled := false, revision := c.revision + 1) }

  function WithoutOmitted(rows: map<Place, Connection>, desired: set<string>): map<Place, Connection> {
    map place | place in rows :: if Omitted(place, rows[place], desired) then Disabled(rows[place]) else rows[place]
  }

  function Reconciled(t: Table, items: seq<Provision>): Table {
    if Valid(items) then
      var all := AllProvisioned(t, items);
      all.(rows := WithoutOmitted(all.rows, Texts(items)))
    else t
  }

  // ---- what a call means, row by row ----

  // What a place holds after it was asked for: its old row when nothing is to be changed, and
  // otherwise everything the provision says, one revision up or with a fresh ID.
  predicate RowHolds(was: Option<Connection>, now: Connection, p: Provision, issued: nat, after: nat) {
    if was.Some? && was.value.name == p.name && was.value.digest == p.digest && was.value.enabled then now == was.value
    else
      && now.name == p.name && now.digest == p.digest && now.manifest == p.manifest && now.version == p.version && now.enabled
      && if was.Some? then now.id == was.value.id && now.revision == was.value.revision + 1
         else now.revision == 1 && issued <= now.id < after
  }

  function RowAt(rows: map<Place, Connection>, place: Place): Option<Connection> {
    if place in rows then Some(rows[place]) else None
  }

  ghost predicate AskedRows(s: Table, t: Table, items: seq<Provision>) {
    && s.issued <= t.issued
    && forall p <- items ::
         && PlaceOf(p) in t.rows
         && RowHolds(RowAt(s.rows, PlaceOf(p)), t.rows[PlaceOf(p)], p, s.issued, t.issued)
  }

  ghost predicate FreshIds(s: Table, t: Table, items: seq<Provision>) {
    forall p <- items, q <- items | PlaceOf(p) !in s.rows && PlaceOf(q) !in s.rows && PlaceOf(p) != PlaceOf(q) ::
      PlaceOf(p) in t.rows && PlaceOf(q) in t.rows && t.rows[PlaceOf(p)].id != t.rows[PlaceOf(q)].id
  }

  // An enabled row whose text nobody asked for is disabled one revision up; no row ever goes.
  ghost predicate OtherRow(s: Table, t: Table, items: seq<Provision>, place: Place) {
    && (place in t.rows <==> place in s.rows)
    && (place in t.rows ==>
          var was, now := s.rows[place], t.rows[place];
          if was.enabled && forall p <- items :: p.plugin + "/" + p.key != place.plugin + "/" + place.key
          then now == Connection(was.id, was.name, was.revision + 1, was.digest, was.manifest, was.version, false)
          else now == was)
  }

  ghost predicate OtherRows(s: Table, t: Table, items: seq<Provision>) {
    forall place: Place | forall p <- items :: p.plugin != place.plugin || p.key != place.key :: OtherRow(s, t, items, place)
  }

  ghost predicate ReconcileAnswers(s: Table, t: Table, items: seq<Provision>, r: Result<map<Place, Connection>, ()>) {
    if Valid(items) then r == Ok(t.rows) && AskedRows(s, t, items) && FreshIds(s, t, items) && OtherRows(s, t, items)
    else r == Err(()) && t == s
  }

  lemma LastIsNew(items: seq<Provision>)
    requires Valid(items) && items != []
    ensures var front, p := items[..|items| - 1], items[|items| - 1];
            Valid(front) && items == front + [p] && forall q <- front :: Text(PlaceOf(q)) != Text(PlaceOf(p))
  {
    var front, p := items[..|items| - 1], items[|items| - 1];
    forall q | q in front ensures Text(PlaceOf(q)) != Text(PlaceOf(p)) {
      var i :| 0 <= i < |front| && front[i] == q;
      assert items[i] == q;
    }
  }

  lemma {:induction false} OtherRowsStay(s: Table, items: seq<Provision>, place: Place)
    requires place !in Places(items)
    ensures var t := AllProvisioned(s, items);
            (place in t.rows <==> place in s.rows) && (place in t.rows ==> t.rows[place] == s.rows[place])
  {
    if items != [] {
      assert items == items[..|items| - 1] + [items[|items| - 1]];
      OtherRowsStay(s, items[..|items| - 1], place);
    }
  }

  lemma {:induction false} RowsAreAsked(s: Table, items: seq<Provision>)
    requires Valid(items)
    ensures AskedRows(s, AllProvisioned(s, items), items)
  {
    if items != [] {
      LastIsNew(items);
      var front, p := items[..|items| - 1], items[|items| - 1];
      RowsAreAsked(s, front);
      assert PlaceOf(p) !in Places(front);
      OtherRowsStay(s, front, PlaceOf(p));
    }
  }

  lemma {:induction false} IdsAreFresh(s: Table, items: seq<Provision>)
    requires Valid(items)
    ensures FreshIds(s, AllProvisioned(s, items), items)
  {
    if items != [] {
      LastIsNew(items);
      IdsAreFresh(s, items[..|items| - 1]);
      RowsAreAsked(s, items[..|items| - 1]);
      assert PlaceOf(items[|items| - 1]) !in Places(items[..|items| - 1]);
      OtherRowsStay(s, items[..|items| - 1], PlaceOf(items[|items| - 1]));
    }
  }

  lemma AskedRowsStay(s: Table, items: seq<Provision>, t: Table)
    requires AskedRows(s, t, items) && FreshIds(s, t, items)
    ensures var after := t.(rows := WithoutOmitted(t.rows, Texts(items)));
            AskedRows(s, after, items) && FreshIds(s, after, items)
  {
    assert forall p <- items :: Text(PlaceOf(p)) in Texts(items);
  }

  lemma OthersAreDisabled(s: Table, items: seq<Provision>, place: Place)
    requires Valid(items) && forall p <- items :: p.plugin != place.plugin || p.key != place.key
    ensures var t := Reconciled(s, items);
            && (place in t.rows <==> place in s.rows)
            && (place in t.rows ==> t.rows[place] == if Omitted(place, s.rows[place], Texts(items)) then Disabled(s.rows[place]) else s.rows[place])
  {
    assert place !in Places(items);
    OtherRowsStay(s, items, place);
  }

  lemma ReconcileIsAnswered(s: Table, items: seq<Provision>)
    requires Valid(items)
    ensures AskedRows(s, Reconciled(s, items), items) && FreshIds(s, Reconciled(s, items), items)
    ensures OtherRows(s, Reconciled(s, items), items)
  {
    RowsAreAsked(s, items);
    IdsAreFresh(s, items);
    AskedRowsStay(s, items, AllProvisioned(s, items));
    forall place: Place | forall p <- items :: p.plugin != place.plugin || p.key != place.key
      ensures OtherRow(s, Reconciled(s, items), items, place)
    {
      OthersAreDisabled(s, items, place);
    }
  }

  class PluginStore {
    var rows: map<Place, Connection>
    var issued: nat

    ghost function Contents(): Table
      reads this
    {
      Table(rows, issued)
    }

    constructor ()
      ensures Contents() == Table(map[], 0)
    {
      rows, issued := map[], 0;
    }

    method Provision(p: Provision)
      modifies this
      ensures Contents() == Provisioned(old(Contents()), p)
    {
      var place := PlaceOf(p);
      if place !in rows {
        rows := rows[place := Connection(issued, p.name, 1, p.digest, p.manifest, p.version, true)];
        issued := issued + 1;
      } else {
        var c := rows[place];
        if c.digest != p.digest || c.name != p.name || !c.enabled {
          rows := rows[place := Connection(c.id, p.name, c.revision + 1, p.digest, p.manifest, p.version, true)];
        }
      }
    }

    // Rows are read first and disabled afterwards.
    method DisableOmitted(desired: set<string>)
      modifies this`rows
      ensures rows == WithoutOmitted(old(rows), desired)
    {
      var omitted: set<Place> := {};
      var unread := rows.Keys;
      while unread != {}
        invariant unread <= rows.Keys
        invariant omitted == set place | place in rows.Keys - unread && Omitted(place, rows[place], desired)
      {
        var place :| place in unread;
        unread := unread - {place};
        if rows[place].enabled && Text(place) !in desired { omitted := omitted + {place}; }
      }
      ghost var all := omitted;
      while omitted != {}
        invariant omitted <= all && all <= rows.Keys
        invariant rows.Keys == old(rows).Keys
        invariant forall place <- rows ::
                    rows[place] == if place in all - omitted then Disabled(old(rows)[place]) else old(rows)[place]
      {
        var place :| place in omitted;
        omitted := omitted - {place};
        rows := rows[place := rows[place].(enabled := false, revision := rows[place].revision + 1)];
      }
    }

    // A transaction: an invalid list leaves the table as it was.
    method Reconcile(items: seq<Provision>) returns (r: Result<map<Place, Connection>, ()>)
      modifies this
      ensures Contents() == Reconciled(old(Contents()), items)
      ensures r == if Valid(items) then Ok(rows) else Err(())
      ensures ReconcileAnswers(old(Contents()), Contents(), items, r)
    {
      var savedRows, savedIssued := rows, issued;
      var desired: set<string> := {};
      for k := 0 to |items|
        invariant Valid(items[..k]) && desired == Texts(items[..k])
        invariant Contents() == AllProvisioned(old(Contents()), items[..k])
      {
        var p := items[k];
        var key := p.plugin + "/" + p.key;
        NextItem(items, k);
        if key in desired || p.plugin == "" || p.key == "" || p.name == "" || p.digest == "" {
          rows, issued := savedRows, savedIssued;
          return Err(());
        }
        desired := desired + {key};
        Provision(p);
      }
      assert items[..|items|] == items;
      DisableOmitted(desired);
      ReconcileIsAnswered(old(Contents()), items);
      return Ok(rows);
    }
  }

  lemma NextItem(items: seq<Provision>, k: nat)
    requires k < |items| && Valid(items[..k])
    ensures var p := items[k];
            && Texts(items[..k + 1]) == Texts(items[..k]) + {Text(PlaceOf(p))}
            && (Filled(p) && Text(PlaceOf(p)) !in Texts(items[..k]) <==> Valid(items[..k + 1]))
            && (!Valid(items[..k + 1]) ==> !Valid(items))
    ensures forall t :: AllProvisioned(t, items[..k + 1]) == Provisioned(AllProvisioned(t, items[..k]), items[k])
  {
    var front, p := items[..k], items[k];
    assert items[..k + 1] == front + [p] && items[..k + 1][..k] == front;
    if Valid(items[..k + 1]) {
      assert items[..k + 1][k] == p && p in items[..k + 1];
      forall q | q in front ensures Text(PlaceOf(q)) != Text(PlaceOf(p)) {
        var i :| 0 <= i < k && front[i] == q;
        assert items[..k + 1][i] == q;
      }
    }
  }
}
