/**
 * Saving the circuit on the page under a name and loading a saved circuit
 * back next to what is already there: the list of saved circuits, the
 * save and load button handlers, and `buildCircuit`, which renames
 * incoming element ids that collide with ids on the page and rewires the
 * saved connections to the renamed elements.
 */
module Persistence {
  import opened Wrappers
  import opened Predefinitions
  import opened Ids
  import opened CircuitClasses
  import opened Propagation
  import opened Editing
  import opened CircuitFunctions

  /** No two saved circuits share a name. */
  predicate DistinctNames(cs: seq<Circuit>)
  {
    forall i, j :: 0 <= i < j < |cs| ==> cs[i].name != cs[j].name
  }

  /**
   * The index `pushCircuit` records: its filter callback overwrites the
   * index on every match, so the last circuit with the name wins.
   */
  function LastNamed(cs: seq<Circuit>, name: Option<string>): (r: Option<nat>)
    ensures r.None? <==> forall i :: 0 <= i < |cs| ==> cs[i].name != name
    ensures r.Some? ==> r.value < |cs| && cs[r.value].name == name
                          && forall j :: r.value < j < |cs| ==> cs[j].name != name
    decreases |cs|
  {
    if cs == [] then None
    else if cs[|cs| - 1].name == name then Some(|cs| - 1)
    else
      assert forall i :: 0 <= i < |cs| - 1 ==> cs[..|cs| - 1][i] == cs[i];
      LastNamed(cs[..|cs| - 1], name)
  }

  /**
   * The circuit list after `pushCircuit(c)`: the last circuit with the
   * same name is replaced in place, or `c` is appended when no circuit
   * has that name.
   */
  function Pushed(cs: seq<Circuit>, c: Circuit): (r: seq<Circuit>)
    ensures |r| == if exists i :: 0 <= i < |cs| && cs[i].name == c.name then |cs| else |cs| + 1
    ensures c in r
    ensures forall d :: d in r ==> d == c || d in cs
    ensures forall i :: 0 <= i < |cs| && cs[i].name != c.name ==> r[i] == cs[i]
    ensures forall i :: 0 <= i < |cs| && LastNamed(cs, c.name) != Some(i) ==> r[i] == cs[i]
  {
    var i := LastNamed(cs, c.name);
    if i.None? then cs + [c]
    else
      assert cs[i.value := c][i.value] == c;
      cs[i.value := c]
  }

  /**
   * The circuit the load handler picks: the first one whose name is the
   * one asked for.
   */
  function FindCircuit(cs: seq<Circuit>, name: string): (r: Option<Circuit>)
    ensures r.None? <==> forall i :: 0 <= i < |cs| ==> cs[i].name != Some(name)
    ensures r.Some? ==> exists i :: 0 <= i < |cs| && cs[i] == r.value && r.value.name == Some(name)
                          && forall j :: 0 <= j < i ==> cs[j].name != Some(name)
    decreases |cs|
  {
    if cs == [] then None
    else if cs[0].name == Some(name) then Some(cs[0])
    else
      var r := FindCircuit(cs[1..], name);
      assert forall i :: 1 <= i < |cs| ==> cs[i] == cs[1..][i - 1];
      if r.Some? then
        ghost var i :| 0 <= i < |cs[1..]| && cs[1..][i] == r.value && r.value.name == Some(name)
                         && forall j :: 0 <= j < i ==> cs[1..][j].name != Some(name);
        assert cs[i + 1] == r.value;
        r
      else r
  }

  /** Pushing keeps the names distinct. */
  lemma PushedKeepsNamesDistinct(cs: seq<Circuit>, c: Circuit)
    requires DistinctNames(cs)
    ensures DistinctNames(Pushed(cs, c))
  {
    var r := Pushed(cs, c);
    var idx := LastNamed(cs, c.name);
    forall i, j | 0 <= i < j < |r|
      ensures r[i].name != r[j].name
    {
      if idx.None? {
        assert r == cs + [c];
      } else {
        assert r == cs[idx.value := c];
        assert r[i].name == cs[i].name && r[j].name == cs[j].name;
      }
    }
  }

  /**
   * Saving under a name and then loading that name gives back exactly the
   * circuit saved, as long as the saved names were distinct (which every
   * list built by pushes from the empty list is).
   */
  lemma SaveThenFind(cs: seq<Circuit>, c: Circuit, name: string)
    requires DistinctNames(cs) && c.name == Some(name)
    ensures FindCircuit(Pushed(cs, c), name) == Some(c)
  {
    var r := Pushed(cs, c);
    var idx := LastNamed(cs, c.name);
    var p := if idx.None? then |cs| else idx.value;
    assert r[p] == c;
    assert forall j :: 0 <= j < p ==> r[j] == cs[j] && cs[j].name != c.name;
  }

  /**
   * The circuits held in the browser's local storage under the
   * application's key; the storage string and its JSON form are left out.
   */
  class CircuitStore {
    var circuits: seq<Circuit>

    /** The load handler: an empty list when nothing is stored yet, else the stored list. */
    constructor (stored: Option<seq<Circuit>>)
      ensures circuits == if stored.None? then [] else stored.value
    {
      circuits := if stored.None? then [] else stored.value;
    }

    /** `pushCircuit`: record the last index with the name, then replace there or append. */
    method PushCircuit(c: Circuit)
      modifies this
      ensures circuits == Pushed(old(circuits), c)
    {
      var index := -1;
      var i := 0;
      while i < |circuits|
        invariant 0 <= i <= |circuits|
        invariant -1 <= index < i
        invariant index == -1 <==> LastNamed(circuits[..i], c.name).None?
        invariant index >= 0 ==> LastNamed(circuits[..i], c.name) == Some(index)
      {
        assert circuits[..i + 1][..i] == circuits[..i];
        if circuits[i].name == c.name {
          index := i;
        }
        i := i + 1;
      }
      assert circuits[..i] == circuits;
      if index == -1 {
        circuits := circuits + [c];
      } else {
        circuits := circuits[index := c];
      }
    }

    /**
     * The save button: `name` is what the prompt returned (`None` when it
     * was dismissed) and `confirmed` the answer to the overwrite question,
     * asked only when a circuit of that name exists. `saved` is false when
     * nothing is stored, either because the overwrite was refused or
     * because `getCurrentCircuit` throws.
     */
    method HandleSave(ed: Editor, name: Option<string>, confirmed: bool) returns (saved: bool)
      modifies this
      ensures var taken := exists i :: 0 <= i < |old(circuits)| && old(circuits)[i].name == name;
              var missing := exists i :: 0 <= i < |ed.registry| && ElementById(ed.elements, Some(ed.registry[i])).None?;
              saved == ((!taken || confirmed) && !missing)
      ensures var c := Circuit(name, SavedElements(ed.elements, ed.registry), ed.connections);
              circuits == if saved then Pushed(old(circuits), c) else old(circuits)
      ensures saved && name.Some? && DistinctNames(old(circuits)) ==>
        DistinctNames(circuits)
        && FindCircuit(circuits, name.value) == Some(Circuit(name, SavedElements(ed.elements, ed.registry), ed.connections))
    {
      var taken := false;
      var i := 0;
      while i < |circuits|
        invariant 0 <= i <= |circuits|
        invariant taken <==> exists j :: 0 <= j < i && circuits[j].name == name
      {
        if circuits[i].name == name {
          taken := true;
        }
        i := i + 1;
      }
      if taken && !confirmed {
        return false;
      }
      var r := ed.GetCurrentCircuit();
      if r.None? {
        return false;
      }
      var c := r.value.(name := name);
      PushCircuit(c);
      saved := true;
      if name.Some? && DistinctNames(old(circuits)) {
        PushedKeepsNamesDistinct(old(circuits), c);
        SaveThenFind(old(circuits), c, name.value);
      }
    }

    /**
     * The load button: `name` is what the prompt returned. A falsy answer
     * does nothing, an unknown name only alerts, and otherwise the first
     * circuit with the name is built onto the page; `ok` is false where
     * `buildCircuit` throws.
     */
    method HandleLoad(ed: Editor, name: Option<string>, fuel: nat) returns (ok: bool)
      modifies ed`elements, ed`registry, ed`connections, ed.ids
      ensures !Truthy(name) || FindCircuit(circuits, name.value).None? ==>
        ok && ed.elements == old(ed.elements) && ed.connections == old(ed.connections)
        && ed.registry == old(ed.registry) && ed.ids.counters == old(ed.ids.counters)
      ensures Truthy(name) && FindCircuit(circuits, name.value).Some? ==>
        Loaded(old(ed.Contents()), old(ed.connections), FindCircuit(circuits, name.value).value, ed.Contents(), ed.connections, ok)
    {
      if !Truthy(name) {
        return true;
      }
      var c := FindCircuit(circuits, name.value);
      if c.None? {
        return true;
      }
      ok := BuildCircuit(ed, c.value, fuel);
    }
  }

  /**
   * Whether `document.getElementById(x)` finds a node among the elements:
   * an element or one of its children has that id (an empty id finds
   * nothing).
   */
  predicate Live(els: seq<Element>, x: Id)
  {
    x != "" && (ElementIndex(els, x).Some? || OwnerIndex(els, x).Some?)
  }

  /** The `freshIds` table and the counters after it is filled. */
  datatype Renaming = Renaming(table: map<Id, Id>, counters: map<string, Counter>)

  /** A table keyed by the incoming ids stays so when the next incoming id is added. */
  lemma KeysGrow(init: seq<SavedElement>, saved: seq<SavedElement>, prev: map<Id, Id>, next: map<Id, Id>)
    requires saved != [] && init == saved[..|saved| - 1]
    requires forall i :: 0 <= i < |init| ==> init[i].id in prev
    requires forall x :: x in prev ==> exists i :: 0 <= i < |init| && init[i].id == x
    requires next.Keys == prev.Keys + {saved[|saved| - 1].id}
    ensures forall i :: 0 <= i < |saved| ==> saved[i].id in next
    ensures forall x :: x in next ==> exists i :: 0 <= i < |saved| && saved[i].id == x
  {
    assert forall i :: 0 <= i < |init| ==> saved[i] == init[i];
  }

  /**
   * The `freshIds` loop of `buildCircuit`, as written: an incoming id that
   * is live on the page is mapped to a new `getId` of the element's code,
   * every other id to itself; a repeated incoming id keeps its last entry.
   */
  function FreshIds(els: seq<Element>, counters: map<string, Counter>, saved: seq<SavedElement>): (r: Renaming)
    ensures forall i :: 0 <= i < |saved| ==> saved[i].id in r.table
    ensures forall x :: x in r.table ==> exists i :: 0 <= i < |saved| && saved[i].id == x
    decreases |saved|
  {
    if saved == [] then Renaming(map[], counters)
    else
      var prev := FreshIds(els, counters, saved[..|saved| - 1]);
      var r := FreshIdsRound(els, prev, saved[|saved| - 1]);
      KeysGrow(saved[..|saved| - 1], saved, prev.table, r.table);
      r
  }

  /** One round of the `freshIds` loop as written, on the incoming element `e`. */
  function FreshIdsRound(els: seq<Element>, prev: Renaming, e: SavedElement): (r: Renaming)
    ensures r.table.Keys == prev.table.Keys + {e.id}
    ensures forall z :: z in prev.table && z != e.id ==> r.table[z] == prev.table[z]
    ensures !Live(els, e.id) ==> r.table[e.id] == e.id && r.counters == prev.counters
    ensures Live(els, e.id) ==> Allocation(r.table[e.id], r.counters) == Allocate(prev.counters, e.code)
  {
    if Live(els, e.id) then
      var a := Allocate(prev.counters, e.code);
      Renaming(prev.table[e.id := a.id], a.counters)
    else
      Renaming(prev.table[e.id := e.id], prev.counters)
  }

  /**
   * The renaming `buildCircuit` intends: an incoming id that is free on
   * the page keeps its name, and one that collides is renamed to an id
   * drawn from the counter of the code of an element saved under it.
   */
  lemma {:induction false} FreshIdsRenameLive(els: seq<Element>, counters: map<string, Counter>, saved: seq<SavedElement>)
    ensures var t := FreshIds(els, counters, saved).table;
      forall x :: x in t && !Live(els, x) ==> t[x] == x
    ensures var t := FreshIds(els, counters, saved).table;
      forall x :: x in t && Live(els, x) ==>
        exists i, n :: 0 <= i < |saved| && saved[i].id == x && t[x] == IdText(saved[i].code, n)
    decreases |saved|
  {
    if saved != [] {
      var init := saved[..|saved| - 1];
      FreshIdsRenameLive(els, counters, init);
      var prev := FreshIds(els, counters, init);
      var e := saved[|saved| - 1];
      assert FreshIds(els, counters, saved) == FreshIdsRound(els, prev, e);
      RoundRenamesLive(els, prev, init, saved);
    }
  }

  /** One round keeps every live incoming id renamed to an id of its saved code. */
  lemma RoundRenamesLive(els: seq<Element>, prev: Renaming, init: seq<SavedElement>, saved: seq<SavedElement>)
    requires saved != [] && init == saved[..|saved| - 1]
    requires forall x :: x in prev.table && Live(els, x) ==>
      exists i, n :: 0 <= i < |init| && init[i].id == x && prev.table[x] == IdText(init[i].code, n)
    ensures var t := FreshIdsRound(els, prev, saved[|saved| - 1]).table;
      forall x :: x in t && Live(els, x) ==>
        exists i, n :: 0 <= i < |saved| && saved[i].id == x && t[x] == IdText(saved[i].code, n)
  {
    var e := saved[|saved| - 1];
    var t := FreshIdsRound(els, prev, e).table;
    forall x | x in t && Live(els, x)
      ensures exists i, n :: 0 <= i < |saved| && saved[i].id == x && t[x] == IdText(saved[i].code, n)
    {
      if x == e.id {
        var c := if Lower(e.code) in prev.counters then prev.counters[Lower(e.code)] else NaN;
        assert t[x] == Allocate(prev.counters, e.code).id == IdText(e.code, c);
      } else {
        var i, n :| 0 <= i < |init| && init[i].id == x && prev.table[x] == IdText(init[i].code, n);
        assert saved[i] == init[i];
      }
    }
  }

  /**
   * Loading a circuit twice into a fresh page repeats an id. The palette
   * has taken `and-1`, so the `and` counter stands at 2. The first load
   * finds `and-2` free and keeps it without drawing from the counter; the
   * second load finds `and-2` live and draws from the counter, which gives
   * `and-2` again.
   */
  lemma ReloadRepeatsId()
    ensures var palette := [Element("and-1", "and", true, false, false, [])];
      var counters := map["and" := Count(2)];
      var saved := [SavedElement("and-2", "and")];
      var first := FreshIds(palette, counters, saved);
      var page := palette + [Element("and-2", "and", false, false, false, [])];
      var second := FreshIds(page, first.counters, saved);
      first.table["and-2"] == "and-2" && Live(page, "and-2") && second.table["and-2"] == "and-2"
  {
    var palette := [Element("and-1", "and", true, false, false, [])];
    var counters := map["and" := Count(2)];
    var saved := [SavedElement("and-2", "and")];
    assert saved[..0] == [];
    assert !Live(palette, "and-2") by {
      assert palette[0].id != "and-2";
      assert !HasChild(palette[0], "and-2");
    }
    var first := FreshIds(palette, counters, saved);
    assert first == Renaming(map["and-2" := "and-2"], counters);
    var page := palette + [Element("and-2", "and", false, false, false, [])];
    assert Live(page, "and-2") by {
      assert page[1].id == "and-2";
    }
    assert Lower("and") == "and";
    assert Decimal(2) == "2";
    assert IdText("and", Count(2)) == "and-2";
  }

  /** The ids on the page: every element id and every child id. */
  function PageIds(els: seq<Element>): (r: set<Id>)
    ensures forall x :: Live(els, x) ==> x in r
  {
    (set i | 0 <= i < |els| :: els[i].id)
      + (set i, c | 0 <= i < |els| && c in els[i].children && !c.Picture? :: c.id)
  }

  /** The ids numbered from `n` on, for this code, that are in `avoid`. */
  ghost function Ahead(avoid: set<Id>, code: string, n: nat): set<Id>
  {
    set x | x in avoid && exists m: nat :: n <= m && x == IdText(code, Count(m))
  }

  /** Stepping past a number whose id is taken leaves fewer taken ids ahead. */
  lemma AheadShrinks(avoid: set<Id>, code: string, n: nat)
    requires IdText(code, Count(n)) in avoid
    ensures Ahead(avoid, code, n + 1) < Ahead(avoid, code, n)
  {
    var x := IdText(code, Count(n));
    assert x in Ahead(avoid, code, n);
    forall y | y in Ahead(avoid, code, n + 1)
      ensures y in Ahead(avoid, code, n)
    {
      var m: nat :| n + 1 <= m && y == IdText(code, Count(m));
    }
    if x in Ahead(avoid, code, n + 1) {
      var m: nat :| n + 1 <= m && x == IdText(code, Count(m));
      IdTextInjective(code, n, m);
      assert false;
    }
  }

  /** The first number from `n` on whose id for this code is not in `avoid`. */
  function NextFree(avoid: set<Id>, code: string, n: nat): (m: nat)
    ensures n <= m && IdText(code, Count(m)) !in avoid
    decreases Ahead(avoid, code, n)
  {
    if IdText(code, Count(n)) !in avoid then n
    else
      AheadShrinks(avoid, code, n);
      NextFree(avoid, code, n + 1)
  }

  /**
   * The evidently intended `freshIds` loop: a colliding id is renamed to
   * the first numbered id of its code, from the counter on, that is not in
   * `avoid` (the ids on the page and the incoming ids) and not already
   * given to another incoming element; the counter moves past it.
   */
  function FreshIdsAvoiding(els: seq<Element>, counters: map<string, Counter>, saved: seq<SavedElement>, avoid: set<Id>): (r: Renaming)
    ensures forall i :: 0 <= i < |saved| ==> saved[i].id in r.table
    ensures forall x :: x in r.table ==> exists i :: 0 <= i < |saved| && saved[i].id == x
    decreases |saved|
  {
    if saved == [] then Renaming(map[], counters)
    else
      var prev := FreshIdsAvoiding(els, counters, saved[..|saved| - 1], avoid);
      var r := AvoidingRound(els, prev, saved[|saved| - 1], avoid);
      KeysGrow(saved[..|saved| - 1], saved, prev.table, r.table);
      r
  }

  /** One round of the intended renaming, on the incoming element `e`. */
  function AvoidingRound(els: seq<Element>, prev: Renaming, e: SavedElement, avoid: set<Id>): (r: Renaming)
    ensures r.table.Keys == prev.table.Keys + {e.id}
    ensures forall z :: z in prev.table && z != e.id ==> r.table[z] == prev.table[z]
    ensures !Live(els, e.id) ==> r.table[e.id] == e.id
    ensures Live(els, e.id) ==> r.table[e.id] !in avoid + prev.table.Values
  {
    if Live(els, e.id) then
      var key := Lower(e.code);
      var n := if key in prev.counters && prev.counters[key].Count? then prev.counters[key].n else 1;
      var m := NextFree(avoid + prev.table.Values, e.code, n);
      Renaming(prev.table[e.id := IdText(e.code, Count(m))], prev.counters[key := Count(m + 1)])
    else
      Renaming(prev.table[e.id := e.id], prev.counters)
  }

  /** The intended renaming keeps free ids and moves colliding ones out of `avoid`. */
  lemma {:induction false} AvoidingPlacement(els: seq<Element>, counters: map<string, Counter>, saved: seq<SavedElement>, avoid: set<Id>)
    ensures var t := FreshIdsAvoiding(els, counters, saved, avoid).table;
      (forall x :: x in t && !Live(els, x) ==> t[x] == x)
      && (forall x :: x in t && Live(els, x) ==> t[x] !in avoid)
    decreases |saved|
  {
    if saved != [] {
      AvoidingPlacement(els, counters, saved[..|saved| - 1], avoid);
    }
  }

  /** The intended renaming never gives two incoming ids the same new id. */
  lemma {:induction false} AvoidingInjective(els: seq<Element>, counters: map<string, Counter>, saved: seq<SavedElement>, avoid: set<Id>)
    requires forall i :: 0 <= i < |saved| ==> saved[i].id in avoid
    ensures var t := FreshIdsAvoiding(els, counters, saved, avoid).table;
      forall x, y :: x in t && y in t && x != y ==> t[x] != t[y]
    decreases |saved|
  {
    if saved != [] {
      var init := saved[..|saved| - 1];
      AvoidingInjective(els, counters, init, avoid);
      AvoidingPlacement(els, counters, init, avoid);
      AvoidingPlacement(els, counters, saved, avoid);
      var prev := FreshIdsAvoiding(els, counters, init, avoid).table;
      var t := FreshIdsAvoiding(els, counters, saved, avoid).table;
      var e := saved[|saved| - 1];
      forall x, y | x in t && y in t && x != y
        ensures t[x] != t[y]
      {
        if x == e.id {
          NewEntryApart(els, prev, t, e.id, y, avoid);
        } else if y == e.id {
          NewEntryApart(els, prev, t, e.id, x, avoid);
        }
      }
    }
  }

  /** The entry just added differs from every earlier entry. */
  lemma NewEntryApart(els: seq<Element>, prev: map<Id, Id>, t: map<Id, Id>, x: Id, y: Id, avoid: set<Id>)
    requires x in avoid && x != y && y in t && x in t
    requires forall z :: z in t && z != x ==> z in prev && t[z] == prev[z]
    requires forall z :: z in prev && !Live(els, z) ==> prev[z] == z
    requires forall z :: z in prev && Live(els, z) ==> prev[z] !in avoid
    requires !Live(els, x) ==> t[x] == x
    requires Live(els, x) ==> t[x] !in avoid + prev.Values
    ensures t[x] != t[y]
  {
    assert y in prev;
    if Live(els, x) {
      assert prev[y] in prev.Values;
    }
  }

  /**
   * With the ids on the page and the incoming ids to avoid, no loaded
   * element takes an id that is live on the page, and no two loaded
   * elements share an id.
   */
  lemma IntendedLoadKeepsIdsApart(els: seq<Element>, counters: map<string, Counter>, saved: seq<SavedElement>)
    ensures var avoid := PageIds(els) + (set i | 0 <= i < |saved| :: saved[i].id);
      var t := FreshIdsAvoiding(els, counters, saved, avoid).table;
      (forall x :: x in t ==> !Live(els, t[x]))
      && (forall x, y :: x in t && y in t && x != y ==> t[x] != t[y])
  {
    var avoid := PageIds(els) + (set i | 0 <= i < |saved| :: saved[i].id);
    AvoidingPlacement(els, counters, saved, avoid);
    AvoidingInjective(els, counters, saved, avoid);
  }

  /** One saved reference after renaming: a value that is a key of the table is replaced. */
  function Rename(o: Option<Id>, t: map<Id, Id>): Option<Id>
  {
    if o.Some? && o.value in t then Some(t[o.value]) else o
  }

  /**
   * `o2` is the field `o` after the rewiring loop: a value that is a key of
   * the table takes the mapped id, any other value is kept, and an absent
   * field stays absent.
   */
  predicate Renamed(o: Option<Id>, o2: Option<Id>, t: map<Id, Id>)
  {
    && (o.Some? && o.value in t ==> o2 == Some(t[o.value]))
    && (o.Some? && o.value !in t ==> o2 == o)
    && (o.None? ==> o2.None?)
  }

  /**
   * A saved connection after the rewiring loop of `buildCircuit`: every id
   * field whose value is a key of the table takes the renamed id; the
   * others, and the indices and the state, are as saved.
   */
  function Remap(c: Connection, t: map<Id, Id>): (r: Connection)
    ensures r.originIndex == c.originIndex && r.destinyIndex == c.destinyIndex && r.active == c.active
    ensures (forall x :: x in t ==> t[x] == x) ==> r == c
    ensures Renamed(c.connectionId, r.connectionId, t) && Renamed(c.originId, r.originId, t)
    ensures Renamed(c.originConnectorId, r.originConnectorId, t) && Renamed(c.destinyId, r.destinyId, t)
    ensures Renamed(c.destinyConnectorId, r.destinyConnectorId, t) && Renamed(c.inputConnectorId, r.inputConnectorId, t)
  {
    c.(connectionId := Rename(c.connectionId, t),
       originId := Rename(c.originId, t),
       originConnectorId := Rename(c.originConnectorId, t),
       destinyId := Rename(c.destinyId, t),
       destinyConnectorId := Rename(c.destinyConnectorId, t),
       inputConnectorId := Rename(c.inputConnectorId, t))
  }

  /** Every saved connection rewired, in order. */
  function Remapped(cs: seq<Connection>, t: map<Id, Id>): (r: seq<Connection>)
    ensures |r| == |cs| && forall i :: 0 <= i < |cs| ==> r[i] == Remap(cs[i], t)
  {
    seq(|cs|, i requires 0 <= i < |cs| => Remap(cs[i], t))
  }

  /**
   * When no incoming id collides with one on the page, the `freshIds`
   * table renames nothing and the saved connections are inserted as saved.
   */
  lemma FreeIdsKeepConnections(els: seq<Element>, counters: map<string, Counter>, saved: seq<SavedElement>, cs: seq<Connection>)
    requires forall i :: 0 <= i < |saved| ==> !Live(els, saved[i].id)
    ensures Remapped(cs, FreshIds(els, counters, saved).table) == cs
  {
    var t := FreshIds(els, counters, saved).table;
    FreshIdsRenameLive(els, counters, saved);
    forall x | x in t
      ensures t[x] == x
    {
      var i :| 0 <= i < |saved| && saved[i].id == x;
    }
    var r := Remapped(cs, t);
    forall i | 0 <= i < |cs|
      ensures r[i] == cs[i]
    {
      assert r[i] == Remap(cs[i], t);
    }
  }

  /** Appending the same connection to lists with the same wiring gives lists with the same wiring. */
  lemma WiringAppend(a: seq<Connection>, b: seq<Connection>, c: Connection)
    requires Wiring(a) == Wiring(b)
    ensures Wiring(a + [c]) == Wiring(b + [c])
  {
    assert |a| == |Wiring(a)| == |b|;
    forall i | 0 <= i < |a| + 1
      ensures Wiring(a + [c])[i] == Wiring(b + [c])[i]
    {
      if i < |a| {
        assert Wiring(a)[i] == Wiring(b)[i];
      }
    }
  }

  /**
   * The elements after a load, against the elements `before` it: those
   * already there keep their place (only lamp states may change), and when
   * every saved code has a descriptor one element per saved element
   * follows them, with the renamed id and the saved code.
   */
  ghost predicate ElementsLoaded(before: seq<Element>, t: map<Id, Id>, saved: seq<SavedElement>, after: seq<Element>)
  {
    var base := |before|;
    |after| >= base
    && Layout(after)[..base] == Layout(before)
    && ((forall i :: 0 <= i < |saved| ==> Describe(saved[i].code).Some?) ==>
          |after| == base + |saved|
          && forall i :: 0 <= i < |saved| ==>
               saved[i].id in t && after[base + i].id == t[saved[i].id] && after[base + i].code == saved[i].code)
  }

  /** `c` is drawn on `els` without a throw. */
  predicate Drawable(els: seq<Element>, c: Connection)
  {
    OutputSide(els, c).Some?
  }

  /** Every connection of `cs` is drawn on `els` without a throw. */
  predicate Resolved(els: seq<Element>, cs: seq<Connection>)
  {
    forall k {:trigger Drawable(els, cs[k])} :: 0 <= k < |cs| ==> Drawable(els, cs[k])
  }

  /**
   * The connections after a load onto elements `els`: the old ones
   * followed by a prefix of the rewired saved connections, all of them
   * when `complete`, and otherwise up to the first whose drawing throws,
   * every one before it having gone through.
   */
  ghost predicate ConnectionsLoaded(els: seq<Element>, before: seq<Connection>, rewired: seq<Connection>, after: seq<Connection>, complete: bool)
  {
    exists n :: LoadedAfter(els, before, rewired, after, complete, n)
  }

  /** `ConnectionsLoaded` with the number `n` of rewired connections the loop reached. */
  ghost predicate LoadedAfter(els: seq<Element>, before: seq<Connection>, rewired: seq<Connection>, after: seq<Connection>, complete: bool, n: int)
  {
    0 <= n <= |rewired| && (complete ==> n == |rewired|) && Wiring(after) == Wiring(before + rewired[..n])
      && (!complete ==> 0 < n && !Drawable(els, rewired[n - 1]))
      && Resolved(els, rewired[..if complete then n else n - 1])
  }

  /** The connection loop completes iff every rewired connection can be drawn. */
  lemma ConnectionsLoadedComplete(els: seq<Element>, before: seq<Connection>, rewired: seq<Connection>, after: seq<Connection>, complete: bool)
    requires ConnectionsLoaded(els, before, rewired, after, complete)
    ensures complete <==> Resolved(els, rewired)
  {
    var n :| LoadedAfter(els, before, rewired, after, complete, n);
    if complete {
      assert rewired[..n] == rewired;
    }
  }

  /**
   * The outcome of the connection loop is determined: two runs over the
   * same elements, old connections and rewired list agree on `complete`
   * and on the wiring they leave.
   */
  lemma ConnectionsLoadedUnique(els: seq<Element>, before: seq<Connection>, rewired: seq<Connection>,
                                after1: seq<Connection>, complete1: bool, after2: seq<Connection>, complete2: bool)
    requires ConnectionsLoaded(els, before, rewired, after1, complete1)
    requires ConnectionsLoaded(els, before, rewired, after2, complete2)
    ensures complete1 == complete2 && Wiring(after1) == Wiring(after2)
  {
    ConnectionsLoadedComplete(els, before, rewired, after1, complete1);
    ConnectionsLoadedComplete(els, before, rewired, after2, complete2);
    var n1 :| LoadedAfter(els, before, rewired, after1, complete1, n1);
    var n2 :| LoadedAfter(els, before, rewired, after2, complete2, n2);
    if !complete1 {
      FirstThrowUnique(els, rewired, n1, n2);
    }
  }

  /** Only one connection can be the first whose drawing throws. */
  lemma FirstThrowUnique(els: seq<Element>, cs: seq<Connection>, n1: nat, n2: nat)
    requires 0 < n1 <= |cs| && !Drawable(els, cs[n1 - 1]) && Resolved(els, cs[..n1 - 1])
    requires 0 < n2 <= |cs| && !Drawable(els, cs[n2 - 1]) && Resolved(els, cs[..n2 - 1])
    ensures n1 == n2
  {
    if n1 < n2 {
      ResolvedAt(els, cs, n2 - 1, n1 - 1);
    } else if n2 < n1 {
      ResolvedAt(els, cs, n1 - 1, n2 - 1);
    }
  }

  /** A connection inside a resolved prefix is drawn without a throw. */
  lemma ResolvedAt(els: seq<Element>, cs: seq<Connection>, n: nat, k: nat)
    requires k < n <= |cs| && Resolved(els, cs[..n])
    ensures Drawable(els, cs[k])
  {
    assert cs[..n][k] == cs[k];
  }

  /**
   * What `buildCircuit(c)` leaves on a page that held `before` and the
   * connections `conns`, given the outcome `ok` (false where it throws):
   * the `freshIds` table and counters, then the element loop `PlaceAll`,
   * whose registry and counters are the final ones and whose elements are
   * the final ones up to lamp states; a throw there leaves the
   * connections alone, and otherwise the rewired connections are inserted
   * as `ConnectionsLoaded` says.
   */
  ghost predicate Loaded(before: Page, conns: seq<Connection>, c: Circuit, after: Page, afterConns: seq<Connection>, ok: bool)
  {
    var rn := FreshIds(before.elements, before.counters, c.elements);
    var pl := PlaceAll(Page(before.elements, before.registry, rn.counters), rn.table, c.elements);
    ElementsLoaded(before.elements, rn.table, c.elements, after.elements)
    && (ok ==> forall i :: 0 <= i < |c.elements| ==> Describe(c.elements[i].code).Some?)
    && after.registry == pl.page.registry && after.counters == pl.page.counters
    && Layout(after.elements) == Layout(pl.page.elements)
    && (!pl.ok ==> !ok && after.elements == pl.page.elements && afterConns == conns)
    && (pl.ok ==> ConnectionsLoaded(pl.page.elements, conns, Remapped(c.connections, rn.table), afterConns, ok))
  }

  /** One pass of the element loop of `buildCircuit`, and whether it went through. */
  datatype Placement = Placement(page: Page, ok: bool)

  /**
   * One pass of the element loop: a node with this id and code goes on
   * the page; `buildElement` furnishes and registers it when the code has
   * a descriptor, and otherwise it stays bare and the loop throws.
   */
  function Place(pg: Page, id: Id, code: string): (r: Placement)
    ensures r.ok == Describe(code).Some?
    ensures |r.page.elements| == |pg.elements| + 1 && r.page.elements[..|pg.elements|] == pg.elements
    ensures var e := r.page.elements[|pg.elements|]; e.id == id && e.code == code && !e.demo
    ensures r.page.registry == if r.ok then Register(pg.registry, id) else pg.registry
    ensures !r.ok ==> r.page.counters == pg.counters && r.page.elements[|pg.elements|].children == []
    ensures r.ok ==> var k := Describe(code).value; var built := Furnish(pg.counters, k, |Additionals(k)|);
      r.page.elements[|pg.elements|].children == built.children && r.page.counters == built.counters
  {
    match Describe(code)
    case None =>
      Placement(Page(pg.elements + [Element(id, code, false, false, false, [])], pg.registry, pg.counters), false)
    case Some(k) =>
      var built := Furnish(pg.counters, k, |Additionals(k)|);
      Placement(Page(pg.elements + [Element(id, code, false, false, false, built.children)], Register(pg.registry, id), built.counters), true)
  }

  /** The element loop over the saved elements with the renaming `t`, stopping at the first throw. */
  function PlaceAll(pg: Page, t: map<Id, Id>, saved: seq<SavedElement>): Placement
    requires forall i :: 0 <= i < |saved| ==> saved[i].id in t
  {
    if saved == [] then Placement(pg, true)
    else
      var o := PlaceAll(pg, t, saved[..|saved| - 1]);
      if !o.ok then o else Place(o.page, t[saved[|saved| - 1].id], saved[|saved| - 1].code)
  }

  /** With no throw so far, the next pass of the element loop places the next saved element. */
  lemma PlaceAllNext(pg: Page, t: map<Id, Id>, saved: seq<SavedElement>, i: nat)
    requires forall j :: 0 <= j < |saved| ==> saved[j].id in t
    requires i < |saved| && PlaceAll(pg, t, saved[..i]).ok
    ensures PlaceAll(pg, t, saved[..i + 1]) == Place(PlaceAll(pg, t, saved[..i]).page, t[saved[i].id], saved[i].code)
  {
    assert saved[..i + 1][..i] == saved[..i];
  }

  /** Once the element loop has thrown, the rest of the saved elements change nothing. */
  lemma {:induction false} PlaceAllStops(pg: Page, t: map<Id, Id>, saved: seq<SavedElement>, i: nat)
    requires forall j :: 0 <= j < |saved| ==> saved[j].id in t
    requires i <= |saved| && !PlaceAll(pg, t, saved[..i]).ok
    ensures PlaceAll(pg, t, saved) == PlaceAll(pg, t, saved[..i])
    decreases |saved|
  {
    if i < |saved| {
      var init := saved[..|saved| - 1];
      assert init[..i] == saved[..i];
      PlaceAllStops(pg, t, init, i);
    } else {
      assert saved[..i] == saved;
    }
  }

  /** The index of the first saved element whose code has no descriptor, or the length when there is none. */
  function FirstUnknown(saved: seq<SavedElement>): (r: nat)
    ensures r <= |saved|
    ensures forall i :: 0 <= i < r ==> Describe(saved[i].code).Some?
    ensures r < |saved| ==> Describe(saved[r].code).None?
  {
    if saved == [] then 0
    else
      var f := FirstUnknown(saved[..|saved| - 1]);
      if f < |saved| - 1 then f
      else if Describe(saved[|saved| - 1].code).None? then |saved| - 1
      else |saved|
  }

  /**
   * `after` is `before` followed by one bare-or-built, non-demonstration
   * node per element of `placed`, with its renamed id and its code.
   */
  predicate Appended(before: seq<Element>, after: seq<Element>, t: map<Id, Id>, placed: seq<SavedElement>)
  {
    |after| == |before| + |placed| && after[..|before|] == before
    && forall m :: 0 <= m < |placed| ==>
         placed[m].id in t && after[|before| + m].id == t[placed[m].id]
         && after[|before| + m].code == placed[m].code && !after[|before| + m].demo
  }

  /**
   * The registry keys `after` are the keys `before` followed by the
   * truthy renamed ids of the elements of `built`, and nothing else.
   */
  ghost predicate RegisteredUpTo(before: seq<Id>, after: seq<Id>, t: map<Id, Id>, built: seq<SavedElement>)
  {
    |after| >= |before| && after[..|before|] == before
    && forall x :: x in after <==> x in before || (x != "" && exists e :: e in built && e.id in t && t[e.id] == x)
  }

  /** One more node appended for the last saved element. */
  lemma AppendedGrow(before: seq<Element>, mid: seq<Element>, after: seq<Element>, t: map<Id, Id>, placed: seq<SavedElement>)
    requires placed != [] && Appended(before, mid, t, placed[..|placed| - 1]) && placed[|placed| - 1].id in t
    requires |after| == |mid| + 1 && after[..|mid|] == mid
    requires after[|mid|].id == t[placed[|placed| - 1].id] && after[|mid|].code == placed[|placed| - 1].code && !after[|mid|].demo
    ensures Appended(before, after, t, placed)
  {
    var n := |before|;
    assert after[..n] == mid[..n];
    forall m | 0 <= m < |placed|
      ensures placed[m].id in t && after[n + m].id == t[placed[m].id]
              && after[n + m].code == placed[m].code && !after[n + m].demo
    {
      if m < |placed| - 1 {
        assert after[n + m] == after[..|mid|][n + m];
        assert placed[m] == placed[..|placed| - 1][m];
      }
    }
  }

  /** One more renamed id registered for the last saved element. */
  lemma RegisteredGrow(before: seq<Id>, mid: seq<Id>, t: map<Id, Id>, built: seq<SavedElement>)
    requires built != [] && RegisteredUpTo(before, mid, t, built[..|built| - 1]) && built[|built| - 1].id in t
    ensures RegisteredUpTo(before, Register(mid, t[built[|built| - 1].id]), t, built)
  {
    var init := built[..|built| - 1];
    var e := built[|built| - 1];
    var after := Register(mid, t[e.id]);
    assert after[..|before|] == after[..|mid|][..|before|];
    forall x
      ensures x in after <==> x in before || (x != "" && exists f :: f in built && f.id in t && t[f.id] == x)
    {
      if x != "" && x in mid && x !in before {
        var f :| f in init && f.id in t && t[f.id] == x;
        assert f in built;
      }
      if x == t[e.id] && x != "" {
        assert e in built;
      }
      if x != "" && x !in before && (exists f :: f in built && f.id in t && t[f.id] == x) {
        var f :| f in built && f.id in t && t[f.id] == x;
        if f != e {
          assert f in init;
        }
      }
    }
  }

  /**
   * The element loop places the saved elements in order up to and
   * including the first with an unknown code (all of them when there is
   * none, which is exactly when it goes through), and registers the
   * renamed ids of those before it.
   */
  ghost predicate PlacedInOrder(pg: Page, t: map<Id, Id>, saved: seq<SavedElement>)
    requires forall i :: 0 <= i < |saved| ==> saved[i].id in t
  {
    var f := FirstUnknown(saved);
    var r := PlaceAll(pg, t, saved);
    (r.ok <==> f == |saved|)
    && Appended(pg.elements, r.page.elements, t, saved[..if f < |saved| then f + 1 else f])
    && RegisteredUpTo(pg.registry, r.page.registry, t, saved[..f])
  }

  /** The element loop of `buildCircuit` as `PlacedInOrder` describes it. */
  lemma {:induction false} PlaceAllShape(pg: Page, t: map<Id, Id>, saved: seq<SavedElement>)
    requires forall i :: 0 <= i < |saved| ==> saved[i].id in t
    ensures PlacedInOrder(pg, t, saved)
    decreases |saved|
  {
    if saved == [] {
      assert pg.elements[..|pg.elements|] == pg.elements;
      assert pg.registry[..|pg.registry|] == pg.registry;
    } else {
      var init := saved[..|saved| - 1];
      PlaceAllShape(pg, t, init);
      if FirstUnknown(init) < |init| {
        PlacedStopped(pg, t, saved);
      } else {
        assert init[..|init|] == init;
        PlacedNext(pg, t, saved, PlaceAll(pg, t, init));
      }
    }
  }

  /** Past a throw, a further saved element leaves the description as it was. */
  lemma PlacedStopped(pg: Page, t: map<Id, Id>, saved: seq<SavedElement>)
    requires forall i :: 0 <= i < |saved| ==> saved[i].id in t
    requires saved != [] && PlacedInOrder(pg, t, saved[..|saved| - 1])
    requires FirstUnknown(saved[..|saved| - 1]) < |saved| - 1
    ensures PlacedInOrder(pg, t, saved)
  {
    var init := saved[..|saved| - 1];
    var f0 := FirstUnknown(init);
    assert FirstUnknown(saved) == f0;
    assert PlaceAll(pg, t, saved) == PlaceAll(pg, t, init);
    assert saved[..f0 + 1] == init[..f0 + 1] && saved[..f0] == init[..f0];
  }

  /** With no throw so far, the next saved element is placed, and registered when its code is known. */
  lemma PlacedNext(pg: Page, t: map<Id, Id>, saved: seq<SavedElement>, o: Placement)
    requires forall i :: 0 <= i < |saved| ==> saved[i].id in t
    requires saved != [] && FirstUnknown(saved[..|saved| - 1]) == |saved| - 1
    requires o == PlaceAll(pg, t, saved[..|saved| - 1]) && o.ok
    requires Appended(pg.elements, o.page.elements, t, saved[..|saved| - 1])
    requires RegisteredUpTo(pg.registry, o.page.registry, t, saved[..|saved| - 1])
    ensures PlacedInOrder(pg, t, saved)
  {
    var init := saved[..|saved| - 1];
    var e := saved[|saved| - 1];
    var r := Place(o.page, t[e.id], e.code);
    assert PlaceAll(pg, t, saved) == r;
    AppendedGrow(pg.elements, o.page.elements, r.page.elements, t, saved);
    if r.ok {
      RegisteredGrow(pg.registry, o.page.registry, t, saved);
      PlacedAll(pg, t, saved, r);
    } else {
      PlacedFirstUnknown(pg, t, saved, r, o);
    }
  }

  /** The description when the last saved element is the first with an unknown code. */
  lemma PlacedFirstUnknown(pg: Page, t: map<Id, Id>, saved: seq<SavedElement>, r: Placement, o: Placement)
    requires forall i :: 0 <= i < |saved| ==> saved[i].id in t
    requires saved != [] && FirstUnknown(saved[..|saved| - 1]) == |saved| - 1
    requires Describe(saved[|saved| - 1].code).None?
    requires PlaceAll(pg, t, saved) == r && !r.ok && r.page.registry == o.page.registry
    requires Appended(pg.elements, r.page.elements, t, saved)
    requires RegisteredUpTo(pg.registry, o.page.registry, t, saved[..|saved| - 1])
    ensures PlacedInOrder(pg, t, saved)
  {
    assert FirstUnknown(saved) == |saved| - 1;
    assert saved[..|saved| - 1 + 1] == saved;
  }

  /** The description when the last saved element is placed with a known code. */
  lemma PlacedAll(pg: Page, t: map<Id, Id>, saved: seq<SavedElement>, r: Placement)
    requires forall i :: 0 <= i < |saved| ==> saved[i].id in t
    requires saved != [] && FirstUnknown(saved[..|saved| - 1]) == |saved| - 1
    requires Describe(saved[|saved| - 1].code).Some?
    requires PlaceAll(pg, t, saved) == r && r.ok
    requires Appended(pg.elements, r.page.elements, t, saved)
    requires RegisteredUpTo(pg.registry, r.page.registry, t, saved)
    ensures PlacedInOrder(pg, t, saved)
  {
    assert FirstUnknown(saved) == |saved|;
    assert saved[..|saved|] == saved;
  }

  /**
   * The element loop as the load sees it: it goes through exactly when
   * every saved code has a descriptor, the elements are then loaded as
   * `ElementsLoaded` says, and the registry only grows at its end.
   */
  lemma PlacedLoaded(pg: Page, t: map<Id, Id>, saved: seq<SavedElement>, ok: bool, after: Page)
    requires forall i :: 0 <= i < |saved| ==> saved[i].id in t
    requires Placement(after, ok) == PlaceAll(pg, t, saved)
    ensures ok <==> forall i :: 0 <= i < |saved| ==> Describe(saved[i].code).Some?
    ensures ElementsLoaded(pg.elements, t, saved, after.elements)
    ensures |after.registry| >= |pg.registry| && after.registry[..|pg.registry|] == pg.registry
  {
    PlaceAllShape(pg, t, saved);
    var f := FirstUnknown(saved);
    if f == |saved| {
      assert saved[..f] == saved;
      AppendedLoaded(pg.elements, after.elements, t, saved);
    } else {
      StoppedLoaded(pg.elements, after.elements, t, saved, f);
    }
  }

  /** All saved elements placed in order: they are loaded. */
  lemma AppendedLoaded(before: seq<Element>, after: seq<Element>, t: map<Id, Id>, saved: seq<SavedElement>)
    requires Appended(before, after, t, saved)
    ensures ElementsLoaded(before, t, saved, after)
  {
    ElementsLoadedAppended(before, t, saved, after);
  }

  /** With an unknown code among the saved elements, only the old elements' place is promised. */
  lemma StoppedLoaded(before: seq<Element>, after: seq<Element>, t: map<Id, Id>, saved: seq<SavedElement>, f: nat)
    requires f < |saved| && Describe(saved[f].code).None?
    requires |after| >= |before| && after[..|before|] == before
    ensures ElementsLoaded(before, t, saved, after)
  {
    LayoutPrefix(after, |before|);
  }

  /** Layout of a prefix is the prefix of the layout. */
  lemma LayoutPrefix(a: seq<Element>, n: nat)
    requires n <= |a|
    ensures Layout(a)[..n] == Layout(a[..n])
  {
  }

  /** Cascades after the elements are built change lamp states only, which the element part ignores. */
  lemma ElementsLoadedLayout(before: seq<Element>, t: map<Id, Id>, saved: seq<SavedElement>, a: seq<Element>, b: seq<Element>)
    requires ElementsLoaded(before, t, saved, a) && Layout(a) == Layout(b)
    ensures ElementsLoaded(before, t, saved, b)
  {
    assert |a| == |Layout(a)| == |b|;
    forall k | |before| <= k < |a|
      ensures b[k].id == a[k].id && b[k].code == a[k].code
    {
      assert Layout(a)[k] == Layout(b)[k];
    }
  }

  /** Elements appended after the old ones, with the renamed ids and saved codes when all codes are known. */
  lemma ElementsLoadedAppended(before: seq<Element>, t: map<Id, Id>, saved: seq<SavedElement>, after: seq<Element>)
    requires |after| >= |before| && after[..|before|] == before
    requires (forall i :: 0 <= i < |saved| ==> Describe(saved[i].code).Some?) ==>
      |after| == |before| + |saved|
      && forall i :: 0 <= i < |saved| ==>
           saved[i].id in t && after[|before| + i].id == t[saved[i].id] && after[|before| + i].code == saved[i].code
    ensures ElementsLoaded(before, t, saved, after)
  {
    LayoutPrefix(after, |before|);
  }

  /** The first loop of `buildCircuit`: the `freshIds` table. */
  method FillRenaming(ed: Editor, saved: seq<SavedElement>) returns (table: map<Id, Id>)
    modifies ed.ids
    ensures Renaming(table, ed.ids.counters) == FreshIds(ed.elements, old(ed.ids.counters), saved)
  {
    table := map[];
    var i := 0;
    while i < |saved|
      invariant 0 <= i <= |saved|
      invariant Renaming(table, ed.ids.counters) == FreshIds(ed.elements, old(ed.ids.counters), saved[..i])
    {
      assert saved[..i + 1][..i] == saved[..i];
      var e := saved[i];
      assert FreshIds(ed.elements, old(ed.ids.counters), saved[..i + 1])
          == FreshIdsRound(ed.elements, Renaming(table, ed.ids.counters), e);
      if Live(ed.elements, e.id) {
        var id := ed.ids.GetId(e.code);
        table := table[e.id := id];
      } else {
        table := table[e.id := e.id];
      }
      i := i + 1;
    }
    assert saved[..i] == saved;
  }

  /**
   * The second loop of `buildCircuit`: a node per saved element with the
   * renamed id and the saved code, built by `buildElement`; an unknown
   * code leaves the bare node on the page and throws (`ok` false).
   */
  method BuildElements(ed: Editor, saved: seq<SavedElement>, table: map<Id, Id>) returns (ok: bool)
    requires forall i :: 0 <= i < |saved| ==> saved[i].id in table
    modifies ed`elements, ed`registry, ed.ids
    ensures ok <==> forall i :: 0 <= i < |saved| ==> Describe(saved[i].code).Some?
    ensures ElementsLoaded(old(ed.elements), table, saved, ed.elements)
    ensures exists registered :: ed.registry == old(ed.registry) + registered
    ensures Placement(ed.Contents(), ok) == PlaceAll(old(ed.Contents()), table, saved)
  {
    ghost var start := ed.Contents();
    ok := true;
    var i := 0;
    while i < |saved| && ok
      invariant 0 <= i <= |saved|
      invariant Placement(ed.Contents(), ok) == PlaceAll(start, table, saved[..i])
    {
      PlaceAllNext(start, table, saved, i);
      var placed;
      placed, ok := PlaceElement(ed, table[saved[i].id], saved[i].code);
      i := i + 1;
    }
    if !ok {
      PlaceAllStops(start, table, saved, i);
    } else {
      assert saved[..i] == saved;
    }
    PlacedLoaded(start, table, saved, ok, ed.Contents());
    assert ed.registry == old(ed.registry) + ed.registry[|old(ed.registry)|..];
  }

  /**
   * One pass of the element loop: a node with this id and code goes on the
   * page, and `buildElement` furnishes and registers it when the code has
   * a descriptor (`ok`); otherwise it stays bare and the loop throws.
   */
  method PlaceElement(ed: Editor, id: Id, code: string) returns (placed: Element, ok: bool)
    modifies ed`elements, ed`registry, ed.ids
    ensures ok == Describe(code).Some?
    ensures ed.elements == old(ed.elements) + [placed] && placed.id == id && placed.code == code
    ensures ed.registry == old(ed.registry) || ed.registry == old(ed.registry) + [id]
    ensures ok ==> var k := Describe(code).value;
      var built := Furnish(old(ed.ids.counters), k, |Additionals(k)|);
      placed == Element(id, code, false, false, false, built.children)
      && ed.registry == Register(old(ed.registry), id) && ed.ids.counters == built.counters
    ensures !ok ==>
      placed == Element(id, code, false, false, false, [])
      && ed.registry == old(ed.registry) && ed.ids.counters == old(ed.ids.counters)
    ensures Placement(ed.Contents(), ok) == Place(old(ed.Contents()), id, code)
  {
    var kind := Describe(code);
    if kind.None? {
      placed := Element(id, code, false, false, false, []);
      ed.elements := ed.elements + [placed];
      return placed, false;
    }
    ed.BuildElement(id, kind.value, false);
    placed := ed.elements[|ed.elements| - 1];
    ok := true;
  }

  /** Inserting the next rewired connection extends the wiring by it. */
  lemma WiringNext(conns: seq<Connection>, before: seq<Connection>, rewired: seq<Connection>, i: nat, c: Connection)
    requires i < |rewired| && rewired[i] == c
    requires Wiring(conns) == Wiring(before + rewired[..i])
    ensures Wiring(conns + [c]) == Wiring(before + rewired[..i + 1])
  {
    assert before + rewired[..i + 1] == (before + rewired[..i]) + [c];
    WiringAppend(conns, before + rewired[..i], c);
  }

  /**
   * The third loop of `buildCircuit`: each saved connection rewired and
   * inserted in order, stopping where an insertion throws.
   */
  method InsertConnections(ed: Editor, conns: seq<Connection>, table: map<Id, Id>, fuel: nat) returns (ok: bool)
    modifies ed`elements, ed`connections
    ensures ConnectionsLoaded(old(ed.elements), old(ed.connections), Remapped(conns, table), ed.connections, ok)
    ensures Layout(ed.elements) == Layout(old(ed.elements))
  {
    ok := DrawConnections(ed, Remapped(conns, table), fuel);
  }

  /** The connection loop proper: draws the rewired connections in order, stopping at the first that throws. */
  method DrawConnections(ed: Editor, rewired: seq<Connection>, fuel: nat) returns (ok: bool)
    modifies ed`elements, ed`connections
    ensures ConnectionsLoaded(old(ed.elements), old(ed.connections), rewired, ed.connections, ok)
    ensures Layout(ed.elements) == Layout(old(ed.elements))
  {
    ghost var els, before := ed.elements, ed.connections;
    assert before + rewired[..0] == before;
    ok := true;
    var i := 0;
    while i < |rewired|
      invariant 0 <= i <= |rewired| && ok
      invariant Wiring(ed.connections) == Wiring(before + rewired[..i])
      invariant Layout(ed.elements) == Layout(els)
      invariant Resolved(els, rewired[..i])
    {
      var conn := rewired[i];
      WiringNext(ed.connections, before, rewired, i, conn);
      ok := DrawConnection(ed, els, conn, fuel);
      i := i + 1;
      if !ok {
        ConnectionsStopped(els, before, rewired, ed.connections, i);
        break;
      }
      ResolvedGrow(els, rewired, i - 1);
    }
    if ok {
      ConnectionsFinished(els, before, rewired, ed.connections);
    }
  }

  /**
   * One `insertConnection` as the connection loop sees it: whether it
   * threw, judged on the elements `els` the loop started from, and the
   * wiring and layout after it.
   */
  method DrawConnection(ed: Editor, ghost els: seq<Element>, c: Connection, fuel: nat) returns (ok: bool)
    requires Layout(ed.elements) == Layout(els)
    modifies ed`elements, ed`connections
    ensures ok == Drawable(els, c)
    ensures Wiring(ed.connections) == Wiring(old(ed.connections) + [c])
    ensures Layout(ed.elements) == Layout(els)
  {
    OutputSideLayout(ed.elements, els, c);
    ok := ed.InsertConnection(c, fuel);
  }

  /** A connection loop that went through every rewired connection completes. */
  lemma ConnectionsFinished(els: seq<Element>, before: seq<Connection>, rewired: seq<Connection>, after: seq<Connection>)
    requires Wiring(after) == Wiring(before + rewired[..|rewired|]) && Resolved(els, rewired[..|rewired|])
    ensures ConnectionsLoaded(els, before, rewired, after, true)
  {
    assert rewired[..|rewired|] == rewired;
    assert LoadedAfter(els, before, rewired, after, true, |rewired|);
  }

  /** One more connection drawn without a throw extends the resolved prefix. */
  lemma ResolvedGrow(els: seq<Element>, cs: seq<Connection>, i: nat)
    requires i < |cs| && Resolved(els, cs[..i]) && Drawable(els, cs[i])
    ensures Resolved(els, cs[..i + 1])
  {
    assert cs[..i + 1] == cs[..i] + [cs[i]];
  }

  /** A throw on the `n`-th connection, whose output side is missing, ends the connection loop there. */
  lemma ConnectionsStopped(els: seq<Element>, before: seq<Connection>, rewired: seq<Connection>, after: seq<Connection>, n: nat)
    requires 0 < n <= |rewired| && Wiring(after) == Wiring(before + rewired[..n])
    requires !Drawable(els, rewired[n - 1]) && Resolved(els, rewired[..n - 1])
    ensures ConnectionsLoaded(els, before, rewired, after, false)
  {
    assert LoadedAfter(els, before, rewired, after, false, n);
  }

  /**
   * `buildCircuit`: fill the renaming table, build the elements, then
   * rewire and insert the connections; `ok` is false where it throws.
   */
  method BuildCircuit(ed: Editor, c: Circuit, fuel: nat) returns (ok: bool)
    modifies ed`elements, ed`registry, ed`connections, ed.ids
    ensures Loaded(old(ed.Contents()), old(ed.connections), c, ed.Contents(), ed.connections, ok)
    ensures exists registered :: ed.registry == old(ed.registry) + registered
  {
    ghost var before := ed.State();
    var table := FillRenaming(ed, c.elements);
    ok := BuildElements(ed, c.elements, table);
    ghost var rewired := Remapped(c.connections, table);
    if !ok {
      assert before.connections + rewired[..0] == before.connections;
      return;
    }
    ghost var built := ed.elements;
    ok := InsertConnections(ed, c.connections, table, fuel);
    ElementsLoadedLayout(before.elements, table, c.elements, built, ed.elements);
  }
}
