/**
 * The editor's mutable state and the operations of the circuit core that
 * change it step by step: resolving connector states, driving connections,
 * running an element's update and the cascade it sets off, committing a
 * connection through the two-click connector selection, and removing
 * connections and elements.
 */
module CircuitFunctions {
  import opened Wrappers
  import opened Predefinitions
  import opened Ids
  import opened CircuitClasses
  import opened Propagation
  import opened Editing

  /**
   * The global state of the editor page: the element nodes on the page in
   * document order (palette demonstrations and placed elements), the keys
   * of the `elements` registry in insertion order, the `connections` array,
   * the pending `currentConnection` (`None` once it has become `undefined`),
   * and the `elementIds` counters.
   */
  class Editor {
    var elements: seq<Element>
    var registry: seq<Id>
    var connections: seq<Connection>
    var current: Option<Connection>
    const ids: IdCounters

    /** The part of the state the simulation works on. */
    ghost function State(): Field
      reads this
    {
      Field(elements, connections)
    }

    /** What `buildElement` writes: the nodes, the registry keys and the counters. */
    ghost function Contents(): Page
      reads this, ids
    {
      Page(elements, registry, ids.counters)
    }

    /** The page after the scripts load: no connection, no pending origin, fresh counters. */
    constructor ()
      ensures elements == [] && registry == [] && connections == [] && current == Some(Blank())
      ensures fresh(ids) && ids.counters == InitialCounters()
    {
      elements := [];
      registry := [];
      connections := [];
      current := Some(Blank());
      ids := new IdCounters();
    }

    /**
     * `getConnectorsStates`: for each connector, whether some connection
     * touching it is active; a connector no connection touches gives false.
     */
    method GetConnectorsStates(ks: seq<Id>) returns (states: seq<bool>)
      ensures |states| == |ks|
      ensures forall i :: 0 <= i < |ks| ==>
        (states[i] <==> exists j :: 0 <= j < |connections| && Touches(connections[j], ks[i]) && connections[j].active)
      ensures states == States(connections, ks)
    {
      states := [];
      var i := 0;
      while i < |ks|
        invariant 0 <= i <= |ks|
        invariant |states| == i
        invariant forall m :: 0 <= m < i ==> states[m] == Energized(connections, ks[m])
      {
        var energized := false;
        var j := 0;
        while j < |connections|
          invariant 0 <= j <= |connections|
          invariant energized <==> exists n :: 0 <= n < j && Touches(connections[n], ks[i]) && connections[n].active
        {
          if Touches(connections[j], ks[i]) {
            energized := energized || connections[j].active;
          }
          j := j + 1;
        }
        states := states + [energized];
        i := i + 1;
      }
    }

    /** `setConnectionState`: the `active` flag of the connection at index `j` becomes `b`. */
    method SetConnectionState(j: nat, b: bool)
      requires j < |connections|
      modifies this`connections
      ensures connections == old(connections)[j := old(connections)[j].(active := b)]
    {
      connections := connections[j := connections[j].(active := b)];
    }

    /**
     * `setConnectorConnectionsState(k, b)`: every connection touching `k`
     * gets `active = b`, all others are unchanged; `touched` lists the ids of
     * the connections written, whose change handlers fire.
     */
    method SetConnectorConnectionsState(k: Id, b: bool) returns (touched: seq<Option<Id>>)
      modifies this`connections
      ensures connections == SetActive(old(connections), k, b)
      ensures touched == Touched(old(connections), k)
    {
      ghost var before := connections;
      touched := [];
      var j := 0;
      while j < |connections|
        invariant 0 <= j <= |connections| == |before|
        invariant forall m :: 0 <= m < j ==>
          connections[m] == if Touches(before[m], k) then before[m].(active := b) else before[m]
        invariant forall m :: j <= m < |before| ==> connections[m] == before[m]
        invariant touched == Touched(before[..j], k)
      {
        assert before[..j + 1][..j] == before[..j];
        if Touches(connections[j], k) {
          touched := touched + [connections[j].connectionId];
          SetConnectionState(j, b);
        }
        j := j + 1;
      }
      assert before[..j] == before;
    }

    /** The loop over output connectors: drive each of `ks` in turn to `b`. */
    method DriveOutputs(ks: seq<Id>, b: bool) returns (touched: seq<Option<Id>>)
      modifies this`connections
      ensures Driven(connections, touched) == Drive(old(connections), ks, b)
    {
      ghost var before := connections;
      touched := [];
      DriveEffect(before, [], b);
      var i := 0;
      while i < |ks|
        invariant 0 <= i <= |ks|
        invariant Driven(connections, touched) == Drive(before, ks[..i], b)
      {
        assert ks[..i + 1] == ks[..i] + [ks[i]];
        DriveNext(before, ks[..i], ks[i], b);
        var t := SetConnectorConnectionsState(ks[i], b);
        touched := touched + t;
        i := i + 1;
      }
      assert ks[..i] == ks;
    }

    /**
     * `descriptor.updateOutput(element)` for the element at index `i`,
     * without the handlers it sets off; `touched` lists the connections it
     * wrote.
     */
    method UpdateOutput(i: nat) returns (touched: seq<Option<Id>>)
      modifies this`elements, this`connections
      ensures Stepped(State(), touched) == Step(old(State()), i)
    {
      touched := [];
      if i >= |elements| {
        return;
      }
      var e := elements[i];
      var kind := Describe(e.code);
      if kind.None? || !Indexed(kind.value, e.children) {
        return;
      }
      var k := kind.value;
      if IsLogic(k) {
        var ins := InputConnectors(k, e.children);
        if |ins| > 0 {
          var states := GetConnectorsStates(IdsOf(ins));
          touched := DriveOutputs(IdsOf(OutputConnectors(k, e.children)), Evaluate(k, states));
        }
      } else if k == SimpleSwitch {
        touched := DriveOutputs(IdsOf(OutputConnectors(k, e.children)), e.active);
      } else {
        var states := GetConnectorsStates(IdsOf(InputConnectors(k, e.children)));
        var q := LightIndex(elements, e.id);
        if q.Some? {
          elements := elements[q.value := elements[q.value].(lit := |states| > 0 && states[0])];
        }
      }
    }

    /**
     * `updateOutput` of element `i` and, while `fuel` lasts, the change
     * handler of every connection it wrote, depth first.
     */
    method Refresh(i: nat, fuel: nat)
      modifies this`elements, this`connections
      ensures State() == Cascade(old(State()), i, fuel)
      decreases fuel, 4, 0
    {
      ghost var before := State();
      var touched := UpdateOutput(i);
      CascadeOfStep(before, i, fuel, Stepped(State(), touched));
      NotifyEach(touched, fuel);
    }

    /** The change handlers of the connections an update wrote, in order. */
    method NotifyEach(ts: seq<Option<Id>>, fuel: nat)
      modifies this`elements, this`connections
      ensures State() == NotifyAll(old(State()), ts, fuel)
      decreases fuel, 3, 0
    {
      ghost var start := State();
      var j := 0;
      while j < |ts|
        invariant 0 <= j <= |ts|
        invariant NotifyAll(State(), ts[j..], fuel) == NotifyAll(start, ts, fuel)
      {
        NotifyAllStep(State(), ts, j, fuel);
        HandleConnectionElectricChange(ts[j], fuel);
        j := j + 1;
      }
    }

    /**
     * `handleConnectionElectricChange`, called directly instead of through a
     * mutation observer: re-run the element that owns the written
     * connection's `inputConnectorId`.
     */
    method HandleConnectionElectricChange(t: Option<Id>, fuel: nat)
      modifies this`elements, this`connections
      ensures State() == Notify(old(State()), t, fuel)
      decreases fuel, 2, 0
    {
      ghost var before := State();
      var j := Listener(Field(elements, connections), t);
      if j.None? || fuel == 0 {
        assert Notify(before, t, fuel) == before;
        return;
      }
      assert Notify(before, t, fuel) == Cascade(before, j.value, fuel - 1);
      Refresh(j.value, fuel - 1);
    }
  
    /**
     * The `filter` of `removeConnection` with its side effect: the index of
     * the last connection with this id, or -1.
     */
    method FindConnectionIndex(cid: Option<Id>) returns (idx: int)
      ensures -1 <= idx < |connections|
      ensures idx == -1 <==> forall i :: 0 <= i < |connections| ==> connections[i].connectionId != cid
      ensures idx >= 0 ==> connections[idx].connectionId == cid
                           && forall j :: idx < j < |connections| ==> connections[j].connectionId != cid
    {
      idx := -1;
      var j := 0;
      while j < |connections|
        invariant 0 <= j <= |connections| && -1 <= idx < j
        invariant idx == -1 <==> forall i :: 0 <= i < j ==> connections[i].connectionId != cid
        invariant idx >= 0 ==> connections[idx].connectionId == cid
                               && forall m :: idx < m < j ==> connections[m].connectionId != cid
      {
        if connections[j].connectionId == cid {
          idx := j;
        }
        j := j + 1;
      }
    }

    /**
     * `insertConnection`: push the connection, draw it (both connector ids
     * must resolve) and re-run the element at its output end; `ok` is false
     * where the source throws after the push.
     */
    method InsertConnection(c: Connection, fuel: nat) returns (ok: bool)
      modifies this`elements, this`connections
      ensures ok == OutputSide(old(elements), c).Some?
      ensures !ok ==> elements == old(elements) && connections == old(connections) + [c]
      ensures ok ==> State() == Cascade(Field(old(elements), old(connections) + [c]), OutputSide(old(elements), c).value, fuel)
      ensures Wiring(connections) == Wiring(old(connections) + [c])
      ensures Layout(elements) == Layout(old(elements))
    {
      connections := connections + [c];
      var q := OutputSide(elements, c);
      if q.None? {
        return false;
      }
      ghost var pushed := State();
      Refresh(q.value, fuel);
      CascadeKeepsWiring(pushed, q.value, fuel);
      ok := true;
    }

    /**
     * `removeConnection`: splice the list as written (the last entry with
     * the id, or the last entry of all when there is none), re-run the
     * input side, then deselect.
     */
    method RemoveConnection(c: Connection, fuel: nat) returns (ok: bool)
      modifies this`elements, this`connections, this`current
      ensures Outcome(State(), ok) == Unlink(old(State()), c, SpliceById(old(connections), c.connectionId), fuel)
      ensures current == if ok then Some(Blank()) else old(current)
      ensures WiredFrom(connections, old(connections))
      ensures |connections| == if old(connections) == [] then 0 else |old(connections)| - 1
      ensures Layout(elements) == Layout(old(elements))
    {
      ghost var before := State();
      var idx := FindConnectionIndex(c.connectionId);
      if idx >= 0 {
        connections := connections[..idx] + connections[idx + 1..];
      } else if |connections| > 0 {
        connections := connections[..|connections| - 1];
      }
      assert connections == SpliceById(before.connections, c.connectionId);
      UnlinkWiredFrom(before, c, connections, fuel);
      var q := InputSide(elements, c);
      if q.None? {
        return false;
      }
      Refresh(q.value, fuel);
      current := Some(Blank());
      ok := true;
    }

    /**
     * `removeElement` of the element at index `p`: keep the connections not
     * involving it, run `removeConnection` on each associated one (stopping
     * at a throw), then take the element off the page. Its id stays among
     * the registry keys.
     */
    method RemoveElement(p: nat, fuel: nat) returns (ok: bool)
      requires p < |elements|
      modifies this`elements, this`connections, this`current
      ensures Outcome(State(), ok) == Removal(old(State()), p, fuel, true)
      ensures forall j :: 0 <= j < |connections| ==> !Involves(connections[j], old(elements)[p].id)
      ensures registry == old(registry)
      ensures current == if FirstUnlinks(old(elements), Associated(old(connections), old(elements)[p].id)) then Some(Blank()) else old(current)
    {
      ghost var before := State();
      var eid := elements[p].id;
      var associated := Associated(connections, eid);
      connections := Kept(connections, eid);
      ok := UnlinkEach(associated, fuel);
      if ok {
        assert |elements| == |Layout(elements)|;
        elements := elements[..p] + elements[p + 1..];
      }
      RemovalDisconnects(before, p, fuel, true);
    }

    /**
     * The loop of `removeElement`: `removeConnection` on each connection in
     * turn, stopping at the first that throws.
     */
    method UnlinkEach(cs: seq<Connection>, fuel: nat) returns (ok: bool)
      modifies this`elements, this`connections, this`current
      ensures Outcome(State(), ok) == UnlinkAll(old(State()), cs, fuel, true)
      ensures Layout(elements) == Layout(old(elements))
      ensures current == if FirstUnlinks(old(elements), cs) then Some(Blank()) else old(current)
    {
      ghost var start := State();
      ok := true;
      var i := 0;
      while i < |cs| && ok
        invariant 0 <= i <= |cs|
        invariant Outcome(State(), ok) == UnlinkAll(start, cs[..i], fuel, true)
        invariant Layout(elements) == Layout(start.elements)
        invariant current == if 0 < i && FirstUnlinks(start.elements, cs) then Some(Blank()) else old(current)
        invariant 0 < i && !FirstUnlinks(start.elements, cs) ==> !ok
      {
        assert cs[..i + 1][..i] == cs[..i];
        ok := RemoveConnection(cs[i], fuel);
        i := i + 1;
      }
      if !ok {
        UnlinkAllStops(start, cs, i, fuel, true);
      } else {
        assert cs[..i] == cs;
      }
    }

    /**
     * `selectConnection` for a click on a connection's wire: select the
     * first connection with the id, unless it is already the selection; an
     * empty id resets the selection. `ok` is false where the source throws,
     * which leaves `currentConnection` undefined when no connection has the id.
     */
    method SelectConnection(cid: Id) returns (ok: bool)
      modifies this`current
      ensures cid == "" ==> ok && current == Some(Blank().(connectionId := Some("")))
      ensures cid != "" && old(current).None? ==> !ok && current == old(current)
      ensures cid != "" && old(current).Some? && old(current).value.connectionId == Some(cid) ==>
        ok && current == old(current)
      ensures cid != "" && old(current).Some? && old(current).value.connectionId != Some(cid) ==>
        current == GetConnection(connections, cid) && ok == current.Some?
      ensures current.Some? && cid != "" && old(current).Some? ==> current.value.connectionId == Some(cid)
    {
      if cid == "" {
        current := Some(Blank().(connectionId := Some("")));
        return true;
      }
      if current.None? {
        return false;
      }
      if current.value.connectionId == Some(cid) {
        return true;
      }
      current := GetConnection(connections, cid);
      ok := current.Some?;
    }

    /** The remove-connection button: `removeConnection(currentConnection)` when it is defined. */
    method RemoveSelectedConnection(fuel: nat) returns (ok: bool)
      modifies this`elements, this`connections, this`current
      ensures old(current).None? ==> ok && State() == old(State()) && current == old(current)
      ensures old(current).Some? ==>
        Outcome(State(), ok) == Unlink(old(State()), old(current).value, SpliceById(old(connections), old(current).value.connectionId), fuel)
      ensures old(current).Some? ==> current == if ok then Some(Blank()) else old(current)
    {
      if current.None? {
        return true;
      }
      ok := RemoveConnection(current.value, fuel);
    }

    /**
     * `selectConnector` for a click on child `j` (a connector) of element
     * `p`: ignored on a palette demonstration; otherwise the pending
     * connection gets an id if it has none, and `Decide` says what follows.
     * `ok` is false where the source throws.
     */
    method SelectConnector(p: nat, j: nat, fuel: nat) returns (ok: bool)
      requires IsConnectorClick(elements, p, j)
      modifies this`elements, this`connections, this`current, ids
      ensures old(elements)[p].demo ==>
        ok && State() == old(State()) && current == old(current) && ids.counters == old(ids.counters)
      ensures !old(elements)[p].demo && old(current).None? ==>
        !ok && State() == old(State()) && current == old(current) && ids.counters == old(ids.counters)
      ensures !old(elements)[p].demo && old(current).Some? ==>
        var pending := Identify(old(current).value, old(ids.counters));
        var cur := pending.connection;
        match Decide(old(elements), cur, p, j)
        case Start(c) => ok && State() == old(State()) && current == Some(c) && ids.counters == pending.counters
        case Stay => ok && State() == old(State()) && current == Some(cur) && ids.counters == pending.counters
        case Fail => !ok && State() == old(State()) && current == Some(cur) && ids.counters == pending.counters
        case Reject => ok && State() == old(State()) && current == Some(Blank()) && ids.counters == pending.counters
        case Restart =>
          var a := Allocate(pending.counters, "connection");
          ok && State() == old(State()) && ids.counters == a.counters
          && current == Some(Origin(Blank().(connectionId := Some(a.id)), old(elements), p, j))
        case Commit(c) =>
          && ids.counters == pending.counters
          && Wiring(connections) == Wiring(old(connections) + [c])
          && ok == OutputSide(old(elements), c).Some?
          && (ok ==> State() == Cascade(Field(old(elements), old(connections) + [c]), OutputSide(old(elements), c).value, fuel))
          && (!ok ==> State() == Field(old(elements), old(connections) + [c]))
          && current == if ok then Some(Blank()) else Some(c)
    {
      if elements[p].demo {
        return true;
      }
      if current.None? {
        return false;
      }
      var cur := current.value;
      if !Truthy(cur.connectionId) {
        var id := ids.GetId("connection");
        cur := cur.(connectionId := Some(id));
        current := Some(cur);
      }
      var verdict := Decide(elements, cur, p, j);
      match verdict {
        case Start(c) =>
          current := Some(c);
          ok := true;
        case Stay =>
          ok := true;
        case Fail =>
          ok := false;
        case Reject =>
          current := Some(Blank());
          ok := true;
        case Restart =>
          current := Some(Blank());
          var id := ids.GetId("connection");
          current := Some(Origin(Blank().(connectionId := Some(id)), elements, p, j));
          ok := true;
        case Commit(c) =>
          current := Some(c);
          ok := InsertConnection(c, fuel);
          if ok {
            current := Some(Blank());
          }
      }
    }
  
    /**
     * `buildElement` on a new node with this id, code and demonstration
     * flag: the picture, then one child per table entry with an id drawn
     * from that entry's counter; the node is registered under a truthy id
     * not registered yet.
     */
    method BuildElement(id: Id, k: GateKind, demo: bool)
      modifies this`elements, this`registry, ids
      ensures var built := Furnish(old(ids.counters), k, |Additionals(k)|);
        elements == old(elements) + [Element(id, Code(k), demo, false, false, built.children)]
        && ids.counters == built.counters
      ensures registry == if id != "" && id !in old(registry) then old(registry) + [id] else old(registry)
    {
      var table := Additionals(k);
      var children := [Picture];
      var i := 0;
      while i < |table|
        invariant 0 <= i <= |table|
        invariant Furnished(children, ids.counters) == Furnish(old(ids.counters), k, i)
        invariant elements == old(elements) && registry == old(registry)
      {
        FurnishNext(old(ids.counters), k, i);
        var cid := ids.GetId(ChildKey(table[i]));
        children := children + [MakeChild(table[i], cid, i)];
        i := i + 1;
      }
      elements := elements + [Element(id, Code(k), demo, false, false, children)];
      if id != "" && id !in registry {
        registry := registry + [id];
      }
    }

    /**
     * `initializeWindow` on the palette: each palette node whose code has a
     * descriptor gets an id from its counter and is built as a
     * demonstration; the others are left alone.
     */
    method InitializeWindow(codes: seq<string>)
      modifies this`elements, this`registry, ids
      ensures |elements| >= |old(elements)| && elements[..|old(elements)|] == old(elements)
      ensures forall i :: |old(elements)| <= i < |elements| ==>
        elements[i].demo && Describe(elements[i].code).Some?
      ensures |elements| - |old(elements)| == |codes| - |Unknown(codes)|
      ensures Demonstrations(old(elements), elements, Known(codes))
      ensures Contents() == Palette(old(Contents()), codes)
    {
      ghost var start := Contents();
      var i := 0;
      while i < |codes|
        invariant 0 <= i <= |codes|
        invariant Contents() == Palette(start, codes[..i])
      {
        assert codes[..i + 1][..i] == codes[..i];
        assert Palette(start, codes[..i + 1]) == Demonstrate(Palette(start, codes[..i]), codes[i]);
        var placed := PlaceDemo(codes[i]);
        i := i + 1;
      }
      assert codes[..i] == codes;
      PaletteKnownDemos(start, codes, old(elements), elements);
    }

    /**
     * One palette node of `initializeWindow`: when its code has a
     * descriptor it gets an id from its counter and is built as a
     * demonstration.
     */
    method PlaceDemo(code: string) returns (placed: bool)
      modifies this`elements, this`registry, ids
      ensures placed == Describe(code).Some?
      ensures placed ==>
        var a := Allocate(old(ids.counters), code);
        var built := Furnish(a.counters, Describe(code).value, |Additionals(Describe(code).value)|);
        elements == old(elements) + [Element(a.id, code, true, false, false, built.children)]
        && registry == Register(old(registry), a.id) && ids.counters == built.counters
      ensures !placed ==> elements == old(elements) && registry == old(registry) && ids.counters == old(ids.counters)
      ensures Contents() == Demonstrate(old(Contents()), code)
    {
      var kind := Describe(code);
      if kind.None? {
        return false;
      }
      var id := ids.GetId(code);
      BuildElement(id, kind.value, true);
      placed := true;
    }

    /**
     * `handleClickMainField`: deselect, and when a palette entry of kind `k`
     * is pending, place a new element of that kind with an id from its
     * counter.
     */
    method ClickField(insert: Option<GateKind>)
      modifies this`elements, this`registry, this`current, ids
      ensures current == Some(Blank())
      ensures insert.None? ==> elements == old(elements) && registry == old(registry) && ids.counters == old(ids.counters)
      ensures insert.Some? ==>
        var a := Allocate(old(ids.counters), Code(insert.value));
        var built := Furnish(a.counters, insert.value, |Additionals(insert.value)|);
        elements == old(elements) + [Element(a.id, Code(insert.value), false, false, false, built.children)]
        && ids.counters == built.counters && registry == Register(old(registry), a.id)
    {
      current := Some(Blank());
      if insert.Some? {
        var id := ids.GetId(Code(insert.value));
        BuildElement(id, insert.value, false);
      }
    }

    /**
     * `handleSimpleSwitchButtonClick` on the button of element `p`: flip its
     * `active` attribute, then run its `updateOutput` and the cascade.
     */
    method ToggleSwitch(p: nat, fuel: nat) returns (ok: bool)
      requires p < |elements|
      modifies this`elements, this`connections
      ensures var flipped := Field(old(elements)[p := old(elements)[p].(active := !old(elements)[p].active)], old(connections));
        && ok == Describe(old(elements)[p].code).Some?
        && State() == if ok then Cascade(flipped, p, fuel) else flipped
    {
      elements := elements[p := elements[p].(active := !elements[p].active)];
      if Describe(elements[p].code).None? {
        return false;
      }
      Refresh(p, fuel);
      ok := true;
    }

    /**
     * `getCurrentCircuit`: the non-demonstration elements named by the
     * registry keys, in key order, and the connections; `None` where the
     * source throws because a key's element has left the page.
     */
    method GetCurrentCircuit() returns (r: Option<Circuit>)
      ensures r.None? <==> exists i :: 0 <= i < |registry| && ElementById(elements, Some(registry[i])).None?
      ensures r.Some? ==> r.value == Circuit(None, SavedElements(elements, registry), connections)
    {
      var saved := [];
      var i := 0;
      while i < |registry|
        invariant 0 <= i <= |registry|
        invariant Snapshot(elements, registry[..i]) == Some(saved)
      {
        assert registry[..i + 1][..i] == registry[..i];
        var q := ElementById(elements, Some(registry[i]));
        if q.None? {
          assert Snapshot(elements, registry[..i + 1]).None?;
          assert Snapshot(elements, registry).None? by {
            assert registry[..i + 1][i] == registry[i];
          }
          return None;
        }
        if !elements[q.value].demo {
          saved := saved + [SavedElement(elements[q.value].id, elements[q.value].code)];
        }
        i := i + 1;
      }
      assert registry[..i] == registry;
      r := Some(Circuit(None, saved, connections));
    }
  }
}