/**
 * Signal resolution and propagation, as functions of the editor's state:
 * which connectors are energised, how a gate drives the connections on its
 * output connectors, one `updateOutput` step of a placed element, and the
 * cascade of steps that each changed connection sets off downstream.
 */
module Propagation {
  import opened Wrappers
  import opened Predefinitions
  import opened CircuitClasses

  /** A connection touches a connector when either of its connector ends is it. */
  predicate Touches(c: Connection, k: Id)
  {
    c.destinyConnectorId == Some(k) || c.originConnectorId == Some(k)
  }

  /** The state of a connector: some connection touching it is active. */
  ghost predicate Energized(conns: seq<Connection>, k: Id)
  {
    exists j :: 0 <= j < |conns| && Touches(conns[j], k) && conns[j].active
  }

  /** `getConnectorsStates`: one state per connector, in order. */
  ghost function States(conns: seq<Connection>, ks: seq<Id>): seq<bool>
  {
    seq(|ks|, i requires 0 <= i < |ks| => Energized(conns, ks[i]))
  }

  /**
   * `setConnectorConnectionsState(k, b)` on the connection list: exactly the
   * connections touching `k` get `active = b`; all others are unchanged.
   */
  function SetActive(conns: seq<Connection>, k: Id, b: bool): (r: seq<Connection>)
    ensures |r| == |conns|
    ensures forall i :: 0 <= i < |conns| ==>
      r[i] == if Touches(conns[i], k) then conns[i].(active := b) else conns[i]
  {
    if conns == [] then []
    else [if Touches(conns[0], k) then conns[0].(active := b) else conns[0]] + SetActive(conns[1..], k, b)
  }

  /**
   * The ids of the connections whose state `setConnectorConnectionsState(k, _)`
   * writes, in list order: each write fires that connection's change handler.
   */
  function Touched(conns: seq<Connection>, k: Id): seq<Option<Id>>
  {
    if conns == [] then []
    else Touched(conns[..|conns| - 1], k)
         + (if Touches(conns[|conns| - 1], k) then [conns[|conns| - 1].connectionId] else [])
  }

  /** The connection list after driving, and the connections written, in order. */
  datatype Driven = Driven(connections: seq<Connection>, touched: seq<Option<Id>>)

  predicate TouchesAny(c: Connection, ks: seq<Id>)
  {
    exists j :: 0 <= j < |ks| && Touches(c, ks[j])
  }

  /** The connection list once the connectors of `ks` are driven to `b`. */
  function Driving(conns: seq<Connection>, ks: seq<Id>, b: bool): (r: seq<Connection>)
    ensures |r| == |conns|
  {
    if conns == [] then []
    else [if TouchesAny(conns[0], ks) then conns[0].(active := b) else conns[0]] + Driving(conns[1..], ks, b)
  }

  /** The connections written when the connectors of `ks` are driven one after the other. */
  function TouchedAll(conns: seq<Connection>, ks: seq<Id>): seq<Option<Id>>
  {
    if ks == [] then [] else TouchedAll(conns, ks[..|ks| - 1]) + Touched(conns, ks[|ks| - 1])
  }

  /**
   * Driving the output connectors `ks` of a gate to `b`, as
   * `manageLogicGateChanges` and the switch's `updateOutput` do: the new
   * connection list and the connections written, in order.
   */
  function Drive(conns: seq<Connection>, ks: seq<Id>, b: bool): Driven
  {
    Driven(Driving(conns, ks, b), TouchedAll(conns, ks))
  }

  /**
   * Driving a list of connectors: every connection touching one of them gets
   * `active = b`, every other connection is unchanged, and the list keeps its
   * length and order.
   */
  lemma {:induction false} DriveEffect(conns: seq<Connection>, ks: seq<Id>, b: bool)
    ensures |Drive(conns, ks, b).connections| == |conns|
    ensures forall i :: 0 <= i < |conns| ==>
      Drive(conns, ks, b).connections[i] == if TouchesAny(conns[i], ks) then conns[i].(active := b) else conns[i]
    decreases |conns|
  {
    if conns != [] {
      DriveEffect(conns[1..], ks, b);
      var r := Drive(conns, ks, b).connections;
      var t := Drive(conns[1..], ks, b).connections;
      assert r == [if TouchesAny(conns[0], ks) then conns[0].(active := b) else conns[0]] + t;
      forall i | 1 <= i < |conns|
        ensures r[i] == if TouchesAny(conns[i], ks) then conns[i].(active := b) else conns[i]
      {
        assert r[i] == t[i - 1] && conns[1..][i - 1] == conns[i];
      }
    }
  }

  /** Which connections touch `k`, and their ids, decide what `setConnectorConnectionsState(k, _)` writes. */
  lemma {:induction false} TouchedAgree(a: seq<Connection>, c: seq<Connection>, k: Id)
    requires |a| == |c|
    requires forall i :: 0 <= i < |a| ==> Touches(a[i], k) == Touches(c[i], k) && a[i].connectionId == c[i].connectionId
    ensures Touched(a, k) == Touched(c, k)
    decreases |a|
  {
    if a != [] {
      TouchedAgree(a[..|a| - 1], c[..|c| - 1], k);
    }
  }

  /**
   * Driving the connectors one after the other, as the source does, is
   * driving them all at once: `setConnectorConnectionsState` of the next
   * connector on the list the earlier ones left extends both the connection
   * list and the connections written.
   */
  lemma DriveNext(conns: seq<Connection>, ks: seq<Id>, k: Id, b: bool)
    ensures var d := Drive(conns, ks, b);
      Drive(conns, ks + [k], b) == Driven(SetActive(d.connections, k, b), d.touched + Touched(d.connections, k))
  {
    var ks' := ks + [k];
    assert ks'[..|ks'| - 1] == ks;
    DriveEffect(conns, ks, b);
    DriveEffect(conns, ks', b);
    var d := Drive(conns, ks, b).connections;
    var r := Drive(conns, ks', b).connections;
    forall i | 0 <= i < |conns|
      ensures r[i] == SetActive(d, k, b)[i]
    {
      TouchesAnySplit(conns[i], ks');
    }
    assert r == SetActive(d, k, b);
    TouchedAgree(d, conns, k);
    assert Drive(conns, ks', b).touched == Drive(conns, ks, b).touched + Touched(d, k);
  }

  /** A connection touches one of `ks` iff it touches one of all but the last, or the last. */
  lemma TouchesAnySplit(c: Connection, ks: seq<Id>)
    requires ks != []
    ensures TouchesAny(c, ks) <==> TouchesAny(c, ks[..|ks| - 1]) || Touches(c, ks[|ks| - 1])
  {
    var init := ks[..|ks| - 1];
    if TouchesAny(c, init) {
      var j :| 0 <= j < |init| && Touches(c, init[j]);
      assert ks[j] == init[j];
    }
    if TouchesAny(c, ks) && !Touches(c, ks[|ks| - 1]) {
      var j :| 0 <= j < |ks| && Touches(c, ks[j]);
      assert j < |ks| - 1 && init[j] == ks[j];
    }
  }

  /** The index of the first connection with the given id, if any. */
  function ConnectionIndex(conns: seq<Connection>, cid: Id): (r: Option<nat>)
    ensures r.None? <==> forall i :: 0 <= i < |conns| ==> conns[i].connectionId != Some(cid)
    ensures r.Some? ==> r.value < |conns| && conns[r.value].connectionId == Some(cid)
                          && forall j :: 0 <= j < r.value ==> conns[j].connectionId != Some(cid)
  {
    if conns == [] then None
    else if conns[0].connectionId == Some(cid) then Some(0)
    else
      var r := ConnectionIndex(conns[1..], cid);
      assert forall i :: 1 <= i < |conns| ==> conns[i] == conns[1..][i - 1];
      if r.Some? then Some(r.value + 1) else None
  }

  /** `getConnection(id)`: the first connection with that id, if any. */
  function GetConnection(conns: seq<Connection>, cid: Id): Option<Connection>
  {
    match ConnectionIndex(conns, cid)
    case None => None
    case Some(i) => Some(conns[i])
  }

  /** A node with this id is a child of the element (the picture has no id). */
  predicate HasChild(e: Element, x: Id)
  {
    exists c :: c in e.children && !c.Picture? && c.id == x
  }

  /**
   * `document.getElementById(x).parentElement` for a connector id: the first
   * element, in document order, with a child of that id.
   */
  function OwnerIndex(els: seq<Element>, x: Id): (r: Option<nat>)
    ensures r.None? <==> forall i :: 0 <= i < |els| ==> !HasChild(els[i], x)
    ensures r.Some? ==> r.value < |els| && HasChild(els[r.value], x)
                          && forall j :: 0 <= j < r.value ==> !HasChild(els[j], x)
  {
    if els == [] then None
    else if HasChild(els[0], x) then Some(0)
    else
      var r := OwnerIndex(els[1..], x);
      assert forall i :: 1 <= i < |els| ==> els[i] == els[1..][i - 1];
      if r.Some? then Some(r.value + 1) else None
  }

  /** `document.getElementById(x)` for an element id: the first element with it. */
  function ElementIndex(els: seq<Element>, x: Id): (r: Option<nat>)
    ensures r.None? <==> forall i :: 0 <= i < |els| ==> els[i].id != x
    ensures r.Some? ==> r.value < |els| && els[r.value].id == x
                          && forall j :: 0 <= j < r.value ==> els[j].id != x
  {
    if els == [] then None
    else if els[0].id == x then Some(0)
    else
      var r := ElementIndex(els[1..], x);
      assert forall i :: 1 <= i < |els| ==> els[i] == els[1..][i - 1];
      if r.Some? then Some(r.value + 1) else None
  }

  /** The element holds a lamp light among its children. */
  predicate HasLight(e: Element)
  {
    exists c :: c in e.children && c.Light?
  }

  /**
   * The element whose light `document.querySelector('#' + x + ' .lamp-light')`
   * finds: the first in document order with id `x` that holds a light.
   * None when there is none, or when `x` is empty and the selector is
   * malformed; the source throws in both cases.
   */
  function LightIndex(els: seq<Element>, x: Id): (r: Option<nat>)
    ensures r.None? <==> x == "" || forall i :: 0 <= i < |els| ==> !(els[i].id == x && HasLight(els[i]))
    ensures r.Some? ==> r.value < |els| && els[r.value].id == x && HasLight(els[r.value])
                          && forall j :: 0 <= j < r.value ==> !(els[j].id == x && HasLight(els[j]))
  {
    if x == "" || els == [] then None
    else if els[0].id == x && HasLight(els[0]) then Some(0)
    else
      var r := LightIndex(els[1..], x);
      assert forall i :: 1 <= i < |els| ==> els[i] == els[1..][i - 1];
      if r.Some? then Some(r.value + 1) else None
  }

  /** The part of the editor's state the simulation reads and writes. */
  datatype Field = Field(elements: seq<Element>, connections: seq<Connection>)

  /** The state after one `updateOutput`, and the connections it wrote. */
  datatype Stepped = Stepped(field: Field, touched: seq<Option<Id>>)

  /**
   * `descriptor.updateOutput(element)` for the element at index `i`:
   *  - a logic gate (`manageLogicGateChanges`): with at least one input
   *    connector, evaluate the input states and drive every output connector;
   *  - the simple switch: drive every output connector with its `active` flag;
   *  - the lamp: set the light found by its id (`LightIndex`) iff the state
   *    of its first input connector is true; with no such light it throws.
   * An unknown code or a connector index outside the table makes the source
   * throw before anything changes; here nothing changes.
   */
  ghost function Step(f: Field, i: nat): Stepped
  {
    if i >= |f.elements| then Stepped(f, [])
    else
      var e := f.elements[i];
      match Describe(e.code)
      case None => Stepped(f, [])
      case Some(k) =>
        if !Indexed(k, e.children) then Stepped(f, [])
        else if IsLogic(k) then
          var ins := InputConnectors(k, e.children);
          if |ins| == 0 then Stepped(f, [])
          else
            var r := Evaluate(k, States(f.connections, IdsOf(ins)));
            var d := Drive(f.connections, IdsOf(OutputConnectors(k, e.children)), r);
            Stepped(Field(f.elements, d.connections), d.touched)
        else if k == SimpleSwitch then
          var d := Drive(f.connections, IdsOf(OutputConnectors(k, e.children)), e.active);
          Stepped(Field(f.elements, d.connections), d.touched)
        else
          var states := States(f.connections, IdsOf(InputConnectors(k, e.children)));
          match LightIndex(f.elements, e.id)
          case None => Stepped(f, [])
          case Some(q) => Stepped(Field(f.elements[q := f.elements[q].(lit := |states| > 0 && states[0])], f.connections), [])
  }

  /**
   * `updateOutput` of element `i` followed by the change handler of every
   * connection it wrote (depth first). `fuel` bounds the depth of the
   * cascade, which the source leaves unbounded: a handler with no fuel
   * left re-runs nothing.
   */
  ghost function Cascade(f: Field, i: nat, fuel: nat): Field
    decreases fuel, 4, 0
  {
    var s := Step(f, i);
    NotifyAll(s.field, s.touched, fuel)
  }

  /** The change handlers of a list of written connections, in order. */
  ghost function NotifyAll(f: Field, ts: seq<Option<Id>>, fuel: nat): Field
    decreases fuel, 3, |ts|
  {
    if ts == [] then f else NotifyAll(Notify(f, ts[0], fuel), ts[1..], fuel)
  }

  /** A cascade is the update's own effect followed by the handlers of what it wrote. */
  lemma CascadeOfStep(f: Field, i: nat, fuel: nat, s: Stepped)
    requires s == Step(f, i)
    ensures Cascade(f, i, fuel) == NotifyAll(s.field, s.touched, fuel)
  {
  }

  /** Running the handlers from position `j` on is running the one at `j`, then the rest. */
  lemma NotifyAllStep(f: Field, ts: seq<Option<Id>>, j: nat, fuel: nat)
    requires j < |ts|
    ensures NotifyAll(f, ts[j..], fuel) == NotifyAll(Notify(f, ts[j], fuel), ts[j + 1..], fuel)
  {
    assert ts[j..][0] == ts[j] && ts[j..][1..] == ts[j + 1..];
  }

  /**
   * The element whose `updateOutput` the change handler of connection `t`
   * re-runs: the owner (`parentElement`) of the connection's
   * `inputConnectorId`. `None` where the source would throw: no such
   * connection, no input connector id, no element owning it.
   */
  function Listener(f: Field, t: Option<Id>): (r: Option<nat>)
    ensures r.Some? <==> t.Some? && GetConnection(f.connections, t.value).Some?
                         && GetConnection(f.connections, t.value).value.inputConnectorId.Some?
                         && OwnerIndex(f.elements, GetConnection(f.connections, t.value).value.inputConnectorId.value).Some?
    ensures r.Some? ==> r.value < |f.elements|
                        && HasChild(f.elements[r.value], GetConnection(f.connections, t.value).value.inputConnectorId.value)
  {
    if t.None? then None
    else
      match GetConnection(f.connections, t.value)
      case None => None
      case Some(c) => if c.inputConnectorId.None? then None else OwnerIndex(f.elements, c.inputConnectorId.value)
  }

  /**
   * `handleConnectionElectricChange`: re-run the listener of connection
   * `t`. Where the source would throw inside the handler, and where no
   * fuel is left, the handler does nothing.
   */
  ghost function Notify(f: Field, t: Option<Id>, fuel: nat): Field
    decreases fuel, 2, 0
  {
    match Listener(f, t)
    case None => f
    case Some(j) => if fuel == 0 then f else Cascade(f, j, fuel - 1)
  }

  /**
   * `manageLogicGateChanges`: with no input connector nothing changes;
   * otherwise every connection touching an output connector gets the
   * evaluator's verdict on the input states, and every other connection
   * and every element is unchanged.
   */
  lemma LogicGateStep(f: Field, i: nat, k: GateKind)
    requires i < |f.elements| && Describe(f.elements[i].code) == Some(k) && IsLogic(k)
    requires Indexed(k, f.elements[i].children)
    ensures |InputConnectors(k, f.elements[i].children)| == 0 ==> Step(f, i) == Stepped(f, [])
    ensures |InputConnectors(k, f.elements[i].children)| > 0 ==>
      var r := Evaluate(k, States(f.connections, IdsOf(InputConnectors(k, f.elements[i].children))));
      var outs := IdsOf(OutputConnectors(k, f.elements[i].children));
      var g := Step(f, i).field;
      && g.elements == f.elements
      && |g.connections| == |f.connections|
      && forall j :: 0 <= j < |f.connections| ==>
           g.connections[j] == if TouchesAny(f.connections[j], outs) then f.connections[j].(active := r)
                               else f.connections[j]
  {
    var e := f.elements[i];
    var ins := InputConnectors(k, e.children);
    if |ins| > 0 {
      var r := Evaluate(k, States(f.connections, IdsOf(ins)));
      DriveEffect(f.connections, IdsOf(OutputConnectors(k, e.children)), r);
    }
  }

  /**
   * The simple switch's `updateOutput`: every connection touching one of
   * its output connectors gets the switch's `active` flag; nothing else
   * changes.
   */
  lemma SwitchStep(f: Field, i: nat)
    requires i < |f.elements| && Describe(f.elements[i].code) == Some(SimpleSwitch)
    requires Indexed(SimpleSwitch, f.elements[i].children)
    ensures
      var outs := IdsOf(OutputConnectors(SimpleSwitch, f.elements[i].children));
      var g := Step(f, i).field;
      && g.elements == f.elements
      && |g.connections| == |f.connections|
      && forall j :: 0 <= j < |f.connections| ==>
           g.connections[j] == if TouchesAny(f.connections[j], outs) then f.connections[j].(active := f.elements[i].active)
                               else f.connections[j]
  {
    DriveEffect(f.connections, IdsOf(OutputConnectors(SimpleSwitch, f.elements[i].children)), f.elements[i].active);
  }

  /**
   * The lamp's `updateOutput`: the light found by the lamp's id is lit iff
   * the lamp's first input connector is energised, which it is not when no
   * connection touches it. That light belongs to the first element with the
   * lamp's id that holds one, so to the lamp itself or to an earlier
   * element sharing its id. No connection and no other element changes,
   * and nothing is set off; without such a light nothing changes at all.
   */
  lemma LampStep(f: Field, i: nat)
    requires i < |f.elements| && Describe(f.elements[i].code) == Some(Lamp)
    requires Indexed(Lamp, f.elements[i].children)
    ensures
      var ins := InputConnectors(Lamp, f.elements[i].children);
      var s := Step(f, i);
      var q := LightIndex(f.elements, f.elements[i].id);
      && s.touched == []
      && s.field.connections == f.connections
      && |s.field.elements| == |f.elements|
      && (q.None? ==> s.field == f)
      && (q.Some? ==>
            && (forall j :: 0 <= j < |f.elements| && j != q.value ==> s.field.elements[j] == f.elements[j])
            && s.field.elements[q.value] == f.elements[q.value].(lit := s.field.elements[q.value].lit)
            && (s.field.elements[q.value].lit <==> |ins| > 0 && Energized(f.connections, IdOf(ins[0])))
            && (|ins| > 0 && (forall j :: 0 <= j < |f.connections| ==> !Touches(f.connections[j], IdOf(ins[0])))
                ==> !s.field.elements[q.value].lit)
            && f.elements[q.value].id == f.elements[i].id
            && (HasLight(f.elements[i]) ==> q.value <= i))
  {
  }

  /** A lamp with a non-empty id that no earlier light-holding element shares lights itself. */
  lemma LampLightsItself(els: seq<Element>, i: nat)
    requires i < |els| && els[i].id != "" && HasLight(els[i])
    requires forall j :: 0 <= j < i ==> els[j].id != els[i].id
    ensures LightIndex(els, els[i].id) == Some(i)
  {
  }

  /** The connection list with every `active` flag cleared: what a cascade must not change. */
  function Wiring(conns: seq<Connection>): seq<Connection>
  {
    seq(|conns|, i requires 0 <= i < |conns| => conns[i].(active := false))
  }

  /** The element list with every lamp state cleared. */
  function Layout(els: seq<Element>): seq<Element>
  {
    seq(|els|, i requires 0 <= i < |els| => els[i].(lit := false))
  }

  /** Driving changes `active` flags only. */
  lemma DriveKeepsWiring(conns: seq<Connection>, ks: seq<Id>, b: bool)
    ensures Wiring(Drive(conns, ks, b).connections) == Wiring(conns)
  {
    DriveEffect(conns, ks, b);
  }

  /** One `updateOutput` changes `active` flags and lamp states only. */
  lemma StepKeepsWiring(f: Field, i: nat)
    ensures Wiring(Step(f, i).field.connections) == Wiring(f.connections)
    ensures Layout(Step(f, i).field.elements) == Layout(f.elements)
  {
    if i < |f.elements| && Describe(f.elements[i].code).Some? {
      var e := f.elements[i];
      var k := Describe(e.code).value;
      if Indexed(k, e.children) {
        if IsLogic(k) {
          var ins := InputConnectors(k, e.children);
          if |ins| > 0 {
            DriveKeepsWiring(f.connections, IdsOf(OutputConnectors(k, e.children)),
                             Evaluate(k, States(f.connections, IdsOf(ins))));
          }
        } else if k == SimpleSwitch {
          DriveKeepsWiring(f.connections, IdsOf(OutputConnectors(k, e.children)), e.active);
        }
      }
    }
  }

  /**
   * A whole cascade, however deep, changes only `active` flags and lamp
   * states: no connection is added, removed, reordered or rewired, and no
   * element is added, removed or rebuilt.
   */
  lemma {:induction false} CascadeKeepsWiring(f: Field, i: nat, fuel: nat)
    ensures Wiring(Cascade(f, i, fuel).connections) == Wiring(f.connections)
    ensures Layout(Cascade(f, i, fuel).elements) == Layout(f.elements)
    decreases fuel, 4, 0
  {
    StepKeepsWiring(f, i);
    var s := Step(f, i);
    NotifyAllKeepsWiring(s.field, s.touched, fuel);
  }

  lemma {:induction false} NotifyAllKeepsWiring(f: Field, ts: seq<Option<Id>>, fuel: nat)
    ensures Wiring(NotifyAll(f, ts, fuel).connections) == Wiring(f.connections)
    ensures Layout(NotifyAll(f, ts, fuel).elements) == Layout(f.elements)
    decreases fuel, 3, |ts|
  {
    if ts != [] {
      NotifyKeepsWiring(f, ts[0], fuel);
      NotifyAllKeepsWiring(Notify(f, ts[0], fuel), ts[1..], fuel);
    }
  }

  lemma {:induction false} NotifyKeepsWiring(f: Field, t: Option<Id>, fuel: nat)
    ensures Wiring(Notify(f, t, fuel).connections) == Wiring(f.connections)
    ensures Layout(Notify(f, t, fuel).elements) == Layout(f.elements)
    decreases fuel, 2, 0
  {
    var j := Listener(f, t);
    if j.Some? && fuel > 0 {
      assert Notify(f, t, fuel) == Cascade(f, j.value, fuel - 1);
      CascadeKeepsWiring(f, j.value, fuel - 1);
    } else {
      assert Notify(f, t, fuel) == f;
    }
  }

  /** Equal wiring means equal length and equal everything but `active`, entry by entry. */
  lemma WiringAt(a: seq<Connection>, b: seq<Connection>)
    requires Wiring(a) == Wiring(b)
    ensures |a| == |b|
    ensures forall i :: 0 <= i < |a| ==> a[i].(active := false) == b[i].(active := false)
  {
    assert |Wiring(a)| == |a| && |Wiring(b)| == |b|;
    forall i | 0 <= i < |a|
      ensures a[i].(active := false) == b[i].(active := false)
    {
      assert Wiring(a)[i] == Wiring(b)[i];
    }
  }
}
