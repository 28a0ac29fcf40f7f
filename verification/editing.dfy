/**
 * The connection bookkeeping of the editor as functions of its state:
 * which element an inserted or removed connection re-runs, how the
 * connection list is spliced, the cascade removal of an element, and the
 * decision the two-click connector selection takes.
 */
module Editing {
  import opened Wrappers
  import opened Predefinitions
  import opened Ids
  import opened CircuitClasses
  import opened Propagation

  /** JavaScript truthiness of an optional string: present and not empty. */
  predicate Truthy(o: Option<Id>)
  {
    o.Some? && o.value != ""
  }

  /** `getElementById` of a connector id: the owning element, none for an undefined or empty id. */
  function ConnectorOwner(els: seq<Element>, o: Option<Id>): (r: Option<nat>)
    ensures r.Some? ==> r.value < |els| && o.Some? && HasChild(els[r.value], o.value)
  {
    if o.None? || o.value == "" then None else OwnerIndex(els, o.value)
  }

  /** `getElementById` of an element id: the first element with it, none for an undefined or empty id. */
  function ElementById(els: seq<Element>, o: Option<Id>): (r: Option<nat>)
    ensures r.Some? ==> r.value < |els| && o == Some(els[r.value].id)
    ensures o.Some? && o.value != "" && (exists i :: 0 <= i < |els| && els[i].id == o.value) ==> r.Some?
  {
    if o.None? || o.value == "" then None else ElementIndex(els, o.value)
  }

  /** The element at index `i` exists and has a descriptor, so `updateOutput` can be called on it. */
  predicate Updatable(els: seq<Element>, i: nat)
  {
    i < |els| && Describe(els[i].code).Some?
  }

  /**
   * `buildConnection` after the push: both ends are drawn (both connector
   * ids must resolve), then the element at the end that is not the input
   * connector's owner is re-run. `None` where the source throws.
   */
  function OutputSide(els: seq<Element>, c: Connection): (r: Option<nat>)
    ensures r.Some? ==> Updatable(els, r.value)
    ensures r.Some? ==> ConnectorOwner(els, c.originConnectorId).Some? && ConnectorOwner(els, c.destinyConnectorId).Some?
  {
    if ConnectorOwner(els, c.originConnectorId).None? || ConnectorOwner(els, c.destinyConnectorId).None? then None
    else
      match ConnectorOwner(els, c.inputConnectorId)
      case None => None
      case Some(p) =>
        var other := if c.originId == Some(els[p].id) then c.destinyId else c.originId;
        match ElementById(els, other)
        case None => None
        case Some(q) => if Updatable(els, q) then Some(q) else None
  }

  /**
   * `removeConnection` after the splice: the element found by the id of the
   * input connector's owner is re-run. `None` where the source throws.
   */
  function InputSide(els: seq<Element>, c: Connection): (r: Option<nat>)
    ensures r.Some? ==> Updatable(els, r.value)
    ensures r.Some? ==> exists p :: 0 <= p < |els| && c.inputConnectorId.Some? && HasChild(els[p], c.inputConnectorId.value)
                                    && els[p].id == els[r.value].id
  {
    match ConnectorOwner(els, c.inputConnectorId)
    case None => None
    case Some(p) =>
      match ElementById(els, Some(els[p].id))
      case None => None
      case Some(q) => if Updatable(els, q) then Some(q) else None
  }

  /** The index the `filter` callback of `removeConnection` leaves behind: the last match. */
  function LastIndexOf(conns: seq<Connection>, cid: Option<Id>): (r: Option<nat>)
    ensures r.None? <==> forall i :: 0 <= i < |conns| ==> conns[i].connectionId != cid
    ensures r.Some? ==> r.value < |conns| && conns[r.value].connectionId == cid
                          && forall j :: r.value < j < |conns| ==> conns[j].connectionId != cid
  {
    if conns == [] then None
    else if conns[|conns| - 1].connectionId == cid then Some(|conns| - 1)
    else LastIndexOf(conns[..|conns| - 1], cid)
  }

  /** `s[..i] + s[i + 1..]` for an index of `s`. */
  function Delete<T>(s: seq<T>, i: nat): (r: seq<T>)
    requires i < |s|
    ensures |r| == |s| - 1
    ensures forall j :: 0 <= j < i ==> r[j] == s[j]
    ensures forall j :: i <= j < |r| ==> r[j] == s[j + 1]
  {
    s[..i] + s[i + 1..]
  }

  /**
   * `connections.splice(_connectionIndex, 1)` as written: the last entry
   * with the id goes; when there is none the index stays -1, and the
   * splice removes the last entry of the list instead.
   */
  function SpliceById(conns: seq<Connection>, cid: Option<Id>): (r: seq<Connection>)
    ensures |r| == if conns == [] then 0 else |conns| - 1
    ensures forall x :: x in r ==> x in conns
    ensures LastIndexOf(conns, cid).Some? ==> r == Delete(conns, LastIndexOf(conns, cid).value)
    ensures LastIndexOf(conns, cid).None? ==> r == conns[..|r|]
  {
    match LastIndexOf(conns, cid)
    case Some(i) => Delete(conns, i)
    case None => if conns == [] then conns else conns[..|conns| - 1]
  }

  /** The removal evidently intended: the last entry with the id goes, and an absent id removes nothing. */
  function Without(conns: seq<Connection>, cid: Option<Id>): (r: seq<Connection>)
    ensures forall x :: x in r ==> x in conns
    ensures LastIndexOf(conns, cid).Some? ==> r == Delete(conns, LastIndexOf(conns, cid).value)
    ensures LastIndexOf(conns, cid).None? ==> r == conns
  {
    match LastIndexOf(conns, cid)
    case Some(i) => Delete(conns, i)
    case None => conns
  }

  /** An operation's final state and whether it ran to the end without throwing. */
  datatype Outcome = Outcome(field: Field, ok: bool)

  /**
   * `removeConnection(c)` once the list has been spliced down to
   * `remaining`: re-run the input side, or stop there if the source throws.
   */
  ghost function Unlink(f: Field, c: Connection, remaining: seq<Connection>, fuel: nat): Outcome
  {
    var g := Field(f.elements, remaining);
    match InputSide(f.elements, c)
    case None => Outcome(g, false)
    case Some(q) => Outcome(Cascade(g, q, fuel), true)
  }

  /**
   * `removeConnection` on each connection of `cs` in turn, stopping at the
   * first that throws; `asWritten` picks the source's splice or the
   * intended removal.
   */
  ghost function UnlinkAll(f: Field, cs: seq<Connection>, fuel: nat, asWritten: bool): Outcome
  {
    if cs == [] then Outcome(f, true)
    else
      var o := UnlinkAll(f, cs[..|cs| - 1], fuel, asWritten);
      if !o.ok then o
      else
        var c := cs[|cs| - 1];
        var remaining := if asWritten then SpliceById(o.field.connections, c.connectionId)
                         else Without(o.field.connections, c.connectionId);
        Unlink(o.field, c, remaining, fuel)
  }

  /** Once a `removeConnection` throws, the rest of the list is never reached. */
  lemma {:induction false} UnlinkAllStops(f: Field, cs: seq<Connection>, n: nat, fuel: nat, asWritten: bool)
    requires n <= |cs| && !UnlinkAll(f, cs[..n], fuel, asWritten).ok
    ensures UnlinkAll(f, cs, fuel, asWritten) == UnlinkAll(f, cs[..n], fuel, asWritten)
    decreases |cs|
  {
    if n < |cs| {
      assert cs[..|cs| - 1][..n] == cs[..n];
      UnlinkAllStops(f, cs[..|cs| - 1], n, fuel, asWritten);
    } else {
      assert cs[..n] == cs;
    }
  }

  /** A connection with this element at its origin or destiny end. */
  predicate Involves(c: Connection, eid: Id)
  {
    c.originId == Some(eid) || c.destinyId == Some(eid)
  }

  /** The first `filter` of `removeElement`: the connections involving the element, in order. */
  function Associated(conns: seq<Connection>, eid: Id): (r: seq<Connection>)
    ensures forall c :: c in r <==> c in conns && Involves(c, eid)
    ensures |r| <= |conns|
  {
    if conns == [] then []
    else (if Involves(conns[0], eid) then [conns[0]] else []) + Associated(conns[1..], eid)
  }

  /** The second `filter` of `removeElement`: the connections not involving the element, in order. */
  function Kept(conns: seq<Connection>, eid: Id): (r: seq<Connection>)
    ensures forall c :: c in r <==> c in conns && !Involves(c, eid)
    ensures |r| <= |conns|
  {
    if conns == [] then []
    else (if Involves(conns[0], eid) then [] else [conns[0]]) + Kept(conns[1..], eid)
  }

  /** `element.remove()`: the node at index `p` leaves the page. */
  function Drop(els: seq<Element>, p: nat): (r: seq<Element>)
    ensures p < |els| ==> r == Delete(els, p)
    ensures p >= |els| ==> r == els
  {
    if p < |els| then Delete(els, p) else els
  }

  /**
   * `removeElement` of the element at index `p`: keep the connections not
   * involving it, run `removeConnection` on each associated one, then take
   * the element off the page if nothing threw.
   */
  ghost function Removal(f: Field, p: nat, fuel: nat, asWritten: bool): Outcome
    requires p < |f.elements|
  {
    var eid := f.elements[p].id;
    var o := UnlinkAll(Field(f.elements, Kept(f.connections, eid)), Associated(f.connections, eid), fuel, asWritten);
    if o.ok then Outcome(Field(Drop(o.field.elements, p), o.field.connections), true) else o
  }

  /** Every connection in `b` is, up to its `active` flag, one of `a`. */
  predicate WiredFrom(b: seq<Connection>, a: seq<Connection>)
  {
    forall x :: x in Wiring(b) ==> x in Wiring(a)
  }

  /** Taking connections out of a list keeps the rest wired as they were. */
  lemma SublistWiredFrom(b: seq<Connection>, a: seq<Connection>)
    requires forall x :: x in b ==> x in a
    ensures WiredFrom(b, a)
  {
    forall x | x in Wiring(b)
      ensures x in Wiring(a)
    {
      var j :| 0 <= j < |b| && Wiring(b)[j] == x;
      assert b[j] in a;
      var i :| 0 <= i < |a| && a[i] == b[j];
      assert Wiring(a)[i] == x;
    }
  }

  /** A cascade after a removal only rewrites flags: what survives was wired before. */
  lemma UnlinkWiredFrom(f: Field, c: Connection, remaining: seq<Connection>, fuel: nat)
    requires forall x :: x in remaining ==> x in f.connections
    ensures WiredFrom(Unlink(f, c, remaining, fuel).field.connections, f.connections)
    ensures |Unlink(f, c, remaining, fuel).field.connections| == |remaining|
    ensures Layout(Unlink(f, c, remaining, fuel).field.elements) == Layout(f.elements)
  {
    var o := Unlink(f, c, remaining, fuel);
    if o.ok {
      CascadeKeepsWiring(Field(f.elements, remaining), InputSide(f.elements, c).value, fuel);
    }
    assert Wiring(o.field.connections) == Wiring(remaining);
    assert |Wiring(o.field.connections)| == |o.field.connections|;
    SublistWiredFrom(remaining, f.connections);
  }

  /**
   * Unlinking a list of connections never adds or rewires one, never moves
   * an element, and, as written, takes one entry off the list per call
   * while the list is not empty.
   */
  lemma {:induction false} UnlinkAllShape(f: Field, cs: seq<Connection>, fuel: nat, asWritten: bool)
    ensures WiredFrom(UnlinkAll(f, cs, fuel, asWritten).field.connections, f.connections)
    ensures Layout(UnlinkAll(f, cs, fuel, asWritten).field.elements) == Layout(f.elements)
    ensures asWritten && UnlinkAll(f, cs, fuel, asWritten).ok ==>
      |UnlinkAll(f, cs, fuel, asWritten).field.connections| == if |cs| <= |f.connections| then |f.connections| - |cs| else 0
    decreases |cs|
  {
    if cs != [] {
      var o := UnlinkAll(f, cs[..|cs| - 1], fuel, asWritten);
      UnlinkAllShape(f, cs[..|cs| - 1], fuel, asWritten);
      if o.ok {
        var c := cs[|cs| - 1];
        var remaining := if asWritten then SpliceById(o.field.connections, c.connectionId)
                         else Without(o.field.connections, c.connectionId);
        UnlinkWiredFrom(o.field, c, remaining, fuel);
      }
    }
  }

  /** After `removeElement`, no connection has the removed element at either end, whether or not it threw. */
  lemma RemovalDisconnects(f: Field, p: nat, fuel: nat, asWritten: bool)
    requires p < |f.elements|
    ensures forall j :: 0 <= j < |Removal(f, p, fuel, asWritten).field.connections| ==>
      !Involves(Removal(f, p, fuel, asWritten).field.connections[j], f.elements[p].id)
  {
    var eid := f.elements[p].id;
    var start := Field(f.elements, Kept(f.connections, eid));
    UnlinkAllShape(start, Associated(f.connections, eid), fuel, asWritten);
    var r := Removal(f, p, fuel, asWritten).field.connections;
    forall j | 0 <= j < |r|
      ensures !Involves(r[j], eid)
    {
      assert Wiring(r)[j] in Wiring(start.connections);
      var i :| 0 <= i < |start.connections| && Wiring(start.connections)[i] == Wiring(r)[j];
      assert start.connections[i] in Kept(f.connections, eid);
    }
  }

  /**
   * As written, a completed `removeElement` leaves one connection fewer
   * than the untouched ones per associated connection (none left when
   * there are more associated than untouched ones): each `removeConnection`
   * call finds nothing and splices off the last entry.
   */
  lemma RemovalCount(f: Field, p: nat, fuel: nat)
    requires p < |f.elements|
    ensures var eid := f.elements[p].id;
      var kept := |Kept(f.connections, eid)|;
      var associated := |Associated(f.connections, eid)|;
      Removal(f, p, fuel, true).ok ==>
        |Removal(f, p, fuel, true).field.connections| == if associated <= kept then kept - associated else 0
  {
    var eid := f.elements[p].id;
    UnlinkAllShape(Field(f.elements, Kept(f.connections, eid)), Associated(f.connections, eid), fuel, true);
  }

  /**
   * With the intended removal, unlinking connections whose ids are not in
   * the list leaves every connection of the list in place, wired as before.
   */
  lemma {:induction false} UnlinkAllAbsent(f: Field, cs: seq<Connection>, fuel: nat)
    requires forall i, j :: 0 <= i < |cs| && 0 <= j < |f.connections| ==> cs[i].connectionId != f.connections[j].connectionId
    ensures UnlinkAll(f, cs, fuel, false).ok ==> Wiring(UnlinkAll(f, cs, fuel, false).field.connections) == Wiring(f.connections)
    decreases |cs|
  {
    if cs != [] {
      var o := UnlinkAll(f, cs[..|cs| - 1], fuel, false);
      UnlinkAllAbsent(f, cs[..|cs| - 1], fuel);
      if o.ok {
        var c := cs[|cs| - 1];
        WiringAt(o.field.connections, f.connections);
        assert forall k :: 0 <= k < |o.field.connections| ==> o.field.connections[k].connectionId == f.connections[k].connectionId;
        assert Without(o.field.connections, c.connectionId) == o.field.connections;
        var r := Unlink(o.field, c, o.field.connections, fuel);
        if r.ok {
          CascadeKeepsWiring(o.field, InputSide(o.field.elements, c).value, fuel);
        }
      }
    }
  }

  /**
   * The intended `removeElement`: when connection ids are distinct, exactly
   * the connections not involving the element survive, in order and wired
   * as before.
   */
  lemma IntendedRemovalKeepsOthers(f: Field, p: nat, fuel: nat)
    requires p < |f.elements|
    requires forall i, j :: 0 <= i < j < |f.connections| ==> f.connections[i].connectionId != f.connections[j].connectionId
    ensures Removal(f, p, fuel, false).ok ==>
      Wiring(Removal(f, p, fuel, false).field.connections) == Wiring(Kept(f.connections, f.elements[p].id))
  {
    var eid := f.elements[p].id;
    var kept := Kept(f.connections, eid);
    var associated := Associated(f.connections, eid);
    forall i, j | 0 <= i < |associated| && 0 <= j < |kept|
      ensures associated[i].connectionId != kept[j].connectionId
    {
      assert associated[i] in f.connections && kept[j] in f.connections;
      var m :| 0 <= m < |f.connections| && f.connections[m] == associated[i];
      var n :| 0 <= n < |f.connections| && f.connections[n] == kept[j];
      assert Involves(f.connections[m], eid) && !Involves(f.connections[n], eid);
    }
    UnlinkAllAbsent(Field(f.elements, kept), associated, fuel);
  }

  /** The lamp `l` of the removal example, wired through its connector `c1`. */
  const RemovedLamp := Element("l", "lamp", false, false, false, [Picture, Connector("c1", 0), Light("ll")])
  /** The switch `s` of the removal example, with its output connector `c2`. */
  const KeptSwitch := Element("s", "simple-switch", false, false, false, [Picture, Button("b"), Connector("c2", 1)])
  /** The wire from `s` to the lamp. */
  const LampWire := Connection(Some("w1"), Some("s"), Some("c2"), Some(1), Some("l"), Some("c1"), Some("c1"), Some(0), false)
  /** The wire from `s` to another element `m`. */
  const OtherWire := Connection(Some("w2"), Some("s"), Some("c2"), Some(1), Some("m"), Some("c3"), Some("c3"), Some(0), false)

  /**
   * As written, `removeConnection(w1)` on a page whose list holds only
   * `w2` finds no `w1`, splices `w2` away instead, and completes.
   */
  lemma UnlinkSplicesOther()
    ensures var o := UnlinkAll(Field([RemovedLamp, KeptSwitch], [OtherWire]), [LampWire], 0, true);
      o.ok && o.field.connections == [] && |o.field.elements| == 2
  {
    var els := [RemovedLamp, KeptSwitch];
    assert LastIndexOf([OtherWire], Some("w1")).None?;
    assert SpliceById([OtherWire], Some("w1")) == [];
    assert HasChild(RemovedLamp, "c1") by {
      assert RemovedLamp.children[1] == Connector("c1", 0);
    }
    assert OwnerIndex(els, "c1") == Some(0);
    assert ElementIndex(els, "l") == Some(0);
    assert Describe("lamp") == Some(Lamp);
    assert InputSide(els, LampWire) == Some(0);
    var g := Field(els, []);
    var h := Cascade(g, 0, 0);
    CascadeKeepsWiring(g, 0, 0);
    assert |h.connections| == 0 && |h.elements| == 2 by {
      assert |Wiring(h.connections)| == |Wiring(g.connections)| == 0;
      assert |Layout(h.elements)| == |Layout(g.elements)| == 2;
    }
    assert [LampWire][..0] == [];
    assert UnlinkAll(Field(els, [OtherWire]), [LampWire], 0, true) == Outcome(h, true);
  }

  /**
   * As written, removing a lamp drops a connection that has nothing to do
   * with it: the lamp `l` is wired to the switch `s` by `w1`, and `w2` joins
   * `s` to another element `m`; `removeElement(l)` completes and leaves no
   * connection at all, so `w2` is gone too.
   */
  lemma RemovalDropsUnrelated()
    ensures var f := Field([RemovedLamp, KeptSwitch], [LampWire, OtherWire]);
      !Involves(OtherWire, "l") && Removal(f, 0, 0, true).ok && Removal(f, 0, 0, true).field.connections == []
  {
    var f := Field([RemovedLamp, KeptSwitch], [LampWire, OtherWire]);
    assert Associated(f.connections, "l") == [LampWire];
    assert Kept(f.connections, "l") == [OtherWire];
    UnlinkSplicesOther();
  }

  /** The `input` field of a port's table entry, or a throw when it cannot be read. */
  datatype Flag = Throws | Flag(input: Option<bool>)

  /**
   * `getDescriptor(document.querySelector('#' + x).getAttribute('data-code')).additionals[idx].input`:
   * throws when no element has the id (an empty id is not a selector), its
   * code has no descriptor, or the index is undefined or outside the table.
   */
  function PortFlag(els: seq<Element>, x: Id, idx: Option<nat>): (r: Flag)
    ensures r.Flag? ==> exists q, k :: 0 <= q < |els| && els[q].id == x && Describe(els[q].code) == Some(k)
                                      && idx.Some? && idx.value < |Additionals(k)| && r.input == InputFlag(Additionals(k)[idx.value])
  {
    if x == "" then Throws
    else
      match ElementIndex(els, x)
      case None => Throws
      case Some(q) =>
        match Describe(els[q].code)
        case None => Throws
        case Some(k) =>
          if idx.None? || idx.value >= |Additionals(k)| then Throws
          else Flag(InputFlag(Additionals(k)[idx.value]))
  }

  /** A click on child `j` of element `p`, the connector the user picked. */
  predicate IsConnectorClick(els: seq<Element>, p: nat, j: nat)
  {
    p < |els| && j < |els[p].children| && els[p].children[j].Connector?
  }

  /** The pending connection with its origin at the clicked connector. */
  function Origin(cur: Connection, els: seq<Element>, p: nat, j: nat): (r: Connection)
    requires IsConnectorClick(els, p, j)
    ensures r.originId == Some(els[p].id) && r.originConnectorId == Some(els[p].children[j].id)
    ensures r.originIndex == Some(els[p].children[j].index)
    ensures r.(originId := cur.originId, originConnectorId := cur.originConnectorId, originIndex := cur.originIndex) == cur
  {
    var k := els[p].children[j];
    cur.(originId := Some(els[p].id), originConnectorId := Some(k.id), originIndex := Some(k.index))
  }

  /** What `selectConnector` does with a click on a connector of a placed element. */
  datatype Verdict =
    | Start(pending: Connection)   // no origin yet: the click records it
    | Restart                      // a stale selection with a destiny: start over from this connector
    | Stay                         // the origin's own element: nothing happens
    | Fail                         // a lookup throws
    | Reject                       // same `input` flag on both ends: the selection is reset
    | Commit(connection: Connection) // the connection is completed and inserted

  /** A second click: the pending connection has an origin, no destiny, and the clicked element is another one. */
  predicate SecondClick(els: seq<Element>, cur: Connection, p: nat)
    requires p < |els|
  {
    Truthy(cur.originId) && !Truthy(cur.destinyId) && cur.originId.value != els[p].id
  }

  /** The `input` flag of the pending origin's port. */
  function OriginFlag(els: seq<Element>, cur: Connection): Flag
    requires Truthy(cur.originId)
  {
    PortFlag(els, cur.originId.value, cur.originIndex)
  }

  /** The `input` flag of the clicked connector's port. */
  function ClickedFlag(els: seq<Element>, p: nat, j: nat): Flag
    requires IsConnectorClick(els, p, j)
  {
    PortFlag(els, els[p].id, Some(els[p].children[j].index))
  }

  /**
   * The decision of `selectConnector`, given the pending connection once it
   * has its id.
   */
  function Decide(els: seq<Element>, cur: Connection, p: nat, j: nat): (r: Verdict)
    requires IsConnectorClick(els, p, j)
    ensures r.Start? <==> !Truthy(cur.originId)
    ensures r.Restart? <==> Truthy(cur.originId) && Truthy(cur.destinyId)
    ensures r.Stay? <==> Truthy(cur.originId) && !Truthy(cur.destinyId) && cur.originId.value == els[p].id
    ensures r.Fail? <==> SecondClick(els, cur, p) && (OriginFlag(els, cur).Throws? || ClickedFlag(els, p, j).Throws?)
    ensures r.Reject? <==> SecondClick(els, cur, p) && OriginFlag(els, cur).Flag? && ClickedFlag(els, p, j).Flag?
                           && OriginFlag(els, cur).input == ClickedFlag(els, p, j).input
    ensures r.Commit? <==> SecondClick(els, cur, p) && OriginFlag(els, cur).Flag? && ClickedFlag(els, p, j).Flag?
                           && OriginFlag(els, cur).input != ClickedFlag(els, p, j).input
  {
    var e := els[p];
    var k := e.children[j];
    if !Truthy(cur.originId) then Start(Origin(cur, els, p, j))
    else if Truthy(cur.destinyId) then Restart
    else if cur.originId.value == e.id then Stay
    else
      var a, b := OriginFlag(els, cur), ClickedFlag(els, p, j);
      if a.Throws? || b.Throws? then Fail
      else if a.input == b.input then Reject
      else
        Commit(cur.(destinyId := Some(e.id), destinyConnectorId := Some(k.id), destinyIndex := Some(k.index),
                    inputConnectorId := if a.input == Some(true) then cur.originConnectorId else Some(k.id)))
  }

  /**
   * A committed connection joins two different elements whose ports have
   * different `input` flags; it keeps the pending id and origin, takes the
   * clicked connector as its destiny, and its `inputConnectorId` is the
   * end whose port is an input whenever both ports are connectors.
   */
  lemma CommitJoinsOppositePorts(els: seq<Element>, cur: Connection, p: nat, j: nat)
    requires IsConnectorClick(els, p, j)
    requires Decide(els, cur, p, j).Commit?
    ensures var c := Decide(els, cur, p, j).connection;
      var a := PortFlag(els, cur.originId.value, cur.originIndex);
      var b := PortFlag(els, els[p].id, Some(els[p].children[j].index));
      && Truthy(c.originId) && c.originId != c.destinyId && c.destinyId == Some(els[p].id)
      && c.connectionId == cur.connectionId && c.originConnectorId == cur.originConnectorId
      && c.originIndex == cur.originIndex && c.active == cur.active
      && c.destinyConnectorId == Some(els[p].children[j].id) && c.destinyIndex == Some(els[p].children[j].index)
      && a.Flag? && b.Flag? && a.input != b.input
      && (a.input.Some? && b.input.Some? ==>
            (a.input == Some(true) && c.inputConnectorId == c.originConnectorId)
            || (b.input == Some(true) && c.inputConnectorId == c.destinyConnectorId))
  {
    var e := els[p];
    var k := e.children[j];
    assert Truthy(cur.originId) && !Truthy(cur.destinyId) && cur.originId.value != e.id;
    var a := PortFlag(els, cur.originId.value, cur.originIndex);
    var b := PortFlag(els, e.id, Some(k.index));
    assert a.Flag? && b.Flag? && a.input != b.input;
    var c := cur.(destinyId := Some(e.id), destinyConnectorId := Some(k.id), destinyIndex := Some(k.index),
                  inputConnectorId := if a.input == Some(true) then cur.originConnectorId else Some(k.id));
    assert Decide(els, cur, p, j).connection == c;
  }

  /** The built children of an element: a child of the right kind for table entry `j`. */
  predicate Shaped(a: Additional, c: Child, j: nat)
  {
    match a
    case SimpleButton => c.Button?
    case LampLight => c.Light?
    case Port(_) => c.Connector? && c.index == j
  }

  /** The id counter `buildElement` draws from for a table entry. */
  function ChildKey(a: Additional): string
  {
    match a
    case SimpleButton => "simple-button"
    case LampLight => "lamp-light"
    case Port(_) => "connector"
  }

  /** The child node `buildElement` makes for table entry `j` with a freshly drawn id. */
  function MakeChild(a: Additional, id: Id, j: nat): (r: Child)
    ensures Shaped(a, r, j) && IdOf(r) == id
  {
    match a
    case SimpleButton => Button(id)
    case LampLight => Light(id)
    case Port(_) => Connector(id, j)
  }

  /** Children built so far, and the counters left behind. */
  datatype Furnished = Furnished(children: seq<Child>, counters: map<string, Counter>)

  /**
   * The children `buildElement` gives an element of kind `k` after the
   * first `n` table entries: the picture, then one child per entry, each
   * with an id drawn from its counter.
   */
  function Furnish(counters: map<string, Counter>, k: GateKind, n: nat): (r: Furnished)
    requires n <= |Additionals(k)|
    ensures |r.children| == n + 1 && r.children[0] == Picture
    ensures forall j :: 0 <= j < n ==> Shaped(Additionals(k)[j], r.children[j + 1], j)
  {
    if n == 0 then Furnished([Picture], counters)
    else
      var prev := Furnish(counters, k, n - 1);
      var a := Allocate(prev.counters, ChildKey(Additionals(k)[n - 1]));
      Furnished(prev.children + [MakeChild(Additionals(k)[n - 1], a.id, n - 1)], a.counters)
  }

  /** The next child of `Furnish`: the entry at `n`, with the id its counter gives. */
  lemma FurnishNext(counters: map<string, Counter>, k: GateKind, n: nat)
    requires n < |Additionals(k)|
    ensures var prev := Furnish(counters, k, n);
      var a := Allocate(prev.counters, ChildKey(Additionals(k)[n]));
      Furnish(counters, k, n + 1) == Furnished(prev.children + [MakeChild(Additionals(k)[n], a.id, n)], a.counters)
  {
  }

  /** One step of the connector filter, taken at position `i` of the children. */
  lemma FilterFrom(table: seq<Additional>, ch: seq<Child>, i: nat, flag: bool)
    requires IndexedIn(table, ch) && i < |ch|
    ensures IndexedIn(table, ch[i..]) && IndexedIn(table, ch[i + 1..])
    ensures Filter(table, ch[i..], flag)
         == (if FlaggedIn(table, ch[i], flag) then [ch[i]] else []) + Filter(table, ch[i + 1..], flag)
  {
    assert ch[i..][1..] == ch[i + 1..];
  }
  /** The connectors of a two-input gate all point into its table. */
  lemma LogicIndexed(k: GateKind, ch: seq<Child>)
    requires IsLogic(k) && |ch| == 4 && ch[0] == Picture
    requires ch[1].Connector? && ch[1].index == 0 && ch[2].Connector? && ch[2].index == 1
    requires ch[3].Connector? && ch[3].index == 2
    ensures Indexed(k, ch)
  {
    assert Additionals(k) == [Port(true), Port(true), Port(false)];
  }
  /** The input connectors of a two-input gate: the first two. */
  lemma LogicInputs(k: GateKind, ch: seq<Child>)
    requires IsLogic(k) && |ch| == 4 && ch[0] == Picture
    requires ch[1].Connector? && ch[1].index == 0 && ch[2].Connector? && ch[2].index == 1
    requires ch[3].Connector? && ch[3].index == 2
    requires Indexed(k, ch)
    ensures WithFlag(k, ch, true) == [ch[1], ch[2]]
  {
    var t := Additionals(k);
    assert t == [Port(true), Port(true), Port(false)];
    FilterFrom(t, ch, 3, true);
    assert Filter(t, ch[3..], true) == [] by { assert ch[4..] == []; }
    FilterFrom(t, ch, 2, true);
    FilterFrom(t, ch, 1, true);
    FilterFrom(t, ch, 0, true);
    assert ch[0..] == ch;
  }
  /** The output connectors of a two-input gate: the third. */
  lemma LogicOutputs(k: GateKind, ch: seq<Child>)
    requires IsLogic(k) && |ch| == 4 && ch[0] == Picture
    requires ch[1].Connector? && ch[1].index == 0 && ch[2].Connector? && ch[2].index == 1
    requires ch[3].Connector? && ch[3].index == 2
    requires Indexed(k, ch)
    ensures WithFlag(k, ch, false) == [ch[3]]
  {
    var t := Additionals(k);
    assert t == [Port(true), Port(true), Port(false)];
    FilterFrom(t, ch, 3, false);
    assert Filter(t, ch[3..], false) == [ch[3]] by { assert ch[4..] == []; }
    FilterFrom(t, ch, 2, false);
    FilterFrom(t, ch, 1, false);
    FilterFrom(t, ch, 0, false);
    assert ch[0..] == ch;
  }
  /** The connector filters on the children of a two-input gate. */
  lemma LogicPorts(k: GateKind, ch: seq<Child>)
    requires IsLogic(k) && |ch| == 4 && ch[0] == Picture
    requires ch[1].Connector? && ch[1].index == 0 && ch[2].Connector? && ch[2].index == 1
    requires ch[3].Connector? && ch[3].index == 2
    ensures Indexed(k, ch)
    ensures InputConnectors(k, ch) == [ch[1], ch[2]] && OutputConnectors(k, ch) == [ch[3]]
  {
    LogicIndexed(k, ch);
    LogicInputs(k, ch);
    LogicOutputs(k, ch);
  }

  /** The connector filters on the children of the switch: no input, one output. */
  lemma SwitchPorts(ch: seq<Child>)
    requires |ch| == 3 && ch[0] == Picture && ch[1].Button? && ch[2].Connector? && ch[2].index == 1
    ensures Indexed(SimpleSwitch, ch)
    ensures InputConnectors(SimpleSwitch, ch) == [] && OutputConnectors(SimpleSwitch, ch) == [ch[2]]
  {
    var t := Additionals(SimpleSwitch);
    assert ch[3..] == [] && ch[0..] == ch;
    FilterFrom(t, ch, 2, true);
    FilterFrom(t, ch, 1, true);
    FilterFrom(t, ch, 0, true);
    FilterFrom(t, ch, 2, false);
    FilterFrom(t, ch, 1, false);
    FilterFrom(t, ch, 0, false);
  }
  /** The connector filters on the children of the lamp: one input, no output. */
  lemma LampPorts(ch: seq<Child>)
    requires |ch| == 3 && ch[0] == Picture && ch[1].Connector? && ch[1].index == 0 && ch[2].Light?
    ensures Indexed(Lamp, ch)
    ensures InputConnectors(Lamp, ch) == [ch[1]] && OutputConnectors(Lamp, ch) == []
  {
    var t := Additionals(Lamp);
    assert ch[3..] == [] && ch[0..] == ch;
    FilterFrom(t, ch, 2, true);
    FilterFrom(t, ch, 1, true);
    FilterFrom(t, ch, 0, true);
    FilterFrom(t, ch, 2, false);
    FilterFrom(t, ch, 1, false);
    FilterFrom(t, ch, 0, false);
  }

  /**
   * The port layout of a built element: every connector points into the
   * table; a logic gate's inputs are its first two connectors and its
   * output the third; the switch has one output and no input; the lamp has
   * one input and no output.
   */
  lemma BuiltPorts(counters: map<string, Counter>, k: GateKind)
    ensures var ch := Furnish(counters, k, |Additionals(k)|).children;
      && Indexed(k, ch)
      && (IsLogic(k) ==> InputConnectors(k, ch) == [ch[1], ch[2]] && OutputConnectors(k, ch) == [ch[3]])
      && (k == SimpleSwitch ==> InputConnectors(k, ch) == [] && OutputConnectors(k, ch) == [ch[2]])
      && (k == Lamp ==> InputConnectors(k, ch) == [ch[1]] && OutputConnectors(k, ch) == [])
  {
    var t := Additionals(k);
    var ch := Furnish(counters, k, |t|).children;
    if IsLogic(k) {
      assert Shaped(t[0], ch[1], 0) && Shaped(t[1], ch[2], 1) && Shaped(t[2], ch[3], 2);
      LogicPorts(k, ch);
    } else if k == SimpleSwitch {
      assert Shaped(t[0], ch[1], 0) && Shaped(t[1], ch[2], 1);
      SwitchPorts(ch);
    } else {
      assert Shaped(t[0], ch[1], 0) && Shaped(t[1], ch[2], 1);
      LampPorts(ch);
    }
  }

  /** The pending connection once `selectConnector` has made sure it has an id, and the counters left. */
  datatype Pending = Pending(connection: Connection, counters: map<string, Counter>)

  /**
   * `if (!currentConnection.connectionId) currentConnection.connectionId = getId('connection')`:
   * a pending connection without a truthy id draws one, and every pending
   * connection has a truthy id afterwards.
   */
  function Identify(cur: Connection, counters: map<string, Counter>): (r: Pending)
    ensures Truthy(cur.connectionId) ==> r == Pending(cur, counters)
    ensures !Truthy(cur.connectionId) ==>
      r.connection == cur.(connectionId := Some(Allocate(counters, "connection").id))
      && r.counters == Allocate(counters, "connection").counters
    ensures Truthy(r.connection.connectionId)
  {
    if Truthy(cur.connectionId) then Pending(cur, counters)
    else
      var a := Allocate(counters, "connection");
      Pending(cur.(connectionId := Some(a.id)), a.counters)
  }

  /** A saved element: the `id` and `data-code` the loader reads back. */
  datatype SavedElement = SavedElement(id: Id, code: string)

  /** A saved circuit: its name (null until it is saved), its elements and its connections. */
  datatype Circuit = Circuit(name: Option<string>, elements: seq<SavedElement>, connections: seq<Connection>)

  /**
   * The evidently intended element list of `getCurrentCircuit`: for each
   * registry key, in order, the element with that id unless it is a palette
   * demonstration; a key whose element has left the page is skipped.
   */
  function SavedElements(els: seq<Element>, keys: seq<Id>): (r: seq<SavedElement>)
    ensures |r| <= |keys|
    ensures forall s :: s in r ==> s.id in keys
    ensures forall s :: s in r ==> exists q :: 0 <= q < |els| && els[q].id == s.id && els[q].code == s.code && !els[q].demo
    ensures forall i :: 0 <= i < |keys| && SavedAt(els, keys[i]).Some? ==> SavedAt(els, keys[i]).value in r
  {
    if keys == [] then []
    else
      var prev := SavedElements(els, keys[..|keys| - 1]);
      assert forall i :: 0 <= i < |keys| - 1 ==> keys[..|keys| - 1][i] == keys[i];
      match SavedAt(els, keys[|keys| - 1])
      case None => prev
      case Some(e) => prev + [e]
  }

  /**
   * What one registry key contributes to the saved list: the element
   * with that id, unless it is a demonstration or has left the page.
   */
  function SavedAt(els: seq<Element>, key: Id): (r: Option<SavedElement>)
    ensures r.Some? <==> exists q :: 0 <= q < |els| && els[q].id == key && key != "" && !els[ElementById(els, Some(key)).value].demo
    ensures r.Some? ==> r.value.id == key && exists q :: 0 <= q < |els| && els[q].id == key && els[q].code == r.value.code && !els[q].demo
  {
    match ElementById(els, Some(key))
    case None => None
    case Some(q) => if els[q].demo then None else Some(SavedElement(els[q].id, els[q].code))
  }

  /**
   * The saved list follows the registry order: the keys `a` then `b`
   * save the list of `a` followed by the list of `b`.
   */
  lemma {:induction false} SavedElementsConcat(els: seq<Element>, a: seq<Id>, b: seq<Id>)
    ensures SavedElements(els, a + b) == SavedElements(els, a) + SavedElements(els, b)
    decreases |b|
  {
    if b != [] {
      var b' := b[..|b| - 1];
      assert (a + b)[..|a + b| - 1] == a + b';
      assert (a + b)[|a + b| - 1] == b[|b| - 1];
      SavedElementsConcat(els, a, b');
    } else {
      assert a + b == a;
    }
  }

  /** One key saves exactly its own contribution. */
  lemma SavedElementsSingle(els: seq<Element>, key: Id)
    ensures SavedElements(els, [key]) == if SavedAt(els, key).Some? then [SavedAt(els, key).value] else []
  {
    assert [key][..0] == [];
  }

  /**
   * The element list of `getCurrentCircuit` as written: like the intended
   * one, except that a registry key whose element has left the page makes
   * `getAttribute` run on null and throw.
   */
  function Snapshot(els: seq<Element>, keys: seq<Id>): (r: Option<seq<SavedElement>>)
    ensures r.None? <==> exists i :: 0 <= i < |keys| && ElementById(els, Some(keys[i])).None?
    ensures r.Some? ==> r.value == SavedElements(els, keys)
  {
    if keys == [] then Some([])
    else
      var prev := Snapshot(els, keys[..|keys| - 1]);
      assert forall i :: 0 <= i < |keys| - 1 ==> keys[..|keys| - 1][i] == keys[i];
      if prev.None? then None
      else
        match ElementById(els, Some(keys[|keys| - 1]))
        case None => None
        case Some(q) => if els[q].demo then prev else Some(prev.value + [SavedElement(els[q].id, els[q].code)])
  }

  /**
   * As written, `getCurrentCircuit` throws once an element has been
   * removed: `removeElement` leaves its id among the registry keys.
   */
  lemma SnapshotAfterRemoval(els: seq<Element>, keys: seq<Id>, p: nat)
    requires p < |els| && els[p].id in keys && els[p].id != ""
    requires forall i :: 0 <= i < |els| && i != p ==> els[i].id != els[p].id
    ensures Snapshot(Drop(els, p), keys).None?
  {
    var i :| 0 <= i < |keys| && keys[i] == els[p].id;
    var rest := Drop(els, p);
    forall m | 0 <= m < |rest|
      ensures rest[m].id != keys[i]
    {
      if m < p {
        assert rest[m] == els[m];
      } else {
        assert rest[m] == els[m + 1];
      }
    }
  }

  /** The palette codes with no descriptor, which `initializeWindow` skips. */
  function Unknown(codes: seq<string>): (r: seq<string>)
    ensures |r| <= |codes|
    ensures forall c :: c in r <==> c in codes && Describe(c).None?
  {
    if codes == [] then []
    else Unknown(codes[..|codes| - 1]) + (if Describe(codes[|codes| - 1]).None? then [codes[|codes| - 1]] else [])
  }

  /** The palette codes with a descriptor, in palette order: the ones `initializeWindow` builds. */
  function Known(codes: seq<string>): (r: seq<string>)
    ensures |r| + |Unknown(codes)| == |codes|
    ensures forall c :: c in r <==> c in codes && Describe(c).Some?
  {
    if codes == [] then []
    else Known(codes[..|codes| - 1]) + (if Describe(codes[|codes| - 1]).Some? then [codes[|codes| - 1]] else [])
  }

  /**
   * The keys of the `elements` registry after `elements[id] = node`: a
   * truthy id that is not a key yet is appended, anything else leaves
   * the keys as they were.
   */
  function Register(keys: seq<Id>, id: Id): (r: seq<Id>)
    ensures |r| >= |keys| && r[..|keys|] == keys
    ensures forall x :: x in r <==> x in keys || (x == id && id != "")
    ensures forall i, j :: 0 <= i < j < |r| && r[i] == r[j] ==> j < |keys|
  {
    if id != "" && id !in keys then keys + [id] else keys
  }

  /** What `buildElement` writes: the element nodes, the registry keys and the id counters. */
  datatype Page = Page(elements: seq<Element>, registry: seq<Id>, counters: map<string, Counter>)

  /**
   * One palette node of `initializeWindow`: when its code has a
   * descriptor, a demonstration element with an id from the code's
   * counter, furnished and registered by `buildElement`; otherwise
   * nothing changes.
   */
  function Demonstrate(pg: Page, code: string): (r: Page)
    ensures Describe(code).None? ==> r == pg
    ensures Describe(code).Some? ==>
      |r.elements| == |pg.elements| + 1 && r.elements[..|pg.elements|] == pg.elements
      && r.elements[|pg.elements|].code == code && r.elements[|pg.elements|].demo
      && r.elements[|pg.elements|].id == Allocate(pg.counters, code).id
      && r.registry == Register(pg.registry, Allocate(pg.counters, code).id)
  {
    match Describe(code)
    case None => pg
    case Some(k) =>
      var a := Allocate(pg.counters, code);
      var built := Furnish(a.counters, k, |Additionals(k)|);
      Page(pg.elements + [Element(a.id, code, true, false, false, built.children)], Register(pg.registry, a.id), built.counters)
  }

  /** `initializeWindow` over the palette codes in order. */
  function Palette(pg: Page, codes: seq<string>): Page
  {
    if codes == [] then pg else Demonstrate(Palette(pg, codes[..|codes| - 1]), codes[|codes| - 1])
  }

  /**
   * The palette gains one demonstration element per code with a
   * descriptor, in palette order, after the elements already there.
   */
  lemma {:induction false} PaletteAppendsKnown(pg: Page, codes: seq<string>)
    ensures Demonstrations(pg.elements, Palette(pg, codes).elements, Known(codes))
  {
    if codes != [] {
      var init := codes[..|codes| - 1];
      var last := codes[|codes| - 1];
      PaletteAppendsKnown(pg, init);
      var mid := Palette(pg, init);
      assert Palette(pg, codes) == Demonstrate(mid, last);
      assert Known(codes) == Known(init) + (if Describe(last).Some? then [last] else []);
      DemonstrationsGrow(pg.elements, mid.elements, Demonstrate(mid, last).elements, Known(init), last, Describe(last).Some?);
    }
  }

  /** The palette additions read off `PaletteAppendsKnown`: demonstrations with a descriptor, one per known code. */
  lemma PaletteKnownDemos(pg: Page, codes: seq<string>, before: seq<Element>, after: seq<Element>)
    requires before == pg.elements && after == Palette(pg, codes).elements
    ensures |after| >= |before| && after[..|before|] == before
    ensures forall i :: |before| <= i < |after| ==> after[i].demo && Describe(after[i].code).Some?
    ensures |after| - |before| == |codes| - |Unknown(codes)|
    ensures Demonstrations(before, after, Known(codes))
  {
    PaletteAppendsKnown(pg, codes);
    forall i | |before| <= i < |after|
      ensures after[i].demo && Describe(after[i].code).Some?
    {
      KnownDemoAt(before, after, codes, i);
    }
  }

  /** Each element past `before` in demonstrations of the known codes is a demonstration with a descriptor. */
  lemma KnownDemoAt(before: seq<Element>, after: seq<Element>, codes: seq<string>, i: nat)
    requires Demonstrations(before, after, Known(codes)) && |before| <= i < |after|
    ensures after[i].demo && Describe(after[i].code).Some?
  {
    var k := i - |before|;
    assert after[|before| + k].code == Known(codes)[k];
    assert Known(codes)[k] in Known(codes);
  }

  /**
   * `after` is `before` followed by one demonstration element per code of
   * `codes`, with that code.
   */
  predicate Demonstrations(before: seq<Element>, after: seq<Element>, codes: seq<string>)
  {
    |after| == |before| + |codes| && after[..|before|] == before
    && forall m :: 0 <= m < |codes| ==> after[|before| + m].code == codes[m] && after[|before| + m].demo
  }

  /** Appending a demonstration element for `code`, or nothing, extends the demonstrations by its code, or by nothing. */
  lemma DemonstrationsGrow(before: seq<Element>, mid: seq<Element>, after: seq<Element>, codes: seq<string>, code: string, added: bool)
    requires Demonstrations(before, mid, codes)
    requires !added ==> after == mid
    requires added ==> |after| == |mid| + 1 && after[..|mid|] == mid && after[|mid|].code == code && after[|mid|].demo
    ensures Demonstrations(before, after, codes + (if added then [code] else []))
  {
    if added {
      DemonstrationsAppend(before, mid, after, codes, code);
    } else {
      assert codes + [] == codes;
    }
  }

  /** The appended case of `DemonstrationsGrow`. */
  lemma DemonstrationsAppend(before: seq<Element>, mid: seq<Element>, after: seq<Element>, codes: seq<string>, code: string)
    requires Demonstrations(before, mid, codes)
    requires |after| == |mid| + 1 && after[..|mid|] == mid && after[|mid|].code == code && after[|mid|].demo
    ensures Demonstrations(before, after, codes + [code])
  {
    var grown := codes + [code];
    var n := |before|;
    assert after[..n] == mid[..n];
    forall m | 0 <= m < |grown|
      ensures after[n + m].code == grown[m] && after[n + m].demo
    {
      if m < |codes| {
        assert after[n + m] == after[..|mid|][n + m] == mid[n + m];
      }
    }
  }

  /** Lists with the same layout agree on every element's id, code and children. */
  lemma LayoutFields(a: seq<Element>, b: seq<Element>, i: nat)
    requires Layout(a) == Layout(b) && i < |a|
    ensures |a| == |b| && a[i].id == b[i].id && a[i].code == b[i].code && a[i].children == b[i].children
  {
    assert |a| == |Layout(a)| == |b|;
    assert Layout(a)[i] == Layout(b)[i];
  }

  /** Lookups by element id and by child id find the same index in lists with the same layout. */
  lemma LayoutLookups(a: seq<Element>, b: seq<Element>, x: Id)
    requires Layout(a) == Layout(b)
    ensures OwnerIndex(a, x) == OwnerIndex(b, x) && ElementIndex(a, x) == ElementIndex(b, x)
  {
    assert |a| == |Layout(a)| == |b|;
    forall i | 0 <= i < |a|
      ensures a[i].children == b[i].children && a[i].id == b[i].id
    {
      LayoutFields(a, b, i);
    }
    SameOwners(a, b, x);
    SameIds(a, b, x);
  }

  /** Lists whose elements have the same children, index by index, have the same first owner. */
  lemma {:induction false} SameOwners(a: seq<Element>, b: seq<Element>, x: Id)
    requires |a| == |b| && forall i :: 0 <= i < |a| ==> a[i].children == b[i].children
    ensures OwnerIndex(a, x) == OwnerIndex(b, x)
    decreases |a|
  {
    if a != [] {
      assert forall i :: 0 <= i < |a| - 1 ==> a[1..][i] == a[i + 1] && b[1..][i] == b[i + 1];
      SameOwners(a[1..], b[1..], x);
    }
  }

  /** Lists with the same ids, index by index, have the same first index for each id. */
  lemma {:induction false} SameIds(a: seq<Element>, b: seq<Element>, x: Id)
    requires |a| == |b| && forall i :: 0 <= i < |a| ==> a[i].id == b[i].id
    ensures ElementIndex(a, x) == ElementIndex(b, x)
    decreases |a|
  {
    if a != [] {
      assert forall i :: 0 <= i < |a| - 1 ==> a[1..][i] == a[i + 1] && b[1..][i] == b[i + 1];
      SameIds(a[1..], b[1..], x);
    }
  }

  /**
   * Whether `buildConnection` throws, and which element it re-runs, does
   * not depend on lamp states.
   */
  lemma OutputSideLayout(a: seq<Element>, b: seq<Element>, c: Connection)
    requires Layout(a) == Layout(b)
    ensures OutputSide(a, c) == OutputSide(b, c)
  {
    OwnerLayout(a, b, c.originConnectorId);
    OwnerLayout(a, b, c.destinyConnectorId);
    OwnerLayout(a, b, c.inputConnectorId);
    var p := ConnectorOwner(a, c.inputConnectorId);
    if p.Some? {
      LayoutFields(a, b, p.value);
      var other := if c.originId == Some(a[p.value].id) then c.destinyId else c.originId;
      if other.Some? {
        LayoutLookups(a, b, other.value);
      }
      var q := ElementById(a, other);
      if q.Some? {
        LayoutFields(a, b, q.value);
      }
    }
  }

  /** The owner of a connector id is at the same index in lists with the same layout. */
  lemma OwnerLayout(a: seq<Element>, b: seq<Element>, o: Option<Id>)
    requires Layout(a) == Layout(b)
    ensures ConnectorOwner(a, o) == ConnectorOwner(b, o)
  {
    if o.Some? {
      LayoutLookups(a, b, o.value);
    }
  }

  /** Whether the first `removeConnection` of a loop over `cs` completes, and so deselects. */
  predicate FirstUnlinks(els: seq<Element>, cs: seq<Connection>)
  {
    cs != [] && InputSide(els, cs[0]).Some?
  }

  /** The switch `s` of the switch-and-lamp circuit: button `b`, output connector `c2`. */
  function SampleSwitch(on: bool): Element
  {
    Element("s", "simple-switch", false, on, false, [Picture, Button("b"), Connector("c2", 1)])
  }

  /** The lamp `l` of the switch-and-lamp circuit: input connector `c1`, light `ll`. */
  function SampleLamp(lit: bool): Element
  {
    Element("l", "lamp", false, false, lit, [Picture, Connector("c1", 0), Light("ll")])
  }

  /** The wire `w` from the switch's output to the lamp's input. */
  function SampleWire(active: bool): Connection
  {
    Connection(Some("w"), Some("s"), Some("c2"), Some(1), Some("l"), Some("c1"), Some("c1"), Some(0), active)
  }

  /** Driving `c2` writes the wire. */
  lemma SampleDrive(on: bool, active: bool)
    ensures Drive([SampleWire(active)], ["c2"], on) == Driven([SampleWire(on)], [Some("w")])
  {
    assert TouchesAny(SampleWire(active), ["c2"]) by {
      assert Touches(SampleWire(active), ["c2"][0]);
    }
    assert [SampleWire(active)][1..] == [];
    assert Driving([SampleWire(active)], ["c2"], on) == [SampleWire(on)];
    assert [SampleWire(active)][..0] == [];
    assert Touched([SampleWire(active)], "c2") == [Some("w")];
    assert ["c2"][..0] == [];
    assert TouchedAll([SampleWire(active)], ["c2"]) == [Some("w")];
  }

  /** The switch's `updateOutput` drives the wire with the switch's state and reports it written. */
  lemma SampleSwitchStep(on: bool, lit: bool, active: bool)
    ensures Step(Field([SampleSwitch(on), SampleLamp(lit)], [SampleWire(active)]), 0)
      == Stepped(Field([SampleSwitch(on), SampleLamp(lit)], [SampleWire(on)]), [Some("w")])
  {
    var f := Field([SampleSwitch(on), SampleLamp(lit)], [SampleWire(active)]);
    SampleSwitchOutputs(on);
    SampleDrive(on, active);
    assert Step(f, 0) == Stepped(Field(f.elements, [SampleWire(on)]), [Some("w")]);
  }

  /** The switch has a descriptor, its connectors point into its table, and its one output is `c2`. */
  lemma SampleSwitchOutputs(on: bool)
    ensures Describe(SampleSwitch(on).code) == Some(SimpleSwitch) && !IsLogic(SimpleSwitch)
    ensures Indexed(SimpleSwitch, SampleSwitch(on).children)
    ensures IdsOf(OutputConnectors(SimpleSwitch, SampleSwitch(on).children)) == ["c2"]
  {
    var ch := [Picture, Button("b"), Connector("c2", 1)];
    assert SampleSwitch(on).children == ch;
    SwitchPorts(ch);
    assert IdsOf([ch[2]]) == ["c2"];
  }

  /** The lamp's `updateOutput` lights it with the state of the wire on its input, and writes no connection. */
  lemma SampleLampStep(on: bool, lit: bool)
    ensures Step(Field([SampleSwitch(on), SampleLamp(lit)], [SampleWire(on)]), 1)
      == Stepped(Field([SampleSwitch(on), SampleLamp(on)], [SampleWire(on)]), [])
  {
    var lamp := SampleLamp(lit);
    var f := Field([SampleSwitch(on), lamp], [SampleWire(on)]);
    assert Describe(lamp.code) == Some(Lamp);
    LampPorts(lamp.children);
    assert lamp.children[2].Light?;
    LampLightsItself(f.elements, 1);
    LampStep(f, 1);
    assert IdOf(lamp.children[1]) == "c1";
    assert Energized(f.connections, "c1") == on by {
      assert Touches(f.connections[0], "c1");
    }
    var g := Step(f, 1).field;
    assert g.elements[1] == SampleLamp(on);
    assert g.elements == [SampleSwitch(on), SampleLamp(on)];
  }

  /** The wire's change handler re-runs the lamp, the owner of `c1`. */
  lemma SampleWireHandler(on: bool, lit: bool)
    ensures Notify(Field([SampleSwitch(on), SampleLamp(lit)], [SampleWire(on)]), Some("w"), 1)
      == Cascade(Field([SampleSwitch(on), SampleLamp(lit)], [SampleWire(on)]), 1, 0)
  {
    var switch, lamp := SampleSwitch(on), SampleLamp(lit);
    assert GetConnection([SampleWire(on)], "w") == Some(SampleWire(on));
    assert !HasChild(switch, "c1");
    assert HasChild(lamp, "c1") by {
      assert lamp.children[1] == Connector("c1", 0);
    }
    assert OwnerIndex([switch, lamp], "c1") == Some(1);
  }

  /**
   * A switch wired to a lamp: one level of cascade after the switch's
   * `updateOutput` lights the lamp exactly when the switch is on, and the
   * wire carries the switch's state.
   */
  lemma {:induction false} SwitchLightsLamp(on: bool, lit: bool, active: bool)
    ensures Cascade(Field([SampleSwitch(on), SampleLamp(lit)], [SampleWire(active)]), 0, 1)
      == Field([SampleSwitch(on), SampleLamp(on)], [SampleWire(on)])
  {
    SampleSwitchStep(on, lit, active);
    SampleWireHandler(on, lit);
    SampleLampStep(on, lit);
    var f1 := Field([SampleSwitch(on), SampleLamp(lit)], [SampleWire(on)]);
    assert Cascade(f1, 1, 0) == Field([SampleSwitch(on), SampleLamp(on)], [SampleWire(on)]);
    assert [Some("w")][1..] == [];
    assert NotifyAll(f1, [Some("w")], 1) == NotifyAll(Notify(f1, Some("w"), 1), [], 1);
  }
}
