/**
 * The records of the circuit core: a connection between two connectors, the
 * children of a placed element, and the descriptor queries that pick an
 * element's input and output connectors out of its children.
 */
module CircuitClasses {
  import opened Wrappers
  import opened Predefinitions

  /** Every DOM id and element id is a string. */
  type Id = string

  /**
   * A `CircuitConnection`. Every field may be `undefined` (a fresh
   * `new CircuitConnection()` has nothing set), hence the options; the
   * `alignment` field is a rendering fraction and is left out.
   */
  datatype Connection = Connection(
    connectionId: Option<Id>,
    originId: Option<Id>,
    originConnectorId: Option<Id>,
    originIndex: Option<nat>,
    destinyId: Option<Id>,
    destinyConnectorId: Option<Id>,
    inputConnectorId: Option<Id>,
    destinyIndex: Option<nat>,
    active: bool)

  /** `new CircuitConnection()`: every argument undefined and `active` at its default, false. */
  function Blank(): Connection
  {
    Connection(None, None, None, None, None, None, None, None, false)
  }

  /**
   * A child node of a placed element: a standard connector (with its
   * `data-connector-index`), the switch button, the lamp light, or the
   * gate picture, which has no id.
   */
  datatype Child = Connector(id: Id, index: nat) | Button(id: Id) | Light(id: Id) | Picture

  /** The `id` of a child node; the picture's is empty. */
  function IdOf(c: Child): Id
  {
    if c.Picture? then "" else c.id
  }

  /** The ids of a list of child nodes, in order. */
  function IdsOf(cs: seq<Child>): (r: seq<Id>)
  {
    seq(|cs|, i requires 0 <= i < |cs| => IdOf(cs[i]))
  }

  /**
   * A placed (or palette) element: its id, its `data-code`, whether it is a
   * palette demonstration, the switch's `active` attribute, whether its lamp
   * light carries the `active` class, and its child nodes in order.
   */
  datatype Element = Element(id: Id, code: string, demo: bool, active: bool, lit: bool, children: seq<Child>)

  /** Every connector child points at an entry of the table. */
  predicate IndexedIn(table: seq<Additional>, children: seq<Child>)
  {
    forall i :: 0 <= i < |children| && children[i].Connector? ==> children[i].index < |table|
  }

  /** Every connector child points at an entry of the descriptor's table. */
  predicate Indexed(k: GateKind, children: seq<Child>)
  {
    IndexedIn(Additionals(k), children)
  }

  /** A connector child whose table entry has `input === flag`. */
  predicate FlaggedIn(table: seq<Additional>, c: Child, flag: bool)
  {
    c.Connector? && c.index < |table| && InputFlag(table[c.index]) == Some(flag)
  }

  /** A connector child whose entry in the descriptor's table has `input === flag`. */
  predicate HasFlag(k: GateKind, c: Child, flag: bool)
  {
    FlaggedIn(Additionals(k), c, flag)
  }

  /**
   * The connector children whose table entry has `input === flag`, in child
   * order. (The source reads the table entry of every connector child, so
   * an index outside the table would throw; buildElement never makes one.)
   */
  function Filter(table: seq<Additional>, children: seq<Child>, flag: bool): seq<Child>
    requires IndexedIn(table, children)
  {
    if children == [] then []
    else (if FlaggedIn(table, children[0], flag) then [children[0]] else []) + Filter(table, children[1..], flag)
  }

  /** The filter on the descriptor's table. */
  function WithFlag(k: GateKind, children: seq<Child>, flag: bool): seq<Child>
    requires Indexed(k, children)
  {
    Filter(Additionals(k), children, flag)
  }

  /** The filter keeps exactly the connector children with the flag. */
  lemma {:induction false} FilterMembers(table: seq<Additional>, children: seq<Child>, flag: bool)
    requires IndexedIn(table, children)
    ensures forall c :: c in Filter(table, children, flag) <==> c in children && FlaggedIn(table, c, flag)
    decreases |children|
  {
    if children != [] {
      FilterMembers(table, children[1..], flag);
      assert children == [children[0]] + children[1..];
    }
  }

  /** `getInputConnectors`: the children with `input === true`. */
  function InputConnectors(k: GateKind, children: seq<Child>): seq<Child>
    requires Indexed(k, children)
  {
    WithFlag(k, children, true)
  }

  /** `getOutputConnectors`: the children with `input === false`. */
  function OutputConnectors(k: GateKind, children: seq<Child>): seq<Child>
    requires Indexed(k, children)
  {
    WithFlag(k, children, false)
  }

  /**
   * The filter keeps child order: filtering a concatenation is the
   * concatenation of the filtered parts.
   */
  lemma {:induction false} FilterAppend(table: seq<Additional>, a: seq<Child>, b: seq<Child>, flag: bool)
    requires IndexedIn(table, a) && IndexedIn(table, b)
    ensures IndexedIn(table, a + b)
    ensures Filter(table, a + b, flag) == Filter(table, a, flag) + Filter(table, b, flag)
    decreases |a|
  {
    IndexedAppend(table, a, b);
    if a == [] {
      assert a + b == b;
    } else {
      assert (a + b)[0] == a[0];
      assert (a + b)[1..] == a[1..] + b;
      IndexedTail(table, a);
      FilterAppend(table, a[1..], b, flag);
    }
  }

  /** Concatenating two lists of indexed children gives indexed children. */
  lemma IndexedAppend(table: seq<Additional>, a: seq<Child>, b: seq<Child>)
    requires IndexedIn(table, a) && IndexedIn(table, b)
    ensures IndexedIn(table, a + b)
  {
    forall i | 0 <= i < |a + b| && (a + b)[i].Connector?
      ensures (a + b)[i].index < |table|
    {
      if i >= |a| {
        assert (a + b)[i] == b[i - |a|];
      }
    }
  }

  /** The tail of indexed children is indexed. */
  lemma IndexedTail(table: seq<Additional>, a: seq<Child>)
    requires a != [] && IndexedIn(table, a)
    ensures IndexedIn(table, a[1..])
  {
    forall i | 0 <= i < |a[1..]| && a[1..][i].Connector?
      ensures a[1..][i].index < |table|
    {
      assert a[1..][i] == a[i + 1];
    }
  }

  /**
   * An element's input and output connector lists are disjoint, and a child
   * whose table entry has no `input` field (the button, the light) is in
   * neither.
   */
  lemma RolesDisjoint(k: GateKind, children: seq<Child>, c: Child)
    requires Indexed(k, children)
    ensures !(c in InputConnectors(k, children) && c in OutputConnectors(k, children))
    ensures c.Connector? && c.index < |Additionals(k)| && InputFlag(Additionals(k)[c.index]) == None ==>
      c !in InputConnectors(k, children) && c !in OutputConnectors(k, children)
    ensures !c.Connector? ==> c !in InputConnectors(k, children) && c !in OutputConnectors(k, children)
  {
    FilterMembers(Additionals(k), children, true);
    FilterMembers(Additionals(k), children, false);
  }
}
