/**
 * The gate catalogue of the circuit editor: which gates exist, what their
 * ports are, and how each logic gate turns the states of its inputs into the
 * state of its output.
 */
module Predefinitions {
  import opened Wrappers

  /** The six descriptors of the catalogue, as a closed set of kinds. */
  datatype GateKind = And | Or | Nand | Nor | SimpleSwitch | Lamp

  /** The `gateCode` of each descriptor; it is also the `data-code` of placed elements. */
  function Code(k: GateKind): string
  {
    match k
    case And => "and"
    case Or => "or"
    case Nand => "nand"
    case Nor => "nor"
    case SimpleSwitch => "simple-switch"
    case Lamp => "lamp"
  }

  /**
   * getDescriptor: the descriptor whose lower-cased gate code equals the
   * given data-code. Every gate code is already lower case, so this is an
   * exact match; an unknown code finds nothing.
   */
  function Describe(code: string): (r: Option<GateKind>)
    ensures r.Some? ==> Code(r.value) == code
  {
    if code == "and" then Some(And)
    else if code == "or" then Some(Or)
    else if code == "nand" then Some(Nand)
    else if code == "nor" then Some(Nor)
    else if code == "simple-switch" then Some(SimpleSwitch)
    else if code == "lamp" then Some(Lamp)
    else None
  }

  /** Looking a descriptor up by its own code finds that descriptor. */
  lemma DescribeCode(k: GateKind)
    ensures Describe(Code(k)) == Some(k)
  {
    match k
    case And =>
    case Or => assert Code(Or) != "and";
    case Nand => assert Code(Nand) != "and" && Code(Nand) != "or";
    case Nor => assert Code(Nor) != "and" && Code(Nor) != "or" && Code(Nor) != "nand";
    case SimpleSwitch =>
      assert Code(SimpleSwitch) != "and" && Code(SimpleSwitch) != "or";
      assert Code(SimpleSwitch) != "nand" && Code(SimpleSwitch) != "nor";
    case Lamp =>
      assert Code(Lamp) != "and" && Code(Lamp) != "or" && Code(Lamp) != "nand";
      assert Code(Lamp) != "nor" && Code(Lamp) != "simple-switch";
  }

  /**
   * One entry of a descriptor's `additionals` table (the rendering position
   * is left out). A standard connector carries an `input` flag; the switch
   * button and the lamp light carry none.
   */
  datatype Additional = Port(input: bool) | SimpleButton | LampLight

  /** The `input` field of a table entry, absent for the button and the light. */
  function InputFlag(a: Additional): Option<bool>
  {
    match a
    case Port(b) => Some(b)
    case SimpleButton => None
    case LampLight => None
  }

  /** The `additionals` table of each descriptor. */
  function Additionals(k: GateKind): seq<Additional>
  {
    match k
    case And => [Port(true), Port(true), Port(false)]
    case Or => [Port(true), Port(true), Port(false)]
    case Nand => [Port(true), Port(true), Port(false)]
    case Nor => [Port(true), Port(true), Port(false)]
    case SimpleSwitch => [SimpleButton, Port(false)]
    case Lamp => [Port(true), LampLight]
  }

  /** The four two-input gates, which are driven by `manageLogicGateChanges`. */
  predicate IsLogic(k: GateKind)
  {
    k == And || k == Or || k == Nand || k == Nor
  }

  /** The binary operation a reducing evaluator folds with. */
  datatype Connective = Conj | Disj

  function Apply(op: Connective, a: bool, b: bool): bool
  {
    match op
    case Conj => a && b
    case Disj => a || b
  }

  /** `xs.reduce((previous, current) => previous op current, seed)`: a left fold. */
  function Reduce(op: Connective, seed: bool, xs: seq<bool>): bool
    decreases |xs|
  {
    if xs == [] then seed else Reduce(op, Apply(op, seed, xs[0]), xs[1..])
  }

  /**
   * The reduction the evaluators perform, seeded with `inputStats[0]`. On an
   * empty list the seed is `undefined` and so is the result; it is falsy, so
   * it reads as false.
   */
  function Reduction(op: Connective, xs: seq<bool>): bool
  {
    if xs == [] then false else Reduce(op, xs[0], xs)
  }

  /** The evaluator lambda of each logic gate. */
  function Evaluate(k: GateKind, xs: seq<bool>): bool
    requires IsLogic(k)
  {
    match k
    case And => Reduction(Conj, xs)
    case Or => Reduction(Disj, xs)
    case Nand => !Reduction(Conj, xs)
    case Nor => !Reduction(Disj, xs)
  }

  /** A conjunction fold is its seed and every element. */
  lemma {:induction false} ReduceConj(seed: bool, xs: seq<bool>)
    ensures Reduce(Conj, seed, xs) <==> seed && forall i :: 0 <= i < |xs| ==> xs[i]
    decreases |xs|
  {
    if xs != [] {
      ReduceConj(seed && xs[0], xs[1..]);
      assert forall i :: 1 <= i < |xs| ==> xs[i] == xs[1..][i - 1];
    }
  }

  /** A disjunction fold is its seed or some element. */
  lemma {:induction false} ReduceDisj(seed: bool, xs: seq<bool>)
    ensures Reduce(Disj, seed, xs) <==> seed || exists i :: 0 <= i < |xs| && xs[i]
    decreases |xs|
  {
    if xs != [] {
      ReduceDisj(seed || xs[0], xs[1..]);
      assert forall i :: 1 <= i < |xs| ==> xs[i] == xs[1..][i - 1];
      if exists i :: 1 <= i < |xs| && xs[i] {
        var i :| 1 <= i < |xs| && xs[i];
        assert xs[1..][i - 1];
      }
    }
  }

  /**
   * The AND evaluator is the conjunction of all input states: seeding the
   * reduction with the first state changes nothing for a non-empty list.
   */
  lemma AndIsConjunction(xs: seq<bool>)
    requires xs != []
    ensures Evaluate(And, xs) <==> forall i :: 0 <= i < |xs| ==> xs[i]
  {
    ReduceConj(xs[0], xs);
  }

  /** The OR evaluator is the disjunction of all input states for a non-empty list. */
  lemma OrIsDisjunction(xs: seq<bool>)
    requires xs != []
    ensures Evaluate(Or, xs) <==> exists i :: 0 <= i < |xs| && xs[i]
  {
    ReduceDisj(xs[0], xs);
  }

  /**
   * NAND is the negation of AND and NOR the negation of OR for every input
   * list, the empty one included; on a non-empty list NAND holds iff some
   * input is off and NOR iff every input is off.
   */
  lemma NegatedGates(xs: seq<bool>)
    ensures Evaluate(Nand, xs) == !Evaluate(And, xs)
    ensures Evaluate(Nor, xs) == !Evaluate(Or, xs)
    ensures xs != [] ==> (Evaluate(Nand, xs) <==> exists i :: 0 <= i < |xs| && !xs[i])
    ensures xs != [] ==> (Evaluate(Nor, xs) <==> forall i :: 0 <= i < |xs| ==> !xs[i])
  {
    if xs != [] {
      AndIsConjunction(xs);
      OrIsDisjunction(xs);
    }
  }
}
