/**
 * Identity allocation: `getId(code)` turns a per-code counter into the text
 * `code-N` and increments the counter; `loadElementIds` starts every known
 * counter at 1.
 */
module Ids {
  import opened Predefinitions

  /** `toLowerCase` on one character (ASCII letters only). */
  function LowerChar(c: char): char
  {
    if 'A' <= c <= 'Z' then (c as int + 32) as char else c
  }

  /** `toLowerCase` on a string (ASCII letters only). */
  function Lower(s: string): (r: string)
    ensures |r| == |s|
    ensures forall i :: 0 <= i < |s| ==> r[i] == LowerChar(s[i])
  {
    seq(|s|, i requires 0 <= i < |s| => LowerChar(s[i]))
  }

  /** A string without upper-case ASCII letters is its own lower-case form. */
  lemma LowerOfLower(s: string)
    requires forall i :: 0 <= i < |s| ==> !('A' <= s[i] <= 'Z')
    ensures Lower(s) == s
  {
  }

  predicate IsDigit(c: char)
  {
    '0' <= c <= '9'
  }

  function Digit(d: nat): (c: char)
    requires d < 10
    ensures IsDigit(c) && c as int - '0' as int == d
  {
    ('0' as int + d) as char
  }

  /** How a non-negative integer is written by a template literal: decimal, no leading zero. */
  function Decimal(n: nat): (r: string)
    ensures |r| > 0
    decreases n
  {
    if n < 10 then [Digit(n)] else Decimal(n / 10) + [Digit(n % 10)]
  }

  /** The value of a string of decimal digits, read left to right. */
  function Value(s: string): nat
    requires forall i :: 0 <= i < |s| ==> IsDigit(s[i])
  {
    if s == [] then 0
    else
      assert IsDigit(s[|s| - 1]);
      Value(s[..|s| - 1]) * 10 + (s[|s| - 1] as int - '0' as int)
  }

  /** Reading back the decimal text of `n` gives `n`. */
  lemma {:induction false} DecimalValue(n: nat)
    ensures forall i :: 0 <= i < |Decimal(n)| ==> IsDigit(Decimal(n)[i])
    ensures Value(Decimal(n)) == n
    decreases n
  {
    if n >= 10 {
      DecimalValue(n / 10);
      var d := Decimal(n);
      assert d[..|d| - 1] == Decimal(n / 10);
    }
  }

  /** Different numbers have different decimal texts. */
  lemma DecimalInjective(a: nat, b: nat)
    requires Decimal(a) == Decimal(b)
    ensures a == b
  {
    DecimalValue(a);
    DecimalValue(b);
  }

  /**
   * The value stored under a key of `elementIds`. A key that was never set is
   * `undefined`; incrementing it stores NaN, and NaN stays NaN.
   */
  datatype Counter = Count(n: nat) | NaN

  function CounterText(c: Counter): string
  {
    match c
    case Count(n) => Decimal(n)
    case NaN => "NaN"
  }

  /** The text `${code}-${counter}`. */
  function IdText(code: string, c: Counter): string
  {
    code + "-" + CounterText(c)
  }

  /** Two numbered ids for the same code are equal only when their numbers are. */
  lemma IdTextInjective(code: string, a: nat, b: nat)
    requires IdText(code, Count(a)) == IdText(code, Count(b))
    ensures a == b
  {
    var p := |code| + 1;
    assert Decimal(a) == IdText(code, Count(a))[p..];
    assert Decimal(b) == IdText(code, Count(b))[p..];
    DecimalInjective(a, b);
  }

  /** The result of one `getId` call: the id and the counters afterwards. */
  datatype Allocation = Allocation(id: string, counters: map<string, Counter>)

  /** Postfix increment of a counter. */
  function Bump(c: Counter): Counter
  {
    match c
    case Count(n) => Count(n + 1)
    case NaN => NaN
  }

  /** What `getId(code)` returns and leaves behind, as a function of the counters before. */
  function Allocate(counters: map<string, Counter>, code: string): Allocation
  {
    var key := Lower(code);
    var c := if key in counters then counters[key] else NaN;
    Allocation(IdText(code, c), counters[key := Bump(c)])
  }

  /** The ids produced by `k` successive `getId(code)` calls. */
  function Run(counters: map<string, Counter>, code: string, k: nat): seq<string>
    decreases k
  {
    if k == 0 then []
    else
      var a := Allocate(counters, code);
      [a.id] + Run(a.counters, code, k - 1)
  }

  predicate Registered(counters: map<string, Counter>, code: string)
  {
    Lower(code) in counters && counters[Lower(code)].Count?
  }

  /** Successive calls for a registered code number their ids n, n + 1, ... */
  lemma {:induction false} RunNumbers(counters: map<string, Counter>, code: string, k: nat)
    requires Registered(counters, code)
    ensures |Run(counters, code, k)| == k
    ensures forall i :: 0 <= i < k ==>
      Run(counters, code, k)[i] == IdText(code, Count(counters[Lower(code)].n + i))
    decreases k
  {
    if k > 0 {
      var a := Allocate(counters, code);
      RunNumbers(a.counters, code, k - 1);
    }
  }

  /** Repeated `getId` calls with the same registered code never repeat an id. */
  lemma RunNeverRepeats(counters: map<string, Counter>, code: string, k: nat)
    requires Registered(counters, code)
    ensures forall i, j :: 0 <= i < j < |Run(counters, code, k)| ==>
      Run(counters, code, k)[i] != Run(counters, code, k)[j]
  {
    RunNumbers(counters, code, k);
    var n := counters[Lower(code)].n;
    forall i, j | 0 <= i < j < k
      ensures Run(counters, code, k)[i] != Run(counters, code, k)[j]
    {
      if IdText(code, Count(n + i)) == IdText(code, Count(n + j)) {
        IdTextInjective(code, n + i, n + j);
      }
    }
  }

  /** With no counter for its lower-cased code, `getId` answers `code-NaN` every time. */
  lemma UnregisteredRepeats(counters: map<string, Counter>, code: string)
    requires Lower(code) !in counters
    ensures Run(counters, code, 2) == [code + "-NaN", code + "-NaN"]
  {
    var a := Allocate(counters, code);
    assert IdText(code, NaN) == code + "-NaN";
    assert a.id == code + "-NaN" && a.counters[Lower(code)] == NaN;
    assert Allocate(a.counters, code).id == code + "-NaN";
    assert Run(a.counters, code, 1) == [code + "-NaN"];
  }

  /** The keys `loadElementIds` sets: every gate code, then the five custom counters. */
  function CounterKeys(): seq<string>
  {
    [Code(And), Code(Or), Code(Nand), Code(Nor), Code(SimpleSwitch), Code(Lamp),
     "connector", "connection", "simple-button", "lamp-light", "circuit"]
  }

  /** The counters right after `loadElementIds`. */
  function InitialCounters(): map<string, Counter>
  {
    map key | key in CounterKeys() :: Count(1)
  }

  /** Every catalogue code, lower-cased as `getId` does, finds a counter starting at 1. */
  lemma CatalogueCountersStartAtOne(k: GateKind)
    ensures Lower(Code(k)) in InitialCounters() && InitialCounters()[Lower(Code(k))] == Count(1)
  {
    LowerOfLower(Code(k));
  }

  /** The `elementIds` table. */
  class IdCounters {
    var counters: map<string, Counter>

    /** `loadElementIds`: a counter of 1 for every descriptor's gate code and each custom key. */
    constructor ()
      ensures counters == InitialCounters()
    {
      var table: map<string, Counter> := map[];
      var keys := CounterKeys();
      var i := 0;
      while i < |keys|
        invariant 0 <= i <= |keys|
        invariant table == map key | key in keys[..i] :: Count(1)
      {
        assert keys[..i + 1] == keys[..i] + [keys[i]];
        table := table[keys[i] := Count(1)];
        i := i + 1;
      }
      assert keys[..i] == keys;
      counters := table;
    }

    /** `getId(code)`: the id built from the counter of `code.toLowerCase()`, which is then incremented. */
    method GetId(code: string) returns (id: string)
      modifies this
      ensures Allocation(id, counters) == Allocate(old(counters), code)
      ensures Registered(old(counters), code) ==>
        id == IdText(code, old(counters)[Lower(code)]) && counters[Lower(code)].n == old(counters)[Lower(code)].n + 1
    {
      var key := Lower(code);
      var c := if key in counters then counters[key] else NaN;
      id := IdText(code, c);
      counters := counters[key := Bump(c)];
    }
  }
}
