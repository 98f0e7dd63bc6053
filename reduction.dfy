/**
 * The last stage of `evaluate_expression` (src/evaluation.rs:212-242): the
 * `(value, operator, priority)` entries built from the tokens are reduced to
 * one value by combining a neighbouring pair whenever the left priority is at
 * least the right one (`*` and `/` have priority 2, `+` and `-` priority 1,
 * the end marker priority 0).
 */
module Reduction {
  import opened Wrappers

  /** One entry of `ops`: a value and the operator written after it. */
  datatype Op = Op(value: int, op: char, priority: nat)

  predicate IsOperatorChar(c: char) {
    c == '+' || c == '-' || c == '*' || c == '/'
  }

  /** An entry that is followed by another: an arithmetic operator with its priority. */
  predicate IsOperator(o: Op) {
    ((o.op == '+' || o.op == '-') && o.priority == 1) || ((o.op == '*' || o.op == '/') && o.priority == 2)
  }

  /** The entry of a token without a trailing operator. */
  predicate IsEnd(o: Op) {
    o.op == ' ' && o.priority == 0
  }

  /** What the tokens produce: an operator after every entry but the last, and the last an operator or the end. */
  predicate WellFormed(ops: seq<Op>) {
    && |ops| >= 1
    && (forall k :: 0 <= k < |ops| - 1 ==> IsOperator(ops[k]))
    && (IsOperator(ops[|ops| - 1]) || IsEnd(ops[|ops| - 1]))
  }

  /** No entry has a lower priority than the last: otherwise the scan comes to a pair it never combines and spins. */
  predicate Terminates(ops: seq<Op>)
    requires |ops| >= 1
  {
    forall k :: 0 <= k < |ops| ==> ops[k].priority >= ops[|ops| - 1].priority
  }

  /** No division has a zero right operand: the source panics there. */
  predicate DivisorsNonZero(ops: seq<Op>) {
    forall k :: 0 <= k < |ops| - 1 ==> ops[k].op == '/' ==> ops[k + 1].value != 0
  }

  predicate Reducible(ops: seq<Op>) {
    WellFormed(ops) && Terminates(ops) && DivisorsNonZero(ops)
  }

  /**
   * For entries built from tokens, the scan fails to end exactly when the last
   * entry has priority 2 (a trailing `*` or `/`, or a bare `-`) and an earlier
   * entry has priority 1.
   */
  lemma TerminatesExactly(ops: seq<Op>)
    requires WellFormed(ops)
    ensures Terminates(ops) <==>
      !(ops[|ops| - 1].priority == 2 && exists k :: 0 <= k < |ops| - 1 && ops[k].priority == 1)
  {
  }

  function Abs(a: int): nat {
    if a < 0 then -a else a
  }

  /** Rust's `/` on integers: the quotient rounded toward zero. */
  function Quotient(a: int, b: int): int
    requires b != 0
  {
    if (a >= 0) == (b > 0) then Abs(a) / Abs(b) else -(Abs(a) / Abs(b))
  }

  /** Truncation, first half: the magnitude is the floor of the magnitudes' quotient. */
  lemma QuotientMagnitude(a: int, b: int)
    requires b != 0
    ensures Abs(Quotient(a, b)) == Abs(a) / Abs(b)
  {
  }

  /** Truncation, second half: a non-zero quotient has the product of the operands' signs. */
  lemma QuotientSign(a: int, b: int)
    requires b != 0
    ensures Quotient(a, b) < 0 ==> (a < 0) != (b < 0)
    ensures Quotient(a, b) > 0 ==> (a < 0) == (b < 0)
  {
    DivNonNegative(Abs(a), Abs(b));
  }

  lemma DivNonNegative(x: int, y: int)
    requires x >= 0 && y > 0
    ensures x / y >= 0
  {
  }

  /** One operator applied; the source panics on a zero divisor and on a character that is no operator. */
  function Apply(op: char, a: int, b: int): int
    requires IsOperatorChar(op) && (op == '/' ==> b != 0)
  {
    match op
    case '+' => a + b
    case '-' => a - b
    case '*' => a * b
    case _ => Quotient(a, b)
  }

  /** Whether the pair at `i`, `i + 1` can be combined without a panic. */
  predicate Combinable(ops: seq<Op>, i: nat) {
    i + 1 < |ops| && IsOperator(ops[i]) && (ops[i].op == '/' ==> ops[i + 1].value != 0)
  }

  /** The pair at `i`, `i + 1` replaced by its result, which keeps the right entry's operator and priority. */
  function Combine(ops: seq<Op>, i: nat): (r: seq<Op>)
    requires Combinable(ops, i)
    ensures |r| == |ops| - 1
  {
    ops[..i] + [Op(Apply(ops[i].op, ops[i].value, ops[i + 1].value), ops[i + 1].op, ops[i + 1].priority)] + ops[i + 2..]
  }

  /** Combining keeps the shape and the termination condition. */
  lemma CombineShape(ops: seq<Op>, i: nat)
    requires WellFormed(ops) && Terminates(ops) && Combinable(ops, i)
    ensures WellFormed(Combine(ops, i)) && Terminates(Combine(ops, i))
  {
    var r := Combine(ops, i);
    assert forall k :: 0 <= k < |r| ==> r[k] == (if k < i then ops[k] else if k == i then r[i] else ops[k + 1]);
  }

  /**
   * Where the scan cannot end, no combination it makes helps: at least two
   * entries stay and they still cannot be reduced, so the loop never reaches
   * `ops.len() == 1`.  A pass that does not combine leaves the entries alone.
   */
  lemma CombineKeepsSpinning(ops: seq<Op>, i: nat)
    requires WellFormed(ops) && !Terminates(ops) && Combinable(ops, i) && ops[i].priority >= ops[i + 1].priority
    ensures |ops| >= 2 && |Combine(ops, i)| >= 2
    ensures WellFormed(Combine(ops, i)) && !Terminates(Combine(ops, i))
  {
    var n := |ops|;
    var r := Combine(ops, i);
    var k :| 0 <= k < n && ops[k].priority < ops[n - 1].priority;
    assert forall j :: 0 <= j < |r| ==> r[j] == (if j < i then ops[j] else if j == i then r[i] else ops[j + 1]);
    assert k < n - 1 && ops[n - 1].priority == 2 && ops[k].priority == 1;
    if i + 1 == n - 1 {
      assert r[|r| - 1] == r[i] && r[i].priority == 2;
      assert r[k].priority == 1;
    } else {
      assert r[|r| - 1] == ops[n - 1];
      var w := if k < i then k else if k <= i + 1 then i else k - 1;
      assert r[w].priority == 1;
    }
  }

  // ----- the intended meaning -----

  /**
   * The value the expression means: a sum of terms, each term a left-to-right
   * chain of `*` and `/`, the terms joined left to right by `+` and `-`.
   * `sum` holds the closed terms, `join` the operator that adds the open term
   * `term` to them, `after` the operator written after `term`, and `rest`
   * the entries still to read.  The operator after the last entry is ignored.
   */
  function Terms(sum: int, join: char, term: int, after: char, rest: seq<Op>): int
    requires join == '+' || join == '-'
    requires rest != [] ==> IsOperatorChar(after) && (after == '/' ==> rest[0].value != 0)
    requires forall k :: 0 <= k < |rest| - 1 ==> IsOperator(rest[k])
    requires DivisorsNonZero(rest)
    decreases |rest|
  {
    if rest == [] then Apply(join, sum, term)
    else
      assert |rest| > 1 ==> IsOperator(rest[0]);
      if after == '*' || after == '/' then Terms(sum, join, Apply(after, term, rest[0].value), rest[0].op, rest[1..])
      else Terms(Apply(join, sum, term), after, rest[0].value, rest[0].op, rest[1..])
  }

  function Value(ops: seq<Op>): int
    requires WellFormed(ops) && DivisorsNonZero(ops)
  {
    Terms(0, '+', ops[0].value, ops[0].op, ops[1..])
  }

  /** `d*-1` means `-d`: the entries of a term multiplied by a bare `-` and the closing `1`. */
  lemma NegatedValue(d: int)
    ensures Reducible([Op(d, '*', 2), Op(-1, '*', 2), Op(1, ' ', 0)])
    ensures Value([Op(d, '*', 2), Op(-1, '*', 2), Op(1, ' ', 0)]) == -d
  {
    var ops := [Op(d, '*', 2), Op(-1, '*', 2), Op(1, ' ', 0)];
    var last := [Op(1, ' ', 0)];
    assert ops[1..] == [Op(-1, '*', 2)] + last;
    assert Terms(0, '+', -d, ' ', []) == -d;
    assert Terms(0, '+', -d, '*', last) == -d by {
      assert last[1..] == [];
    }
    assert Terms(0, '+', d, '*', ops[1..]) == Terms(0, '+', -d, '*', last) by {
      assert ops[1..][0].value == -1 && ops[1..][1..] == last;
    }
  }

  // ----- the loop as written -----

  /**
   * The reduction loop as the source writes it, from position `i`: after a
   * combination the scan stays where it is instead of going back, so an
   * operator left of `i` can be applied after one to its right.  `None` is the
   * panic on a zero divisor.
   */
  function Sweep(ops: seq<Op>, i: nat): (r: Option<int>)
    requires WellFormed(ops) && Terminates(ops) && i < |ops|
    decreases |ops|, if i == |ops| - 1 then |ops| else |ops| - 1 - i
  {
    if |ops| == 1 then Some(ops[0].value)
    else
      var j := if i == |ops| - 1 then 0 else i;
      if ops[j].priority >= ops[j + 1].priority then
        if ops[j].op == '/' && ops[j + 1].value == 0 then None
        else
          CombineShape(ops, j);
          Sweep(Combine(ops, j), j)
      else Sweep(ops, j + 1)
  }

  /** The entries of `1-2*3-4`. */
  function Example(): seq<Op> {
    [Op(1, '-', 1), Op(2, '*', 2), Op(3, '-', 1), Op(4, ' ', 0)]
  }

  /** On `1-2*3-4` the loop as written computes `1-(2*3-4) = -1`; the expression means `1-6-4 = -9`. */
  lemma SweepCounterexample()
    ensures Reducible(Example())
    ensures Sweep(Example(), 0) == Some(-1)
    ensures Value(Example()) == -9
  {
    var e := Example();
    assert Sweep(e, 0) == Sweep(e, 1);
    var e1 := [Op(1, '-', 1), Op(6, '-', 1), Op(4, ' ', 0)];
    assert Combine(e, 1) == e1;
    assert Sweep(e, 1) == Sweep(e1, 1);
    var e2 := [Op(1, '-', 1), Op(2, ' ', 0)];
    assert Combine(e1, 1) == e2;
    assert Sweep(e1, 1) == Sweep(e2, 1);
    assert Combine(e2, 0) == [Op(-1, ' ', 0)];
    assert Sweep(e2, 1) == Some(-1);
  }

  /**
   * The reduction loop as the source writes it: after a combination the scan
   * stays at `i`, and it goes back to 0 only from the last position.  `None`
   * is the panic on a zero divisor.
   */
  method ReduceAsWritten(start: seq<Op>) returns (r: Option<int>)
    requires WellFormed(start) && Terminates(start)
    ensures r == Sweep(start, 0)
  {
    var ops := start;
    var i := 0;
    while true
      invariant WellFormed(ops) && Terminates(ops) && i < |ops|
      invariant Sweep(ops, i) == Sweep(start, 0)
      decreases |ops|, if i == |ops| - 1 then |ops| else |ops| - 1 - i
    {
      if |ops| == 1 {
        return Some(ops[0].value);
      }
      if i == |ops| - 1 {
        i := 0;
      }
      var left := ops[i];
      var right := ops[i + 1];
      if left.priority >= right.priority {
        if left.op == '/' && right.value == 0 {
          return None;
        }
        CombineShape(ops, i);
        ops := ops[..i] + [Op(Apply(left.op, left.value, right.value), right.op, right.priority)] + ops[i + 2..];
      } else {
        i := i + 1;
      }
    }
  }

  /** All operators of one priority: no precedence to get wrong, so the loop as written gives the value the expression means. */
  predicate OnePriority(ops: seq<Op>) {
    forall k :: 0 <= k < |ops| - 1 ==> ops[k].priority == ops[0].priority
  }

  lemma {:induction false} SweepOnePriority(ops: seq<Op>)
    requires Reducible(ops) && OnePriority(ops)
    ensures Sweep(ops, 0) == Some(Value(ops))
    decreases |ops|
  {
    if |ops| == 1 {
      assert Value(ops) == Terms(0, '+', ops[0].value, ops[0].op, []);
    } else {
      assert ops[0].priority >= ops[1].priority;
      CombineAtHead(ops);
      var c := Combine(ops, 0);
      assert forall j :: 1 <= j < |c| ==> c[j] == ops[j + 1];
      assert OnePriority(c);
      SweepOnePriority(c);
    }
  }

  // ----- the loop corrected -----

  /** Combining keeps every divisor non-zero, as long as the entry before the pair is no division. */
  lemma CombineDivisors(ops: seq<Op>, i: nat)
    requires DivisorsNonZero(ops) && Combinable(ops, i) && (i > 0 ==> ops[i - 1].op != '/')
    ensures DivisorsNonZero(Combine(ops, i))
  {
    var r := Combine(ops, i);
    assert forall k :: 0 <= k < |r| ==> r[k] == (if k < i then ops[k] else if k == i then r[i] else ops[k + 1]);
  }

  /** A `*` or `/` at the head: the head term takes one more factor. */
  lemma CombineProduct(ops: seq<Op>)
    requires WellFormed(ops) && DivisorsNonZero(ops) && |ops| >= 2 && (ops[0].op == '*' || ops[0].op == '/')
    requires WellFormed(Combine(ops, 0)) && DivisorsNonZero(Combine(ops, 0))
    ensures Value(Combine(ops, 0)) == Value(ops)
  {
    var c := Combine(ops, 0);
    assert c[1..] == ops[2..] && ops[1..][1..] == ops[2..];
  }

  /** A `+` or `-` at the head followed by the end: the last two terms are joined. */
  lemma CombineLastSum(ops: seq<Op>)
    requires WellFormed(ops) && DivisorsNonZero(ops) && |ops| == 2 && (ops[0].op == '+' || ops[0].op == '-')
    requires WellFormed(Combine(ops, 0)) && DivisorsNonZero(Combine(ops, 0))
    ensures Value(Combine(ops, 0)) == Value(ops)
  {
    var c := Combine(ops, 0);
    assert c[1..] == [] && ops[1..][1..] == [];
    assert Value(ops) == Terms(ops[0].value, ops[0].op, ops[1].value, ops[1].op, []);
  }

  /** A `+` or `-` at the head followed by another: the first two terms are joined. */
  lemma CombineSum(ops: seq<Op>)
    requires WellFormed(ops) && DivisorsNonZero(ops) && |ops| > 2
    requires (ops[0].op == '+' || ops[0].op == '-') && (ops[1].op == '+' || ops[1].op == '-')
    requires WellFormed(Combine(ops, 0)) && DivisorsNonZero(Combine(ops, 0))
    ensures Value(Combine(ops, 0)) == Value(ops)
  {
    var c := Combine(ops, 0);
    var a := c[0].value;
    assert c[1..] == ops[2..] && ops[1..][1..] == ops[2..] && ops[2..][1..] == ops[3..];
    assert Value(ops) == Terms(ops[0].value, ops[0].op, ops[1].value, ops[1].op, ops[2..]);
    assert Value(ops) == Terms(a, ops[1].op, ops[2].value, ops[2].op, ops[3..]);
    assert Value(c) == Terms(a, ops[1].op, ops[2].value, ops[2].op, ops[3..]);
  }

  /** The first pair is combinable: whatever its shape, the value stays. */
  lemma CombineAtHead(ops: seq<Op>)
    requires Reducible(ops) && |ops| >= 2 && ops[0].priority >= ops[1].priority
    ensures Combinable(ops, 0) && Reducible(Combine(ops, 0)) && Value(Combine(ops, 0)) == Value(ops)
  {
    CombineShape(ops, 0);
    CombineDivisors(ops, 0);
    if ops[0].op == '*' || ops[0].op == '/' {
      CombineProduct(ops);
    } else if |ops| == 2 {
      CombineLastSum(ops);
    } else {
      assert IsOperator(ops[1]);
      CombineSum(ops);
    }
  }

  /** A `+` or `-` at the head and a `*` or `/` after it: the second term takes one more factor. */
  lemma CombineAfterHead(ops: seq<Op>)
    requires Reducible(ops) && |ops| > 2 && ops[0].priority < ops[1].priority
    ensures Combinable(ops, 1) && Reducible(Combine(ops, 1)) && Value(Combine(ops, 1)) == Value(ops)
  {
    CombineShape(ops, 1);
    CombineDivisors(ops, 1);
    var c := Combine(ops, 1);
    assert c[0] == ops[0] && c[1..][0] == c[1];
    assert c[1..][1..] == ops[3..] && ops[1..][1..] == ops[2..] && ops[2..][1..] == ops[3..];
    assert Value(ops) == Terms(ops[0].value, ops[0].op, ops[1].value, ops[1].op, ops[2..]);
    assert Value(ops) == Terms(ops[0].value, ops[0].op, c[1].value, ops[2].op, ops[3..]);
    assert Value(c) == Terms(ops[0].value, ops[0].op, c[1].value, ops[2].op, ops[3..]);
  }

  /**
   * The reduction loop with the scan going back to the start after every
   * combination, as the precedence rules need. Only the first two positions
   * are ever looked at: an entry of priority 2 always combines with its right
   * neighbour.
   */
  method Reduce(start: seq<Op>) returns (v: int)
    requires Reducible(start)
    ensures v == Value(start)
  {
    var ops := start;
    var i := 0;
    while true
      invariant Reducible(ops) && Value(ops) == Value(start)
      invariant i == 0 || (i == 1 && |ops| > 2 && ops[0].priority < ops[1].priority)
      decreases |ops|, 1 - i
    {
      if |ops| == 1 {
        return ops[0].value;
      }
      if i == |ops| - 1 {
        i := 0;
      }
      var l := ops[i];
      var r := ops[i + 1];
      if l.priority >= r.priority {
        if i == 0 {
          CombineAtHead(ops);
        } else {
          CombineAfterHead(ops);
        }
        ops := ops[..i] + [Op(Apply(l.op, l.value, r.value), r.op, r.priority)] + ops[i + 2..];
        i := 0;
      } else {
        i := i + 1;
      }
    }
  }
}
