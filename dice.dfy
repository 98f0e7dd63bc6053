/**
 * `Random` (src/evaluation.rs): the dice that story expressions roll.
 *
 * The seeded generator is modelled as the stream of raw outputs it will
 * produce, consumed from the front; `gen_range(lo..=hi)` turns one raw
 * output into a value of the range.  Two generators built from the same
 * seed hold the same stream, so every result below is a function of the
 * stream and the arguments, and the same calls give the same values.
 */
module Dice {
  import opened Wrappers
  import opened Strings

  /** One `gen_range(lo..=hi)`: a raw output mapped into the range. */
  function Draw(raw: nat, lo: int, hi: int): (v: int)
    requires lo <= hi
    ensures lo <= v <= hi
  {
    lo + raw % (hi - lo + 1)
  }

  /** Every value of the range is the draw of some raw output: the model does not narrow the generator. */
  lemma DrawReaches(lo: int, hi: int, v: int)
    requires lo <= v <= hi
    ensures Draw((v - lo) as nat, lo, hi) == v
  {
  }

  /** `Random::die`: a single draw in `[amount, amount * sides]`, not a sum of `amount` rolls. */
  function DieValue(raw: nat, amount: int, sides: int): (v: int)
    requires amount > 0 && sides > 0
    ensures amount <= v <= amount * sides
  {
    Draw(raw, amount, amount * sides)
  }

  /** Whether `die(1, sides)` scored for a pool: at or above `threshold`, or at or below it for `pool_reverse`. */
  predicate Scores(roll: int, threshold: int, reverse: bool) {
    if reverse then roll <= threshold else roll >= threshold
  }

  /** The number of the first `n` raw outputs whose one-die roll scores. */
  function PoolCount(raws: seq<nat>, n: nat, sides: int, threshold: int, reverse: bool): (c: nat)
    requires n <= |raws| && sides > 0
    ensures c <= n
  {
    if n == 0 then 0
    else
      var roll := DieValue(raws[n - 1], 1, sides);
      PoolCount(raws, n - 1, sides, threshold, reverse) + (if Scores(roll, threshold, reverse) then 1 else 0)
  }

  /** A pool counts exactly the rolls that score: it is full when all of them do and empty when none does. */
  lemma {:induction false} PoolCountExtremes(raws: seq<nat>, n: nat, sides: int, threshold: int, reverse: bool)
    requires n <= |raws| && sides > 0
    ensures PoolCount(raws, n, sides, threshold, reverse) == n
      <==> forall k :: 0 <= k < n ==> Scores(DieValue(raws[k], 1, sides), threshold, reverse)
    ensures PoolCount(raws, n, sides, threshold, reverse) == 0
      <==> forall k :: 0 <= k < n ==> !Scores(DieValue(raws[k], 1, sides), threshold, reverse)
  {
    if n > 0 {
      PoolCountExtremes(raws, n - 1, sides, threshold, reverse);
    }
  }

  /** A threshold of one scores every roll of a plain pool, so it counts every die. */
  lemma {:induction false} PoolOfOne(raws: seq<nat>, n: nat, sides: int)
    requires n <= |raws| && sides > 0
    ensures PoolCount(raws, n, sides, 1, false) == n
  {
    if n > 0 {
      PoolOfOne(raws, n - 1, sides);
    }
  }

  /**
   * `Random::die_explode` on a stream: the sum and the number of raw outputs
   * used when `dice` exploding dice are rolled, each die rolling again while it
   * shows `sides`; `None` when the stream ends first.
   */
  function Exploding(raws: seq<nat>, dice: nat, sides: int): (r: Option<(int, nat)>)
    requires sides > 0
    ensures r.Some? ==> dice <= r.value.0 && dice <= r.value.1 <= |raws|
    decreases |raws|
  {
    if dice == 0 then Some((0, 0))
    else if raws == [] then None
    else
      var roll := DieValue(raws[0], 1, sides);
      var left := if roll == sides then dice else dice - 1;
      match Exploding(raws[1..], left, sides)
      case None => None
      case Some(done) => Some((done.0 + roll, done.1 + 1))
  }

  /** No die shows more than `sides`, so the sum is at most `sides` per raw output used. */
  lemma {:induction false} ExplodingBound(raws: seq<nat>, dice: nat, sides: int)
    requires sides > 0 && Exploding(raws, dice, sides).Some?
    ensures Exploding(raws, dice, sides).value.0 <= Exploding(raws, dice, sides).value.1 * sides
    decreases |raws|
  {
    if dice > 0 {
      var roll := DieValue(raws[0], 1, sides);
      var left := if roll == sides then dice else dice - 1;
      ExplodingBound(raws[1..], left, sides);
      var done := Exploding(raws[1..], left, sides).value;
      assert Exploding(raws, dice, sides).value == (done.0 + roll, done.1 + 1);
      BoundStep(done.0, done.1, roll, sides);
    }
  }

  lemma BoundStep(sum: int, used: nat, roll: int, sides: int)
    requires sum <= used * sides && roll <= sides
    ensures sum + roll <= (used + 1) * sides
  {
    assert (used + 1) * sides == used * sides + sides;
  }

  /** A one-sided die always shows its maximum, so exploding it never ends: no stream is long enough. */
  lemma {:induction false} ExplodingOneSide(raws: seq<nat>, dice: nat)
    requires dice > 0
    ensures Exploding(raws, dice, 1) == None
    decreases |raws|
  {
    if raws != [] {
      ExplodingOneSide(raws[1..], dice);
    }
  }

  /** When no roll shows the maximum, an exploding throw is a plain sum of one draw per die. */
  lemma {:induction false} ExplodingWithoutMaximum(raws: seq<nat>, dice: nat, sides: int)
    requires sides > 0 && dice <= |raws|
    requires forall k :: 0 <= k < dice ==> DieValue(raws[k], 1, sides) != sides
    ensures Exploding(raws, dice, sides) == Some((RollSum(raws, dice, sides), dice))
  {
    if dice > 0 {
      ExplodingWithoutMaximum(raws[1..], dice - 1, sides);
      RollSumShift(raws, dice, sides);
    }
  }

  /** The sum of one-die draws over the first `n` raw outputs. */
  function RollSum(raws: seq<nat>, n: nat, sides: int): int
    requires n <= |raws| && sides > 0
  {
    if n == 0 then 0 else RollSum(raws, n - 1, sides) + DieValue(raws[n - 1], 1, sides)
  }

  lemma {:induction false} RollSumShift(raws: seq<nat>, n: nat, sides: int)
    requires 0 < n <= |raws| && sides > 0
    ensures RollSum(raws, n, sides) == DieValue(raws[0], 1, sides) + RollSum(raws[1..], n - 1, sides)
  {
    if n > 1 {
      RollSumShift(raws, n - 1, sides);
    }
  }

  class Random {
    /** The generator outputs not drawn yet. */
    var rolls: seq<nat>

    /** `Random::new(seed)`, given the stream that the seed produces. */
    constructor (stream: seq<nat>)
      ensures rolls == stream
    {
      rolls := stream;
    }

    /** `die`: one draw; panics unless `amount` and `sides` are positive, and (in debug builds) when `amount * sides` overflows. */
    method Die(amount: int, sides: int) returns (v: int)
      requires amount > 0 && sides > 0 && amount * sides <= I32Max
      requires |rolls| >= 1
      modifies this
      ensures v == DieValue(old(rolls)[0], amount, sides)
      ensures rolls == old(rolls)[1..]
    {
      v := DieValue(rolls[0], amount, sides);
      rolls := rolls[1..];
    }

    /** `pool`: rolls `amount` one-dice and counts those at or above `threshold`. */
    method Pool(amount: int, sides: int, threshold: int) returns (count: int)
      requires sides > 0 && amount > 0 && threshold > 0 && sides <= I32Max
      requires |rolls| >= amount
      modifies this
      ensures count == PoolCount(old(rolls), amount, sides, threshold, false)
      ensures rolls == old(rolls)[amount..]
    {
      ghost var start := rolls;
      count := 0;
      for k := 0 to amount
        invariant rolls == start[k..]
        invariant count == PoolCount(start, k, sides, threshold, false)
      {
        var roll := Die(1, sides);
        if roll >= threshold {
          count := count + 1;
        }
      }
    }

    /** `pool_reverse`: rolls `amount` one-dice and counts those at or below `threshold`. */
    method PoolReverse(amount: int, sides: int, threshold: int) returns (count: int)
      requires sides > 0 && amount > 0 && threshold > 0 && sides <= I32Max
      requires |rolls| >= amount
      modifies this
      ensures count == PoolCount(old(rolls), amount, sides, threshold, true)
      ensures rolls == old(rolls)[amount..]
    {
      ghost var start := rolls;
      count := 0;
      for k := 0 to amount
        invariant rolls == start[k..]
        invariant count == PoolCount(start, k, sides, threshold, true)
      {
        var roll := Die(1, sides);
        if roll <= threshold {
          count := count + 1;
        }
      }
    }

    /**
     * `die_explode`: `amount` dice, each rolled again while it shows `sides`.
     * The source loops forever when the stream never stops showing the maximum
     * (always, for one side) and overflows when the sum leaves `i32`; the
     * precondition asks for a stream on which the throw ends inside the range.
     */
    method DieExplode(amount: int, sides: int) returns (counter: int)
      requires amount > 0 && sides > 0 && sides <= I32Max
      requires Exploding(rolls, amount, sides).Some?
      requires Exploding(rolls, amount, sides).value.0 <= I32Max
      modifies this
      ensures counter == Exploding(old(rolls), amount, sides).value.0
      ensures rolls == old(rolls)[Exploding(old(rolls), amount, sides).value.1..]
    {
      ghost var start := rolls;
      ghost var total := Exploding(start, amount, sides).value;
      counter := 0;
      for k := 0 to amount
        invariant |rolls| <= |start| && rolls == start[|start| - |rolls|..]
        invariant Exploding(rolls, amount - k, sides).Some?
        invariant counter + Exploding(rolls, amount - k, sides).value.0 == total.0
        invariant |start| - |rolls| + Exploding(rolls, amount - k, sides).value.1 == total.1
      {
        while true
          invariant |rolls| <= |start| && rolls == start[|start| - |rolls|..]
          invariant Exploding(rolls, amount - k, sides).Some?
          invariant counter + Exploding(rolls, amount - k, sides).value.0 == total.0
          invariant |start| - |rolls| + Exploding(rolls, amount - k, sides).value.1 == total.1
          decreases |rolls|
        {
          ghost var before := rolls;
          var r := Die(1, sides);
          counter := counter + r;
          assert rolls == before[1..];
          if r != sides {
            break;
          }
        }
      }
    }
  }
}
