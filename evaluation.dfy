/**
 * `evaluate_expression`, `evaluate_and_compare` and `evaluate_result`
 * (src/evaluation.rs): the story's arithmetic and dice expressions.
 *
 * Each operation is specified by a function from the expression, the record
 * table and the generator's remaining stream to an `Outcome`, and carried out
 * by a method that works the way the source does, proved to deliver that
 * outcome.  Records are looked up by keyword; their values are whole numbers.
 */
module Evaluation {
  import opened Wrappers
  import opened Strings
  import opened Dice
  import opened Reduction
  import AdventureFormat

  /**
   * What an evaluation comes to: a value and the stream left over, an error
   * and the stream left over, or `Stuck` when the source panics or never
   * returns (or the stream ends before it would).
   */
  datatype Outcome<+T, +E> = Done(value: T, rest: seq<nat>) | Failed(error: E, rest: seq<nat>) | Stuck

  /** A method's result and the generator's new stream are the ones `o` describes. */
  predicate Delivers<T(==), E(==)>(o: Outcome<T, E>, r: Result<T, E>, rolls: seq<nat>) {
    match o
    case Done(v, rest) => r == Ok(v) && rolls == rest
    case Failed(e, rest) => r == Err(e) && rolls == rest
    case Stuck => false
  }

  type Records = map<string, AdventureFormat.Record>

  // ----- record substitution -----

  /** `x.replace("[", "").replace("]", "")`. */
  function WithoutBrackets(s: string): (r: string)
    ensures NoneIn(r, {'[', ']'})
    ensures forall i :: 0 <= i < |s| ==> s[i] !in {'[', ']'} ==> s[i] in r
  {
    if s == [] then []
    else (if s[0] == '[' || s[0] == ']' then [] else [s[0]]) + WithoutBrackets(s[1..])
  }

  /** `eval_rec`: the value of the record named between the brackets, `"0"` when there is none. */
  function RecordText(val: string, records: Records): (t: string)
    ensures '[' !in t && ']' !in t
  {
    var name := WithoutBrackets(val);
    if name in records then
      var v := records[name].value;
      IntToStringChars(v, '[');
      IntToStringChars(v, ']');
      IntToString(v)
    else "0"
  }

  /** Replacing the first `[...]` by a bracket-free text leaves at least one `[` fewer. */
  lemma SubstituteShrinks(exp: string, start: nat, end: nat, t: string)
    requires start <= end < |exp| && exp[start] == '[' && NoneIn(exp[..start], {'['}) && '[' !in t
    ensures multiset(exp[..start] + t + exp[end + 1..])['['] < multiset(exp)['[']
  {
    assert exp == exp[..start] + exp[start..end + 1] + exp[end + 1..];
    assert '[' !in exp[..start];
    assert exp[start..end + 1][0] == '[';
  }

  /**
   * The `while exp.contains('[')` loop: each round replaces the text from the
   * first `[` to the first `]` by the record it names.  `None` is the panic
   * when no `]` is left, or when the first `]` comes before the first `[`.
   */
  function Substituted(exp: string, records: Records): (r: Option<string>)
    ensures r.Some? ==> '[' !in r.value
    decreases multiset(exp)['[']
  {
    match FirstIn(exp, {'['})
    case None => Some(exp)
    case Some(start) =>
      match FirstIn(exp, {']'})
      case None => None
      case Some(end) =>
        if end < start then None
        else
          var t := RecordText(exp[start..end + 1], records);
          SubstituteShrinks(exp, start, end, t);
          Substituted(exp[..start] + t + exp[end + 1..], records)
  }

  /** A text without brackets is left alone. */
  lemma SubstitutedPlain(exp: string, records: Records)
    requires '[' !in exp
    ensures Substituted(exp, records) == Some(exp)
  {
    assert FirstIn(exp, {'['}).None?;
  }

  /** One round of the loop: the first `[...]` is replaced by the record it names. */
  lemma SubstitutedRound(exp: string, start: nat, end: nat, records: Records)
    requires FirstIn(exp, {'['}) == Some(start) && FirstIn(exp, {']'}) == Some(end) && start <= end < |exp|
    ensures Substituted(exp, records)
      == Substituted(exp[..start] + RecordText(exp[start..end + 1], records) + exp[end + 1..], records)
  {
  }

  /** A record reference at the front is replaced by the record's value, or by `0` when the story has no such record. */
  lemma SubstitutedRecord(name: string, tail: string, records: Records)
    requires NoneIn(name, {'[', ']'}) && '[' !in tail
    ensures Substituted("[" + name + "]" + tail, records)
      == Some((if name in records then IntToString(records[name].value) else "0") + tail)
  {
    var val := "[" + name + "]";
    var exp := val + tail;
    assert exp[0] == '[';
    assert FirstIn(exp, {'['}) == Some(0);
    assert ("[" + name) + [']'] + tail == exp;
    FirstInAfter("[" + name, ']', tail, {']'});
    SubstitutedRound(exp, 0, |name| + 1, records);
    assert exp[0..|name| + 2] == val && exp[..0] == [] && exp[|name| + 2..] == tail;
    RecordTextOf(name, records);
    assert [] + RecordText(val, records) + tail == RecordText(val, records) + tail;
    SubstitutedPlain(RecordText(val, records) + tail, records);
  }

  /** `eval_rec` on `[name]` looks the name up. */
  lemma RecordTextOf(name: string, records: Records)
    requires NoneIn(name, {'[', ']'})
    ensures RecordText("[" + name + "]", records) == if name in records then IntToString(records[name].value) else "0"
  {
    var val := "[" + name + "]";
    assert val[0] == '[' && val[1..] == name + "]";
    WithoutBracketsAppend(name, "]");
    assert WithoutBrackets(val) == name;
  }

  lemma {:induction false} WithoutBracketsAppend(a: string, b: string)
    requires NoneIn(a, {'[', ']'}) && (b == "]" || b == [])
    ensures WithoutBrackets(a + b) == a
    decreases |a|
  {
    if a == [] {
      if b != [] {
        assert b[1..] == [];
      }
    } else {
      assert (a + b)[1..] == a[1..] + b;
      WithoutBracketsAppend(a[1..], b);
    }
  }

  // ----- die terms and numbers -----

  /** Every part of a die term read as an `i32`, as the `map` in `eval_die` does. */
  function Parsed(parts: seq<string>): (r: seq<Option<int>>)
    ensures |r| == |parts|
    ensures forall k :: 0 <= k < |r| ==> r[k] == ParseI32(parts[k])
  {
    if parts == [] then [] else [ParseI32(parts[0])] + Parsed(parts[1..])
  }

  /** Where the last of the first `n` parts that is not an `i32` is: the failure whose message `eval_die` keeps. */
  function LastBad(vals: seq<Option<int>>, n: nat): (r: Option<nat>)
    requires n <= |vals|
    ensures r.None? <==> forall k :: 0 <= k < n ==> vals[k].Some?
    ensures r.Some? ==> r.value < n && vals[r.value].None?
    ensures r.Some? ==> forall j :: r.value < j < n ==> vals[j].Some?
  {
    if n == 0 then None
    else if vals[n - 1].None? then Some(n - 1)
    else LastBad(vals, n - 1)
  }

  /** The values of parts that all parsed. */
  function Numbers(vals: seq<Option<int>>): (r: seq<int>)
    requires forall k :: 0 <= k < |vals| ==> vals[k].Some?
    ensures |r| == |vals|
    ensures forall k :: 0 <= k < |r| ==> vals[k] == Some(r[k])
  {
    if vals == [] then [] else [vals[0].value] + Numbers(vals[1..])
  }

  /** `rand.die(amount, sides)`, stuck on the asserts, the overflow of `amount * sides`, or an exhausted stream. */
  function ThrowDie(amount: int, sides: int, rolls: seq<nat>): (o: Outcome<int, string>)
    ensures !o.Failed?
    ensures o.Done? <==> amount > 0 && sides > 0 && amount * sides <= I32Max && rolls != []
    ensures o.Done? ==> 1 <= o.value <= I32Max && o.rest == rolls[1..]
  {
    if amount > 0 && sides > 0 && amount * sides <= I32Max && rolls != [] then
      Done(DieValue(rolls[0], amount, sides), rolls[1..])
    else Stuck
  }

  /** `rand.pool` / `rand.pool_reverse`, stuck on the asserts or a stream shorter than the pool. */
  function ThrowPool(amount: int, sides: int, threshold: int, reverse: bool, rolls: seq<nat>): (o: Outcome<int, string>)
    ensures !o.Failed?
    ensures o.Done? <==> amount > 0 && sides > 0 && threshold > 0 && |rolls| >= amount
    ensures o.Done? ==> 0 <= o.value <= amount && o.rest == rolls[amount..]
  {
    if amount > 0 && sides > 0 && threshold > 0 && |rolls| >= amount then
      Done(PoolCount(rolls, amount, sides, threshold, reverse), rolls[amount..])
    else Stuck
  }

  /** `rand.die_explode`, stuck on the asserts, a throw that never ends, or a sum beyond `i32`. */
  function ThrowExploding(amount: int, sides: int, rolls: seq<nat>): (o: Outcome<int, string>)
    ensures !o.Failed?
    ensures o.Done? ==> amount <= o.value <= I32Max
  {
    if amount > 0 && sides > 0 then
      match Exploding(rolls, amount, sides)
      case None => Stuck
      case Some(done) => if done.0 <= I32Max then Done(done.0, rolls[done.1..]) else Stuck
    else Stuck
  }

  /** The marks `eval_die` cuts a term at: the die mark and the pool mark if there is one. */
  function Marks(typ: char, pool: Option<char>): set<char> {
    if pool.Some? then {typ, pool.value} else {typ}
  }

  function DieMessage(x: string): string {
    "Die roll evaluation needs a die expression, like '1d6', got '" + x + "' instead."
  }

  function PoolMessage(x: string): string {
    "Dice pool evaluation needs a die expression, like '4d6p4', got '" + x + "' instead."
  }

  /**
   * `eval_die`: every part must be an `i32`; then a plain die needs two parts
   * and a pool three.  `d` throws one die or a pool (`p` counts rolls at or
   * above the threshold, `q` at or below), `x` an exploding throw.
   */
  function DieTerm(x: string, typ: char, pool: Option<char>, rolls: seq<nat>): (o: Outcome<int, string>)
    requires typ == 'd' || typ == 'x'
    requires pool == None || pool == Some('p') || pool == Some('q')
    ensures o.Done? ==> InI32(o.value)
  {
    var parts := DieParts(x, typ, pool);
    DieThrow(x, typ, pool, parts, Parsed(parts), rolls)
  }

  /** The parts `eval_die` cuts a term into. */
  function DieParts(x: string, typ: char, pool: Option<char>): seq<string> {
    Split(x, Marks(typ, pool))
  }

  /** How many parts a term needs: two for a die, three for a pool. */
  function Arity(pool: Option<char>): nat {
    if pool.None? then 2 else 3
  }

  /** `eval_die` once the parts are parsed into `vals`. */
  function DieThrow(x: string, typ: char, pool: Option<char>, parts: seq<string>, vals: seq<Option<int>>, rolls: seq<nat>): (o: Outcome<int, string>)
    requires typ == 'd' || typ == 'x'
    requires pool == None || pool == Some('p') || pool == Some('q')
    requires |vals| == |parts| && forall k :: 0 <= k < |vals| ==> vals[k].Some? ==> InI32(vals[k].value)
    ensures o.Done? ==> InI32(o.value)
  {
    match LastBad(vals, |vals|)
    case Some(bad) => Failed("Couldn't process " + parts[bad], rolls)
    case None =>
      var r := Numbers(vals);
      assert |r| > 0 ==> vals[0] == Some(r[0]) && InI32(r[0]);
      if pool.None? && |r| != 2 then Failed(DieMessage(x), rolls)
      else if pool.Some? && |r| != 3 then Failed(PoolMessage(x), rolls)
      else Throw(typ, pool, r, rolls)
  }

  /** The `match typ` of `eval_die`: the throw a term with the right number of parts makes. */
  function Throw(typ: char, pool: Option<char>, r: seq<int>, rolls: seq<nat>): (o: Outcome<int, string>)
    requires typ == 'd' || typ == 'x'
    requires pool == None || pool == Some('p') || pool == Some('q')
    requires |r| == Arity(pool) && InI32(r[0])
    ensures !o.Failed?
    ensures o.Done? ==> InI32(o.value)
  {
    if typ == 'x' then ThrowExploding(r[0], r[1], rolls)
    else if pool == Some('p') then ThrowPool(r[0], r[1], r[2], false, rolls)
    else if pool == Some('q') then ThrowPool(r[0], r[1], r[2], true, rolls)
    else ThrowDie(r[0], r[1], rolls)
  }

  /** The pool mark of a die term: `p` wins over `q`. */
  function PoolMark(x: string): (m: Option<char>)
    ensures m == None || m == Some('p') || m == Some('q')
  {
    if 'p' in x then Some('p') else if 'q' in x then Some('q') else None
  }

  /** `eval_exp`: a term holding a `d` is a die or pool, else one holding an `x` an exploding throw, else an `i32` literal. */
  function Term(x: string, rolls: seq<nat>): (o: Outcome<int, string>)
    ensures o.Done? ==> InI32(o.value)
  {
    if 'd' in x then DieTerm(x, 'd', PoolMark(x), rolls)
    else if 'x' in x then DieTerm(x, 'x', PoolMark(x), rolls)
    else match ParseI32(x)
      case Some(v) => Done(v, rolls)
      case None => Failed(x + " doesn't appear to be a valid number", rolls)
  }

  /** A term with no die mark evaluates exactly when it is an `i32`, and draws nothing. */
  lemma TermLiteral(x: string, rolls: seq<nat>)
    requires 'd' !in x && 'x' !in x
    ensures Term(x, rolls).Done? <==> ParseI32(x).Some?
    ensures Term(x, rolls).Done? ==> Term(x, rolls) == Done(ParseI32(x).value, rolls)
    ensures Term(x, rolls).Failed? ==> Term(x, rolls).error == x + " doesn't appear to be a valid number"
  {
  }

  /** A number the model wrote back into the text reads as itself. */
  lemma TermOfNumber(v: int, rolls: seq<nat>)
    requires InI32(v)
    ensures Term(IntToString(v), rolls) == Done(v, rolls)
  {
    IntToStringChars(v, 'd');
    IntToStringChars(v, 'x');
    ParseIntToString(v);
  }

  /**
   * A die term is an error exactly when one of its parts is not an `i32` or
   * it has the wrong number of parts; an error draws nothing.
   */
  lemma DieThrowFails(x: string, typ: char, pool: Option<char>, parts: seq<string>, vals: seq<Option<int>>, rolls: seq<nat>)
    requires typ == 'd' || typ == 'x'
    requires pool == None || pool == Some('p') || pool == Some('q')
    requires |vals| == |parts| && forall k :: 0 <= k < |vals| ==> vals[k].Some? ==> InI32(vals[k].value)
    ensures DieThrow(x, typ, pool, parts, vals, rolls).Failed? <==>
      (exists k :: 0 <= k < |vals| && vals[k].None?) || |vals| != Arity(pool)
    ensures DieThrow(x, typ, pool, parts, vals, rolls).Failed? ==> DieThrow(x, typ, pool, parts, vals, rolls).rest == rolls
  {
    var bad := LastBad(vals, |vals|);
    if bad.Some? {
      assert vals[bad.value].None?;
    }
  }

  /** The message for a part that is not an `i32` names the last such part. */
  lemma DieThrowBadPart(x: string, typ: char, pool: Option<char>, parts: seq<string>, vals: seq<Option<int>>, rolls: seq<nat>, k: nat)
    requires typ == 'd' || typ == 'x'
    requires pool == None || pool == Some('p') || pool == Some('q')
    requires |vals| == |parts| && forall k :: 0 <= k < |vals| ==> vals[k].Some? ==> InI32(vals[k].value)
    requires k < |vals| && vals[k].None? && forall j :: k < j < |vals| ==> vals[j].Some?
    ensures DieThrow(x, typ, pool, parts, vals, rolls) == Failed("Couldn't process " + parts[k], rolls)
  {
    var bad := LastBad(vals, |vals|);
    assert bad.Some?;
    assert bad.value >= k;
  }

  /** With every part an `i32`, a wrong number of parts is reported with the term itself. */
  lemma DieThrowArity(x: string, typ: char, pool: Option<char>, parts: seq<string>, vals: seq<Option<int>>, rolls: seq<nat>)
    requires typ == 'd' || typ == 'x'
    requires pool == None || pool == Some('p') || pool == Some('q')
    requires |vals| == |parts| && forall k :: 0 <= k < |vals| ==> vals[k].Some? ==> InI32(vals[k].value)
    requires (forall k :: 0 <= k < |vals| ==> vals[k].Some?) && |vals| != Arity(pool)
    ensures DieThrow(x, typ, pool, parts, vals, rolls) == Failed(if pool.None? then DieMessage(x) else PoolMessage(x), rolls)
  {
    assert LastBad(vals, |vals|).None?;
  }

  // ----- `l` / `h` chains -----

  predicate IsSelector(c: char) {
    c == 'l' || c == 'h'
  }

  /** The pieces of a chain: none empty, and each but the last ending with its selector. */
  predicate ChainShape(queue: seq<string>) {
    && (forall k :: 0 <= k < |queue| ==> queue[k] != [])
    && (forall k :: 0 <= k < |queue| - 1 ==> IsSelector(queue[k][|queue[k]| - 1]))
  }

  function Min(a: int, b: int): int {
    if a <= b then a else b
  }

  function Max(a: int, b: int): int {
    if a >= b then a else b
  }

  /** `l` keeps the lower of two values, `h` the higher. */
  function Pick(sel: char, first: int, second: int): (v: int)
    ensures v == first || v == second
    ensures sel == 'l' ==> v <= first && v <= second
    ensures sel != 'l' ==> v >= first && v >= second
  {
    if sel == 'l' then Min(second, first) else Max(second, first)
  }

  /** The split of a text that holds a selector is a chain. */
  lemma ChainPieces(exp: string)
    ensures ChainShape(SplitInclusive(exp, {'l', 'h'}))
  {
    SplitInclusivePieces(exp, {'l', 'h'});
    SplitInclusiveTerminated(exp, {'l', 'h'});
  }

  /** A piece ending with a selector can go in front of a chain. */
  lemma ChainCons(head: string, pieces: seq<string>)
    requires head != [] && IsSelector(head[|head| - 1]) && ChainShape(pieces)
    ensures ChainShape([head] + pieces)
  {
    var q := [head] + pieces;
    assert forall k :: 1 <= k < |q| ==> q[k] == pieces[k - 1];
  }

  /** What follows the first pieces of a chain is a chain. */
  lemma ChainSuffix(pieces: seq<string>, n: nat)
    requires n <= |pieces| && ChainShape(pieces)
    ensures ChainShape(pieces[n..])
  {
    assert forall k :: 0 <= k < |pieces| - n ==> pieces[n..][k] == pieces[n + k];
  }

  /** Putting the result back in front keeps the queue a chain. */
  lemma ChainRequeue(queue: seq<string>, res: int)
    requires |queue| >= 3 && ChainShape(queue)
    ensures ChainShape([IntToString(res) + [queue[1][|queue[1]| - 1]]] + queue[2..])
  {
    ChainSuffix(queue, 2);
    ChainCons(IntToString(res) + [queue[1][|queue[1]| - 1]], queue[2..]);
  }

  /**
   * How the loop evaluates one piece of text: `eval_exp`, drawing from the
   * stream. The chain's definitions and lemmas are stated for any evaluator
   * with the two properties below; the model's is `Term`.
   */
  type TermEval = (string, seq<nat>) -> Outcome<int, string>

  /** An evaluator that delivers `i32` values only. */
  ghost predicate Bounded(eval: TermEval) {
    forall x, rolls :: eval(x, rolls).Done? ==> InI32(eval(x, rolls).value)
  }

  /** An evaluator that reads a number written back as text as that number, without drawing. */
  ghost predicate ReadsBack(eval: TermEval) {
    forall v, rolls :: InI32(v) ==> eval(IntToString(v), rolls) == Done(v, rolls)
  }

  /** `eval_exp` has both. */
  lemma TermEvaluator()
    ensures Bounded(Term) && ReadsBack(Term)
  {
    forall v, rolls | InI32(v)
      ensures Term(IntToString(v), rolls) == Done(v, rolls)
    {
      TermOfNumber(v, rolls);
    }
  }

  /**
   * The `VecDeque` loop as written: the first two pieces are evaluated,
   * first then second, without their selectors (the last piece keeps what it
   * ends with); the first piece's selector picks the result, which goes back
   * in front with the second piece's selector while pieces remain.
   */
  function ChainSteps(eval: TermEval, queue: seq<string>, rolls: seq<nat>): (o: Outcome<int, string>)
    requires |queue| >= 2 && ChainShape(queue)
    ensures Bounded(eval) && o.Done? ==> InI32(o.value)
    decreases |queue|
  {
    var first := queue[0];
    var next := queue[1];
    var rest := queue[2..];
    match eval(DropLast(first), rolls)
    case Stuck => Stuck
    case Failed(e, r) => Failed(e, r)
    case Done(a, r1) =>
      match eval(if rest == [] then next else DropLast(next), r1)
      case Stuck => Stuck
      case Failed(e, r) => Failed(e, r)
      case Done(b, r2) =>
        var res := Pick(first[|first| - 1], a, b);
        if rest == [] then Done(res, r2)
        else
          ChainRequeue(queue, res);
          ChainSteps(eval, [IntToString(res) + [next[|next| - 1]]] + rest, r2)
  }

  /**
   * What a chain means: its terms evaluated left to right, each folded into
   * the running value `acc` by the selector written before it.
   */
  function ChainFrom(eval: TermEval, acc: int, sel: char, pieces: seq<string>, rolls: seq<nat>): Outcome<int, string>
    requires |pieces| >= 1 && ChainShape(pieces)
    decreases |pieces|
  {
    var piece := pieces[0];
    match eval(if |pieces| == 1 then piece else DropLast(piece), rolls)
    case Stuck => Stuck
    case Failed(e, r) => Failed(e, r)
    case Done(v, r) =>
      if |pieces| == 1 then Done(Pick(sel, acc, v), r)
      else ChainFrom(eval, Pick(sel, acc, v), piece[|piece| - 1], pieces[1..], r)
  }

  /** A whole chain: its first term starts the fold. */
  function Chain(eval: TermEval, pieces: seq<string>, rolls: seq<nat>): Outcome<int, string>
    requires |pieces| >= 2 && ChainShape(pieces)
  {
    match eval(DropLast(pieces[0]), rolls)
    case Stuck => Stuck
    case Failed(e, r) => Failed(e, r)
    case Done(v, r) => ChainFrom(eval, v, pieces[0][|pieces[0]| - 1], pieces[1..], r)
  }

  /** A value put back in front of the queue reads as itself. */
  lemma RequeuedHead(eval: TermEval, res: int, sel: char, rolls: seq<nat>) returns (head: string)
    requires ReadsBack(eval) && InI32(res) && IsSelector(sel)
    ensures head == IntToString(res) + [sel]
    ensures head != [] && head[|head| - 1] == sel && eval(DropLast(head), rolls) == Done(res, rolls)
  {
    head := IntToString(res) + [sel];
    assert DropLast(head) == IntToString(res);
  }

  /** The text the first of the pieces after the running value is evaluated as. */
  function PieceText(pieces: seq<string>): string
    requires |pieces| >= 1 && ChainShape(pieces)
  {
    if |pieces| == 1 then pieces[0] else DropLast(pieces[0])
  }

  /** One step of the fold: the next term either ends it, with its error or the last pick, or the fold goes on. */
  lemma ChainFromStep(eval: TermEval, acc: int, sel: char, pieces: seq<string>, rolls: seq<nat>)
    requires |pieces| >= 1 && ChainShape(pieces)
    ensures |pieces| > 1 ==> ChainShape(pieces[1..])
    ensures !eval(PieceText(pieces), rolls).Done? ==> ChainFrom(eval, acc, sel, pieces, rolls) == eval(PieceText(pieces), rolls)
    ensures eval(PieceText(pieces), rolls).Done? && |pieces| == 1 ==>
      ChainFrom(eval, acc, sel, pieces, rolls) == Done(Pick(sel, acc, eval(PieceText(pieces), rolls).value), eval(PieceText(pieces), rolls).rest)
    ensures eval(PieceText(pieces), rolls).Done? && |pieces| > 1 ==>
      ChainFrom(eval, acc, sel, pieces, rolls)
      == ChainFrom(eval, Pick(sel, acc, eval(PieceText(pieces), rolls).value), pieces[0][|pieces[0]| - 1], pieces[1..], eval(PieceText(pieces), rolls).rest)
  {
    ChainSuffix(pieces, 1);
  }

  /** A first term that does not deliver ends the loop with its outcome. */
  lemma ChainStepsFirstFails(eval: TermEval, queue: seq<string>, rolls: seq<nat>)
    requires |queue| >= 2 && ChainShape(queue) && !eval(DropLast(queue[0]), rolls).Done?
    ensures ChainSteps(eval, queue, rolls) == eval(DropLast(queue[0]), rolls)
  {
  }

  /** A second term that does not deliver ends the loop with its outcome. */
  lemma ChainStepsSecondFails(eval: TermEval, queue: seq<string>, rolls: seq<nat>, a: int, r1: seq<nat>)
    requires |queue| >= 2 && ChainShape(queue) && eval(DropLast(queue[0]), rolls) == Done(a, r1)
    requires !eval(NextText(queue), r1).Done?
    ensures ChainSteps(eval, queue, rolls) == eval(NextText(queue), r1)
  {
  }

  /** A piece ending with a selector in front of a chain: the queue the loop starts from. */
  lemma ChainConsParts(head: string, pieces: seq<string>) returns (queue: seq<string>)
    requires head != [] && IsSelector(head[|head| - 1]) && |pieces| >= 1 && ChainShape(pieces)
    ensures queue == [head] + pieces && ChainShape(queue) && |queue| == |pieces| + 1
    ensures queue[0] == head && queue[1] == pieces[0] && queue[2..] == pieces[1..]
    ensures NextText(queue) == PieceText(pieces)
  {
    queue := [head] + pieces;
    ChainCons(head, pieces);
    assert queue[0] == head && queue[1] == pieces[0] && queue[2..] == pieces[1..];
  }

  /** The fold and the loop agree when the term after the running value fails. */
  lemma ChainStepsFromFails(eval: TermEval, head: string, acc: int, sel: char, pieces: seq<string>, rolls: seq<nat>)
    requires IsSelector(sel) && |pieces| >= 1 && ChainShape(pieces)
    requires head != [] && head[|head| - 1] == sel && eval(DropLast(head), rolls) == Done(acc, rolls)
    requires !eval(PieceText(pieces), rolls).Done?
    ensures ChainShape([head] + pieces)
    ensures ChainSteps(eval, [head] + pieces, rolls) == ChainFrom(eval, acc, sel, pieces, rolls)
  {
    var queue := ChainConsParts(head, pieces);
    ChainFromStep(eval, acc, sel, pieces, rolls);
    ChainStepsSecondFails(eval, queue, rolls, acc, rolls);
  }

  /** The fold and the loop agree when the piece after the running value ends the queue. */
  lemma ChainStepsFromLast(eval: TermEval, head: string, acc: int, sel: char, pieces: seq<string>, rolls: seq<nat>, b: int, r: seq<nat>)
    requires IsSelector(sel) && |pieces| == 1 && ChainShape(pieces)
    requires head != [] && head[|head| - 1] == sel && eval(DropLast(head), rolls) == Done(acc, rolls)
    requires eval(PieceText(pieces), rolls) == Done(b, r)
    ensures ChainShape([head] + pieces)
    ensures ChainSteps(eval, [head] + pieces, rolls) == ChainFrom(eval, acc, sel, pieces, rolls)
  {
    var queue := ChainConsParts(head, pieces);
    ChainFromStep(eval, acc, sel, pieces, rolls);
    ChainRoundEnd(eval, queue, rolls, acc, rolls, b, r);
  }

  /** One round that goes on: the requeued piece reads as the picked value, and the rest of the run is the shorter queue's. */
  lemma ChainRoundOnHead(eval: TermEval, queue: seq<string>, rolls: seq<nat>, a: int, r1: seq<nat>, b: int, r2: seq<nat>, sel1: char, sel2: char, rest: seq<string>)
    returns (head: string)
    requires Bounded(eval) && ReadsBack(eval)
    requires |queue| > 2 && ChainShape(queue)
    requires sel1 == queue[0][|queue[0]| - 1] && sel2 == queue[1][|queue[1]| - 1] && rest == queue[2..]
    requires eval(DropLast(queue[0]), rolls) == Done(a, r1)
    requires eval(NextText(queue), r1) == Done(b, r2)
    ensures head != [] && head[|head| - 1] == sel2
    ensures eval(DropLast(head), r2) == Done(Pick(sel1, a, b), r2)
    ensures ChainShape([head] + rest)
    ensures ChainSteps(eval, [head] + rest, r2) == ChainSteps(eval, queue, rolls)
  {
    head := RequeuedHead(eval, Pick(sel1, a, b), sel2, r2);
    ChainRoundOn(eval, queue, rolls, a, r1, b, r2, head, rest);
  }

  /** A queue whose first piece reads as `acc` without drawing runs as the fold from `acc`. */
  lemma {:induction false} ChainStepsFrom(eval: TermEval, head: string, acc: int, sel: char, pieces: seq<string>, rolls: seq<nat>)
    requires Bounded(eval) && ReadsBack(eval)
    requires IsSelector(sel) && |pieces| >= 1 && ChainShape(pieces)
    requires head != [] && head[|head| - 1] == sel && eval(DropLast(head), rolls) == Done(acc, rolls)
    ensures ChainShape([head] + pieces)
    ensures ChainSteps(eval, [head] + pieces, rolls) == ChainFrom(eval, acc, sel, pieces, rolls)
    decreases |pieces|
  {
    var o := eval(PieceText(pieces), rolls);
    if !o.Done? {
      ChainStepsFromFails(eval, head, acc, sel, pieces, rolls);
    } else if |pieces| == 1 {
      ChainStepsFromLast(eval, head, acc, sel, pieces, rolls, o.value, o.rest);
    } else {
      var res := Pick(sel, acc, o.value);
      var nextSel := pieces[0][|pieces[0]| - 1];
      ChainFromStep(eval, acc, sel, pieces, rolls);
      var queue := ChainConsParts(head, pieces);
      var next := ChainRoundOnHead(eval, queue, rolls, acc, rolls, o.value, o.rest, sel, nextSel, pieces[1..]);
      ChainStepsFrom(eval, next, res, nextSel, pieces[1..], o.rest);
    }
  }

  /** The loop looks at the first piece only through its term's outcome and its selector. */
  lemma ChainStepsSameFirst(eval: TermEval, q1: seq<string>, q2: seq<string>, rolls1: seq<nat>, rolls2: seq<nat>)
    requires |q1| >= 2 && ChainShape(q1) && |q2| >= 2 && ChainShape(q2)
    requires q1[1..] == q2[1..] && q1[0][|q1[0]| - 1] == q2[0][|q2[0]| - 1]
    requires eval(DropLast(q1[0]), rolls1) == eval(DropLast(q2[0]), rolls2)
    ensures ChainSteps(eval, q1, rolls1) == ChainSteps(eval, q2, rolls2)
  {
    assert |q1| == |q2| && q1[1] == q2[1] && q1[2..] == q2[2..];
    assert NextText(q1) == NextText(q2);
    var first := eval(DropLast(q1[0]), rolls1);
    if !first.Done? {
      ChainStepsFirstFails(eval, q1, rolls1);
      ChainStepsFirstFails(eval, q2, rolls2);
    } else {
      var second := eval(NextText(q1), first.rest);
      if !second.Done? {
        ChainStepsSecondFails(eval, q1, rolls1, first.value, first.rest);
        ChainStepsSecondFails(eval, q2, rolls2, first.value, first.rest);
      } else if |q1| == 2 {
        ChainRoundEnd(eval, q1, rolls1, first.value, first.rest, second.value, second.rest);
        ChainRoundEnd(eval, q2, rolls2, first.value, first.rest, second.value, second.rest);
      } else {
        var head := IntToString(Pick(q1[0][|q1[0]| - 1], first.value, second.value)) + [q1[1][|q1[1]| - 1]];
        ChainRoundOn(eval, q1, rolls1, first.value, first.rest, second.value, second.rest, head, q1[2..]);
        ChainRoundOn(eval, q2, rolls2, first.value, first.rest, second.value, second.rest, head, q1[2..]);
      }
    }
  }

  /** The loop as written computes the left-to-right fold: rolls are drawn term by term, in order. */
  lemma ChainStepsFold(eval: TermEval, pieces: seq<string>, rolls: seq<nat>)
    requires Bounded(eval) && ReadsBack(eval)
    requires |pieces| >= 2 && ChainShape(pieces)
    ensures ChainSteps(eval, pieces, rolls) == Chain(eval, pieces, rolls)
  {
    match eval(DropLast(pieces[0]), rolls)
    case Stuck =>
    case Failed(_, _) =>
    case Done(a, r1) =>
      var sel := pieces[0][|pieces[0]| - 1];
      var tail := pieces[1..];
      var head := RequeuedHead(eval, a, sel, r1);
      ChainSuffix(pieces, 1);
      ChainCons(head, tail);
      assert ([head] + tail)[0] == head && ([head] + tail)[1..] == tail;
      ChainStepsSameFirst(eval, pieces, [head] + tail, rolls, r1);
      ChainStepsFrom(eval, head, a, sel, tail, r1);
  }

  // ----- tokens and the whole expression -----

  /** The characters `evaluate_expression` splits after. */
  const Operators: set<char> := {'+', '-', '*', '/'}

  /** The operator a token ends with and its priority; `' '` and 0 for the last token when it ends with none. */
  function OperatorOf(c: char): (p: (char, nat))
    ensures c in Operators ==> p.0 == c && p.1 == (if c == '+' || c == '-' then 1 else 2)
    ensures c !in Operators ==> p == (' ', 0)
  {
    match c
    case '+' => ('+', 1)
    case '-' => ('-', 1)
    case '*' => ('*', 2)
    case '/' => ('/', 2)
    case _ => (' ', 0)
  }

  /** The term of a token: without its operator and trimmed when it has one, as it is otherwise. */
  function TermText(tok: string): string
    requires tok != []
  {
    if OperatorOf(tok[|tok| - 1]).1 > 0 then Trim(DropLast(tok)) else tok
  }

  /** The value of a term once its records are substituted: an `l`/`h` chain or a single term. */
  function Operand(exp: string, rolls: seq<nat>): (o: Outcome<int, string>)
    ensures o.Done? ==> InI32(o.value)
  {
    if 'l' in exp || 'h' in exp then
      var pieces := SplitInclusive(exp, {'l', 'h'});
      ChainPieces(exp);
      TermEvaluator();
      if |pieces| < 2 then Stuck else ChainSteps(Term, pieces, rolls)
    else Term(exp, rolls)
  }

  /** One token as an entry of `ops`: a bare `-` multiplies by -1; an empty token has no last character to read. */
  function TokenOp(tok: string, records: Records, rolls: seq<nat>): (o: Outcome<Op, string>)
  {
    if tok == "-" then Done(Op(-1, '*', 2), rolls)
    else if tok == [] then Stuck
    else
      var (op, priority) := OperatorOf(tok[|tok| - 1]);
      match Substituted(TermText(tok), records)
      case None => Stuck
      case Some(exp) =>
        match Operand(exp, rolls)
        case Stuck => Stuck
        case Failed(e, r) => Failed(e, r)
        case Done(v, r) => Done(Op(v, op, priority), r)
  }

  /** An operator after a token becomes the entry's operator; a token without one is the end. */
  lemma TokenOpShape(tok: string, records: Records, rolls: seq<nat>)
    requires tok != [] && TokenOp(tok, records, rolls).Done?
    ensures tok[|tok| - 1] in Operators ==> IsOperator(TokenOp(tok, records, rolls).value)
    ensures tok[|tok| - 1] !in Operators ==> IsEnd(TokenOp(tok, records, rolls).value)
  {
  }

  /**
   * How a token becomes an entry, drawing from the stream. The token loop is
   * stated for any such reading; the model's is `TokenOp`.
   */
  type TokenEval = (string, Records, seq<nat>) -> Outcome<Op, string>

  /** The tokens' entries, in order, drawing from the stream token by token. */
  function TokenOps(eval: TokenEval, tokens: seq<string>, records: Records, rolls: seq<nat>): (o: Outcome<seq<Op>, string>)
    ensures o.Done? ==> |o.value| == |tokens|
  {
    if tokens == [] then Done([], rolls)
    else
      match eval(tokens[0], records, rolls)
      case Stuck => Stuck
      case Failed(e, r) => Failed(e, r)
      case Done(o, r) => Prefixed([o], TokenOps(eval, tokens[1..], records, r))
  }

  /** `ops` put in front of the entries of an outcome. */
  function Prefixed(ops: seq<Op>, o: Outcome<seq<Op>, string>): Outcome<seq<Op>, string> {
    match o
    case Done(more, r) => Done(ops + more, r)
    case Failed(e, r) => Failed(e, r)
    case Stuck => Stuck
  }

  lemma PrefixedTwice(a: seq<Op>, b: seq<Op>, o: Outcome<seq<Op>, string>)
    ensures Prefixed(a, Prefixed(b, o)) == Prefixed(a + b, o)
  {
    if o.Done? {
      assert a + (b + o.value) == (a + b) + o.value;
    }
  }

  /** A token reading that turns a token ending in an operator into an operator entry, and any other into the end. */
  ghost predicate MarksEntries(eval: TokenEval) {
    forall tok, records, rolls | tok != [] && eval(tok, records, rolls).Done? ::
      && (tok[|tok| - 1] in Operators ==> IsOperator(eval(tok, records, rolls).value))
      && (tok[|tok| - 1] !in Operators ==> IsEnd(eval(tok, records, rolls).value))
  }

  /** `TokenOp` is such a reading. */
  lemma TokenOpMarks()
    ensures MarksEntries(TokenOp)
  {
    forall tok, records, rolls | tok != [] && TokenOp(tok, records, rolls).Done?
      ensures tok[|tok| - 1] in Operators ==> IsOperator(TokenOp(tok, records, rolls).value)
      ensures tok[|tok| - 1] !in Operators ==> IsEnd(TokenOp(tok, records, rolls).value)
    {
      TokenOpShape(tok, records, rolls);
    }
  }

  /** Tokens of `split_inclusive`: each but the last ends with an operator, so the entries are well formed. */
  lemma {:induction false} TokenOpsShape(eval: TokenEval, tokens: seq<string>, records: Records, rolls: seq<nat>)
    requires MarksEntries(eval)
    requires forall k :: 0 <= k < |tokens| ==> tokens[k] != []
    requires forall k :: 0 <= k < |tokens| - 1 ==> tokens[k][|tokens[k]| - 1] in Operators
    requires tokens != [] && TokenOps(eval, tokens, records, rolls).Done?
    ensures WellFormed(TokenOps(eval, tokens, records, rolls).value)
    decreases |tokens|
  {
    var o := eval(tokens[0], records, rolls);
    var more := TokenOps(eval, tokens[1..], records, o.rest);
    var ops := TokenOps(eval, tokens, records, rolls).value;
    assert ops == [o.value] + more.value;
    if |tokens| > 1 {
      TokenOpsShape(eval, tokens[1..], records, o.rest);
      assert forall k :: 1 <= k < |ops| ==> ops[k] == more.value[k - 1];
    }
  }

  /** `exp.split_inclusive(&['+', '-', '*', '/'])`. */
  function Tokens(exp: string): (tokens: seq<string>)
    ensures exp == [] <==> tokens == []
    ensures forall k :: 0 <= k < |tokens| ==> tokens[k] != []
    ensures forall k :: 0 <= k < |tokens| - 1 ==> tokens[k][|tokens[k]| - 1] in Operators
  {
    SplitInclusivePieces(exp, Operators);
    SplitInclusiveTerminated(exp, Operators);
    SplitInclusive(exp, Operators)
  }

  /**
   * `evaluate_expression`, with the corrected reduction: the value is the one
   * the expression means (`1-2*3-4` is -9; the loop as written,
   * `Reduction.ReduceAsWritten`, gives -1).  `Stuck` covers the source's
   * panics and hangs: an empty expression, a division by zero, and entries
   * whose last has priority 2 (a trailing `*` or `/`, or a bare `-`) after
   * one of priority 1, where the scan never ends.
   */
  function Evaluate(exp: string, records: Records, rolls: seq<nat>): Outcome<int, string> {
    EvaluateWith(TokenOp, exp, records, rolls)
  }

  /** The same pipeline for any reading of a token into an entry. */
  function EvaluateWith(eval: TokenEval, exp: string, records: Records, rolls: seq<nat>): Outcome<int, string> {
    match TokenOps(eval, Tokens(exp), records, rolls)
    case Stuck => Stuck
    case Failed(e, r) => Failed(e, r)
    case Done(ops, r) => if Reducible(ops) then Done(Value(ops), r) else Stuck
  }

  /** The entries are always well formed: `Evaluate` is stuck only on an empty expression, a zero divisor or a scan that spins. */
  lemma EvaluateWellFormed(exp: string, records: Records, rolls: seq<nat>)
    requires exp != [] && TokenOps(TokenOp, Tokens(exp), records, rolls).Done?
    ensures WellFormed(TokenOps(TokenOp, Tokens(exp), records, rolls).value)
  {
    TokenOpMarks();
    TokenOpsShape(TokenOp, Tokens(exp), records, rolls);
  }

  // ----- methods: the closures as the source runs them -----

  /** `eval_rec` and the substitution loop. */
  method Substitute(start: string, records: Records) returns (exp: string)
    requires Substituted(start, records).Some?
    ensures Some(exp) == Substituted(start, records)
  {
    exp := start;
    while '[' in exp
      invariant Substituted(exp, records) == Substituted(start, records)
      decreases multiset(exp)['[']
    {
      var first := FirstIn(exp, {'['}).value;
      var end := FirstIn(exp, {']'}).value;
      var val := exp[first..end + 1];
      var ev := RecordText(val, records);
      SubstituteShrinks(exp, first, end, ev);
      exp := exp[..first] + ev + exp[end + 1..];
    }
    SubstitutedPlain(exp, records);
  }

  /** `eval_die`. */
  method EvalDie(x: string, typ: char, pool: Option<char>, rand: Random) returns (r: Result<int, string>)
    requires typ == 'd' || typ == 'x'
    requires pool == None || pool == Some('p') || pool == Some('q')
    requires DieTerm(x, typ, pool, rand.rolls) != Stuck
    modifies rand
    ensures Delivers(DieTerm(x, typ, pool, old(rand.rolls)), r, rand.rolls)
  {
    var cut := Marks(typ, pool);
    var parts := Split(x, cut);
    var vals := Parsed(parts);
    var err := LastBad(vals, |vals|);
    if err.Some? {
      return Err("Couldn't process " + parts[err.value]);
    }
    var n := Numbers(vals);
    if pool == None {
      if |n| != 2 {
        return Err(DieMessage(x));
      }
    } else {
      if |n| != 3 {
        return Err(PoolMessage(x));
      }
    }
    var v := ThrowDice(typ, pool, n, rand);
    return Ok(v);
  }

  /** The `match typ` of `eval_die`, drawing from the generator. */
  method ThrowDice(typ: char, pool: Option<char>, r: seq<int>, rand: Random) returns (v: int)
    requires typ == 'd' || typ == 'x'
    requires pool == None || pool == Some('p') || pool == Some('q')
    requires |r| == Arity(pool) && forall k :: 0 <= k < |r| ==> InI32(r[k])
    requires Throw(typ, pool, r, rand.rolls).Done?
    modifies rand
    ensures Throw(typ, pool, r, old(rand.rolls)) == Done(v, rand.rolls)
  {
    if typ == 'd' {
      match pool {
        case None => v := rand.Die(r[0], r[1]);
        case Some('p') => v := rand.Pool(r[0], r[1], r[2]);
        case Some(_) => v := rand.PoolReverse(r[0], r[1], r[2]);
      }
    } else {
      v := rand.DieExplode(r[0], r[1]);
    }
  }

  /** `eval_exp`. */
  method EvalTerm(x: string, rand: Random) returns (r: Result<int, string>)
    requires Term(x, rand.rolls) != Stuck
    modifies rand
    ensures Delivers(Term(x, old(rand.rolls)), r, rand.rolls)
  {
    var ev1: char;
    if 'd' in x {
      ev1 := 'd';
    } else if 'x' in x {
      ev1 := 'x';
    } else {
      var v := ParseI32(x);
      if v.Some? {
        return Ok(v.value);
      } else {
        return Err(x + " doesn't appear to be a valid number");
      }
    }
    var ev2: Option<char>;
    if 'p' in x {
      ev2 := Some('p');
    } else if 'q' in x {
      ev2 := Some('q');
    } else {
      ev2 := None;
    }
    r := EvalDie(x, ev1, ev2, rand);
  }

  /** The text the second piece of a queue is evaluated as: without its selector unless it is the last. */
  function NextText(queue: seq<string>): string
    requires |queue| >= 2 && ChainShape(queue)
  {
    if |queue| == 2 then queue[1] else DropLast(queue[1])
  }

  /** The first term of the queue decides whether the round goes on, and its error is the chain's. */
  lemma ChainFirst(eval: TermEval, queue: seq<string>, rolls: seq<nat>)
    requires |queue| >= 2 && ChainShape(queue) && ChainSteps(eval, queue, rolls) != Stuck
    ensures eval(DropLast(queue[0]), rolls) != Stuck
    ensures eval(DropLast(queue[0]), rolls).Failed? ==> ChainSteps(eval, queue, rolls) == eval(DropLast(queue[0]), rolls)
  {
  }

  /** So does the second, on the stream the first left. */
  lemma ChainSecond(eval: TermEval, queue: seq<string>, rolls: seq<nat>, a: int, r1: seq<nat>)
    requires |queue| >= 2 && ChainShape(queue) && ChainSteps(eval, queue, rolls) != Stuck
    requires eval(DropLast(queue[0]), rolls) == Done(a, r1)
    ensures eval(NextText(queue), r1) != Stuck
    ensures eval(NextText(queue), r1).Failed? ==> ChainSteps(eval, queue, rolls) == eval(NextText(queue), r1)
  {
  }

  /** With both values, the round ends the chain with the picked value... */
  lemma ChainRoundEnd(eval: TermEval, queue: seq<string>, rolls: seq<nat>, a: int, r1: seq<nat>, b: int, r2: seq<nat>)
    requires |queue| == 2 && ChainShape(queue)
    requires eval(DropLast(queue[0]), rolls) == Done(a, r1)
    requires eval(NextText(queue), r1) == Done(b, r2)
    ensures ChainSteps(eval, queue, rolls) == Done(Pick(queue[0][|queue[0]| - 1], a, b), r2)
  {
  }

  /** ... or hands it on, in front of the remaining pieces, to the next round. */
  lemma ChainRoundOn(eval: TermEval, queue: seq<string>, rolls: seq<nat>, a: int, r1: seq<nat>, b: int, r2: seq<nat>, head: string, rest: seq<string>)
    requires |queue| > 2 && ChainShape(queue)
    requires eval(DropLast(queue[0]), rolls) == Done(a, r1)
    requires eval(NextText(queue), r1) == Done(b, r2)
    requires head == IntToString(Pick(queue[0][|queue[0]| - 1], a, b)) + [queue[1][|queue[1]| - 1]]
    requires rest == queue[2..]
    ensures |[head] + rest| == |queue| - 1 && ChainShape([head] + rest)
    ensures ChainSteps(eval, [head] + rest, r2) == ChainSteps(eval, queue, rolls)
  {
    ChainRequeue(queue, Pick(queue[0][|queue[0]| - 1], a, b));
  }

  /**
   * One round of the `l`/`h` loop: the first two pieces are evaluated and
   * either the chain is over (`finished`, with its value or its error) or the
   * picked value goes back in front of the remaining pieces.
   */
  method EvalRound(queue: seq<string>, rand: Random) returns (r: Result<int, string>, requeued: seq<string>, finished: bool)
    requires |queue| >= 2 && ChainShape(queue) && ChainSteps(Term, queue, rand.rolls) != Stuck
    modifies rand
    ensures finished ==> Delivers(ChainSteps(Term, queue, old(rand.rolls)), r, rand.rolls)
    ensures !finished ==> |requeued| == |queue| - 1 && |requeued| >= 2 && ChainShape(requeued)
    ensures !finished ==> ChainSteps(Term, requeued, rand.rolls) == ChainSteps(Term, queue, old(rand.rolls))
  {
    ghost var rolls := rand.rolls;
    ChainFirst(Term, queue, rolls);
    var thisValue := EvalTerm(DropLast(queue[0]), rand);
    if thisValue.Err? {
      return thisValue, [], true;
    }
    ghost var r1 := rand.rolls;
    ChainSecond(Term, queue, rolls, thisValue.value, r1);
    var nextValue := EvalTerm(NextText(queue), rand);
    if nextValue.Err? {
      return nextValue, [], true;
    }
    r, requeued, finished := RoundEnd(queue, rolls, thisValue.value, r1, nextValue.value, rand.rolls);
  }

  /** The end of a round: the picked value either ends the chain or goes back in front of the remaining pieces. */
  method RoundEnd(queue: seq<string>, ghost rolls: seq<nat>, thisValue: int, ghost r1: seq<nat>, nextValue: int, ghost r2: seq<nat>)
    returns (r: Result<int, string>, requeued: seq<string>, finished: bool)
    requires |queue| >= 2 && ChainShape(queue)
    requires Term(DropLast(queue[0]), rolls) == Done(thisValue, r1)
    requires Term(NextText(queue), r1) == Done(nextValue, r2)
    ensures finished ==> Delivers(ChainSteps(Term, queue, rolls), r, r2)
    ensures !finished ==> |requeued| == |queue| - 1 && |requeued| >= 2 && ChainShape(requeued)
    ensures !finished ==> ChainSteps(Term, requeued, r2) == ChainSteps(Term, queue, rolls)
  {
    var hiOrLo := queue[0][|queue[0]| - 1];
    var res := Pick(hiOrLo, thisValue, nextValue);
    var splitExp := queue[2..];
    if |splitExp| > 0 {
      var head := IntToString(res) + [queue[1][|queue[1]| - 1]];
      ChainRoundOn(Term, queue, rolls, thisValue, r1, nextValue, r2, head, splitExp);
      return Ok(res), [head] + splitExp, false;
    } else {
      ChainRoundEnd(Term, queue, rolls, thisValue, r1, nextValue, r2);
      return Ok(res), [], true;
    }
  }

  /** The `l`/`h` loop over the `VecDeque` of pieces. */
  method EvalChain(pieces: seq<string>, rand: Random) returns (r: Result<int, string>)
    requires |pieces| >= 2 && ChainShape(pieces)
    requires ChainSteps(Term, pieces, rand.rolls) != Stuck
    modifies rand
    ensures Delivers(ChainSteps(Term, pieces, old(rand.rolls)), r, rand.rolls)
  {
    var splitExp := pieces;
    while true
      invariant |splitExp| >= 2 && ChainShape(splitExp)
      invariant ChainSteps(Term, splitExp, rand.rolls) == ChainSteps(Term, pieces, old(rand.rolls))
      decreases |splitExp|
    {
      var finished: bool;
      r, splitExp, finished := EvalRound(splitExp, rand);
      if finished {
        return;
      }
    }
  }

  /** One pass of the token loop: the entry a token becomes. */
  method EvalToken(tok: string, records: Records, rand: Random) returns (r: Result<Op, string>)
    requires tok != [] && TokenOp(tok, records, rand.rolls) != Stuck
    modifies rand
    ensures Delivers(TokenOp(tok, records, old(rand.rolls)), r, rand.rolls)
  {
    if tok == "-" {
      return Ok(Op(-1, '*', 2));
    }
    var (op, opPriority) := OperatorOf(tok[|tok| - 1]);
    var exp := tok;
    if opPriority > 0 {
      exp := Trim(DropLast(exp));
    }
    exp := Substitute(exp, records);
    var v: Result<int, string>;
    if 'l' in exp || 'h' in exp {
      var splitExp := SplitInclusive(exp, {'l', 'h'});
      ChainPieces(exp);
      v := EvalChain(splitExp, rand);
    } else {
      v := EvalTerm(exp, rand);
    }
    if v.Err? {
      return Err(v.error);
    }
    return Ok(Op(v.value, op, opPriority));
  }

  lemma PrefixedNothing(o: Outcome<seq<Op>, string>)
    ensures Prefixed([], o) == o
  {
    if o.Done? {
      assert [] + o.value == o.value;
    }
  }

  /** The token at `k` decides whether the loop goes on, and its error is the expression's. */
  lemma TokenOpsAt(tokens: seq<string>, k: nat, ops: seq<Op>, records: Records, rolls: seq<nat>)
    requires forall j :: 0 <= j < |tokens| ==> tokens[j] != []
    requires k < |tokens| && Prefixed(ops, TokenOps(TokenOp, tokens[k..], records, rolls)) != Stuck
    ensures TokenOp(tokens[k], records, rolls) != Stuck
    ensures TokenOp(tokens[k], records, rolls).Failed? ==>
      Prefixed(ops, TokenOps(TokenOp, tokens[k..], records, rolls))
        == Failed(TokenOp(tokens[k], records, rolls).error, TokenOp(tokens[k], records, rolls).rest)
  {
    assert tokens[k..][0] == tokens[k];
  }

  /** A token that delivers its entry moves the entry to the front part. */
  lemma TokenOpsStep(tokens: seq<string>, k: nat, ops: seq<Op>, records: Records, rolls: seq<nat>)
    requires forall j :: 0 <= j < |tokens| ==> tokens[j] != []
    requires k < |tokens| && TokenOp(tokens[k], records, rolls).Done?
    ensures Prefixed(ops, TokenOps(TokenOp, tokens[k..], records, rolls))
      == Prefixed(ops + [TokenOp(tokens[k], records, rolls).value],
                  TokenOps(TokenOp, tokens[k + 1..], records, TokenOp(tokens[k], records, rolls).rest))
  {
    assert tokens[k..][0] == tokens[k] && tokens[k..][1..] == tokens[k + 1..];
    var o := TokenOp(tokens[k], records, rolls);
    PrefixedTwice(ops, [o.value], TokenOps(TokenOp, tokens[k + 1..], records, o.rest));
  }

  /** After the last token the entries are all there; the reduction then gives the value. */
  lemma EvaluateOps(exp: string, records: Records, start: seq<nat>, tokens: seq<string>, ops: seq<Op>, rolls: seq<nat>)
    requires tokens == Tokens(exp)
    requires TokenOps(TokenOp, tokens, records, start) == Prefixed(ops, TokenOps(TokenOp, tokens[|tokens|..], records, rolls))
    requires Evaluate(exp, records, start) != Stuck
    ensures Reducible(ops) && Evaluate(exp, records, start) == Done(Value(ops), rolls)
  {
    assert tokens[|tokens|..] == [];
    assert ops + [] == ops;
    assert TokenOps(TokenOp, tokens, records, start) == Done(ops, rolls);
  }

  /** `evaluate_expression`: the token loop, then the reduction of `ops`. */
  method EvaluateExpression(exp: string, records: Records, rand: Random) returns (r: Result<int, string>)
    requires Evaluate(exp, records, rand.rolls) != Stuck
    modifies rand
    ensures Delivers(Evaluate(exp, records, old(rand.rolls)), r, rand.rolls)
  {
    var tokens := Tokens(exp);
    ghost var start := rand.rolls;
    ghost var goal := TokenOps(TokenOp, tokens, records, start);
    var ops: seq<Op> := [];
    assert tokens[0..] == tokens;
    PrefixedNothing(goal);
    for k := 0 to |tokens|
      invariant goal == Prefixed(ops, TokenOps(TokenOp, tokens[k..], records, rand.rolls))
    {
      ghost var rolls := rand.rolls;
      TokenOpsAt(tokens, k, ops, records, rolls);
      var o := EvalToken(tokens[k], records, rand);
      if o.Err? {
        return Err(o.error);
      }
      TokenOpsStep(tokens, k, ops, records, rolls);
      ops := ops + [o.value];
    }
    EvaluateOps(exp, records, start, tokens, ops, rand.rolls);
    var v := Reduce(ops);
    return Ok(v);
  }

  // ----- what some expressions evaluate to -----

  /** A die term as an author writes it: `NdS` with both numbers in decimal. */
  function DieText(n: nat, s: nat): string {
    NatToString(n) + "d" + NatToString(s)
  }

  lemma DigitsAvoid(a: string, cs: set<char>)
    requires AllDigits(a) && forall c :: c in cs ==> !IsDigit(c)
    ensures NoneIn(a, cs)
  {
  }

  /** `NdS` holds a `d` and no pool mark, and is cut at its `d` into the two numbers. */
  lemma DieTextParts(n: nat, s: nat)
    ensures 'd' in DieText(n, s) && PoolMark(DieText(n, s)) == None
    ensures DieParts(DieText(n, s), 'd', None) == [NatToString(n), NatToString(s)]
  {
    var a, b := NatToString(n), NatToString(s);
    var x := DieText(n, s);
    assert x == a + ['d'] + b;
    DigitsAvoid(a, {'d', 'p', 'q'});
    DigitsAvoid(b, {'d', 'p', 'q'});
    assert 'd' in x by {
      assert x[|a|] == 'd';
    }
    assert 'p' !in x && 'q' !in x;
    FirstInAfter(a, 'd', b, {'d'});
    assert x[..|a|] == a && x[|a| + 1..] == b;
    assert Marks('d', None) == {'d'};
    assert Split(b, {'d'}) == [b];
    assert Split(x, {'d'}) == [a] + Split(b, {'d'});
  }

  /** Two parts that read as `n` and `s` throw one die of that shape. */
  lemma DieThrowTwo(x: string, a: string, b: string, n: int, s: int, rolls: seq<nat>)
    requires ParseI32(a) == Some(n) && ParseI32(b) == Some(s)
    ensures DieThrow(x, 'd', None, [a, b], Parsed([a, b]), rolls) == ThrowDie(n, s, rolls)
  {
    assert Parsed([a, b]) == [Some(n), Some(s)];
    assert Numbers([Some(n), Some(s)]) == [n, s];
  }

  /** `NdS` is cut at its `d` into the two numbers, and throws one die of that shape. */
  lemma TermDie(n: nat, s: nat, rolls: seq<nat>)
    requires n <= I32Max && s <= I32Max
    ensures Term(DieText(n, s), rolls) == ThrowDie(n, s, rolls)
  {
    var x := DieText(n, s);
    DieTextParts(n, s);
    ParseIntToString(n);
    ParseIntToString(s);
    assert Term(x, rolls) == DieTerm(x, 'd', None, rolls);
    DieThrowTwo(x, NatToString(n), NatToString(s), n, s, rolls);
  }

  /** A text without operators is one token: it is substituted, then read as a chain or a single term. */
  lemma EvaluateOneToken(exp: string, records: Records, rolls: seq<nat>)
    requires exp != [] && NoneIn(exp, Operators)
    ensures Evaluate(exp, records, rolls)
      == match Substituted(exp, records) case None => Stuck case Some(e) => Operand(e, rolls)
  {
    SplitInclusiveSingle(exp, Operators);
    assert Tokens(exp) == [exp];
    assert exp[|exp| - 1] !in Operators;
    assert TermText(exp) == exp;
    var o := TokenOps(TokenOp, [exp], records, rolls);
    assert [exp][1..] == [];
    match TokenOp(exp, records, rolls)
    case Stuck =>
    case Failed(_, _) =>
    case Done(op, r) =>
      assert TokenOps(TokenOp, [], records, r) == Done([], r);
      assert o == Prefixed([op], Done([], r));
      assert [op] + [] == [op];
      assert IsEnd(op);
      assert Reducible([op]);
      assert Value([op]) == op.value;
  }

  /** A die term holds no selector, so it is read as a single term. */
  lemma OperandDie(n: nat, s: nat, rolls: seq<nat>)
    requires n <= I32Max && s <= I32Max
    ensures Operand(DieText(n, s), rolls) == ThrowDie(n, s, rolls)
  {
    DigitsAvoid(NatToString(n), {'l', 'h'});
    DigitsAvoid(NatToString(s), {'l', 'h'});
    assert DieText(n, s) == NatToString(n) + ['d'] + NatToString(s);
    assert 'l' !in DieText(n, s) && 'h' !in DieText(n, s);
    TermDie(n, s, rolls);
  }

  /** A die term holds no operator and no record reference. */
  lemma DieTextPlain(n: nat, s: nat)
    ensures DieText(n, s) != [] && NoneIn(DieText(n, s), Operators) && '[' !in DieText(n, s)
  {
    DigitsAvoid(NatToString(n), Operators + {'['});
    DigitsAvoid(NatToString(s), Operators + {'['});
    assert DieText(n, s) == NatToString(n) + ['d'] + NatToString(s);
  }

  /** The source's test `1d4`: a lone die term is one draw from the die range. */
  lemma EvaluateDie(n: nat, s: nat, records: Records, rolls: seq<nat>)
    requires n <= I32Max && s <= I32Max
    ensures Evaluate(DieText(n, s), records, rolls) == ThrowDie(n, s, rolls)
  {
    DieTextPlain(n, s);
    EvaluateOneToken(DieText(n, s), records, rolls);
    SubstitutedPlain(DieText(n, s), records);
    OperandDie(n, s, rolls);
  }

  /** `[name]dS` becomes `NdS`, with `N` the record's value. */
  lemma RecordDiceSubstituted(name: string, s: nat, records: Records)
    requires name in records && 0 <= records[name].value && NoneIn(name, {'[', ']'})
    ensures Substituted("[" + name + "]d" + NatToString(s), records) == Some(DieText(records[name].value, s))
  {
    var n: nat := records[name].value;
    var b := NatToString(s);
    var tail := "d" + b;
    DigitsAvoid(b, {'['});
    assert '[' !in tail;
    assert "[" + name + "]d" + b == "[" + name + "]" + tail;
    SubstitutedRecord(name, tail, records);
    assert IntToString(n) == NatToString(n);
    assert NatToString(n) + tail == DieText(n, s);
  }

  /** `[name]dS` holds no operator when the name holds none. */
  lemma RecordDicePlain(name: string, s: nat)
    requires NoneIn(name, Operators)
    ensures NoneIn("[" + name + "]d" + NatToString(s), Operators)
  {
    DigitsAvoid(NatToString(s), Operators);
  }

  /**
   * The source's test `[strength]d6`: a record reference as the number of
   * dice is replaced by the record's value before the die is thrown.
   */
  lemma EvaluateRecordDice(name: string, s: nat, records: Records, rolls: seq<nat>)
    requires name in records && 0 <= records[name].value <= I32Max && s <= I32Max
    requires NoneIn(name, {'[', ']'}) && NoneIn(name, Operators)
    ensures Evaluate("[" + name + "]d" + NatToString(s), records, rolls) == ThrowDie(records[name].value, s, rolls)
  {
    var exp := "[" + name + "]d" + NatToString(s);
    RecordDiceSubstituted(name, s, records);
    RecordDicePlain(name, s);
    EvaluateOneToken(exp, records, rolls);
    OperandDie(records[name].value, s, rolls);
  }

  /** A record the story does not define reads as `0`, so `[missing]` on its own evaluates to 0 and draws nothing. */
  lemma EvaluateMissingRecord(name: string, records: Records, rolls: seq<nat>)
    requires name !in records && NoneIn(name, {'[', ']'}) && NoneIn(name, Operators)
    ensures Evaluate("[" + name + "]", records, rolls) == Done(0, rolls)
  {
    var exp := "[" + name + "]" + "";
    assert exp == "[" + name + "]";
    assert NoneIn(exp, Operators);
    EvaluateOneToken(exp, records, rolls);
    SubstitutedRecord(name, "", records);
    assert "0" + "" == IntToString(0);
    TermOfNumber(0, rolls);
  }

  /** A number followed by an operator is an entry with that number, that operator and its priority. */
  lemma TokenNumber(v: nat, op: char, records: Records, rolls: seq<nat>)
    requires v <= I32Max && op in Operators
    ensures TokenOp(NatToString(v) + [op], records, rolls) == Done(Op(v, OperatorOf(op).0, OperatorOf(op).1), rolls)
  {
    var t := NatToString(v);
    var tok := t + [op];
    assert tok != "-" by {
      assert |tok| >= 2;
    }
    assert tok[|tok| - 1] == op && DropLast(tok) == t;
    assert IsTrimmed(t) by {
      assert !IsWhitespace(t[0]) && !IsWhitespace(t[|t| - 1]);
    }
    TrimTrimmed(t);
    DigitsAvoid(t, {'['});
    SubstitutedPlain(t, records);
    DigitsAvoid(t, {'l', 'h'});
    TermOfNumber(v, rolls);
  }

  /** A number ending the expression is an end entry. */
  lemma TokenLastNumber(v: nat, records: Records, rolls: seq<nat>)
    requires v <= I32Max
    ensures TokenOp(NatToString(v), records, rolls) == Done(Op(v, ' ', 0), rolls)
  {
    var t := NatToString(v);
    assert t != "-" by {
      assert IsDigit(t[0]);
    }
    assert t[|t| - 1] !in Operators;
    DigitsAvoid(t, {'['});
    SubstitutedPlain(t, records);
    DigitsAvoid(t, {'l', 'h'});
    TermOfNumber(v, rolls);
  }

  /** A die term followed by an operator is an entry holding the die's value. */
  lemma TokenDie(n: nat, s: nat, op: char, records: Records, rolls: seq<nat>)
    requires 0 < n <= I32Max && 0 < s <= I32Max && n * s <= I32Max && rolls != [] && op in Operators
    ensures TokenOp(DieText(n, s) + [op], records, rolls)
         == Done(Op(DieValue(rolls[0], n, s), OperatorOf(op).0, OperatorOf(op).1), rolls[1..])
  {
    var t := DieText(n, s);
    var tok := t + [op];
    assert tok != "-" by {
      assert |tok| >= 2;
    }
    assert tok[|tok| - 1] == op && DropLast(tok) == t;
    assert IsTrimmed(t) by {
      assert t[0] == NatToString(n)[0];
      assert t[|t| - 1] == NatToString(s)[|NatToString(s)| - 1];
    }
    TrimTrimmed(t);
    DieTextPlain(n, s);
    SubstitutedPlain(t, records);
    OperandDie(n, s, rolls);
  }

  /** `-1` splits into the bare `-` and `1`. */
  lemma MinusOnePieces()
    ensures SplitInclusive("-1", Operators) == ["-", "1"]
  {
    var minus: string := "-";
    var one: string := "1";
    var empty: string := [];
    assert "-1" == empty + ['-'] + one && empty + ['-'] == minus;
    SplitInclusiveAfter(empty, '-', one, Operators);
    assert NoneIn(one, Operators);
    SplitInclusiveSingle(one, Operators);
  }

  /** The tokens of `T*-1`, for an operand text `T` without operators. */
  lemma NegatedTokens(t: string)
    requires t != [] && NoneIn(t, Operators)
    ensures Tokens(t + "*-1") == [t + "*", "-", "1"]
  {
    assert t + "*-1" == t + ['*'] + "-1";
    SplitInclusiveAfter(t, '*', "-1", Operators);
    MinusOnePieces();
    assert [t + ['*']] + ["-", "1"] == [t + "*", "-", "1"];
  }

  /** The first token's entry comes first, and the rest read from where it left the stream. */
  lemma TokenOpsCons(eval: TokenEval, t: string, ts: seq<string>, o: Op, r: seq<nat>, records: Records, rolls: seq<nat>)
    requires eval(t, records, rolls) == Done(o, r)
    ensures TokenOps(eval, [t] + ts, records, rolls) == Prefixed([o], TokenOps(eval, ts, records, r))
  {
    assert ([t] + ts)[0] == t && ([t] + ts)[1..] == ts;
  }

  /** Three tokens, each delivering its entry, deliver the three entries in order. */
  lemma TokenOpsThree(eval: TokenEval, t1: string, t2: string, t3: string, o1: Op, o2: Op, o3: Op,
                      records: Records, r0: seq<nat>, r1: seq<nat>, r2: seq<nat>, r3: seq<nat>)
    requires eval(t1, records, r0) == Done(o1, r1)
    requires eval(t2, records, r1) == Done(o2, r2)
    requires eval(t3, records, r2) == Done(o3, r3)
    ensures TokenOps(eval, [t1, t2, t3], records, r0) == Done([o1, o2, o3], r3)
  {
    var none: seq<string> := [];
    assert TokenOps(eval, none, records, r3) == Done([], r3);
    TokenOpsCons(eval, t3, none, o3, r3, records, r2);
    assert [t3] + none == [t3];
    var last := TokenOps(eval, [t3], records, r2);
    var noOps: seq<Op> := [];
    assert TokenOps(eval, none, records, r3) == Done(noOps, r3);
    assert [o3] + noOps == [o3];
    assert last == Prefixed([o3], Done(noOps, r3));
    assert last == Done([o3], r3);
    TokenOpsCons(eval, t2, [t3], o2, r2, records, r1);
    assert [t2] + [t3] == [t2, t3];
    var two := TokenOps(eval, [t2, t3], records, r1);
    assert two == Prefixed([o2], last);
    assert [o2] + [o3] == [o2, o3];
    assert two == Done([o2, o3], r3);
    TokenOpsCons(eval, t1, [t2, t3], o1, r1, records, r0);
    assert [t1] + [t2, t3] == [t1, t2, t3];
    assert [o1] + [o2, o3] == [o1, o2, o3];
  }

  /** An expression whose tokens deliver reducible entries has their value. */
  lemma EvaluateFrom(exp: string, tokens: seq<string>, ops: seq<Op>, v: int, records: Records, rolls: seq<nat>, r: seq<nat>)
    requires Tokens(exp) == tokens && forall k :: 0 <= k < |tokens| ==> tokens[k] != []
    requires TokenOps(TokenOp, tokens, records, rolls) == Done(ops, r) && Reducible(ops) && Value(ops) == v
    ensures Evaluate(exp, records, rolls) == Done(v, r)
  {
  }

  /**
   * The source's test `1d20*-1`, for any operand: a bare `-` after an
   * operator is an entry -1 with priority 2, so `T*-1` is `T` negated.
   */
  lemma EvaluateNegated(t: string, d: int, records: Records, rolls: seq<nat>, r: seq<nat>)
    requires t != [] && NoneIn(t, Operators)
    requires TokenOp(t + "*", records, rolls) == Done(Op(d, '*', 2), r)
    ensures Evaluate(t + "*-1", records, rolls) == Done(-d, r)
  {
    TokenOpMinusOne();
    NegatedWith(TokenOp, t, d, records, rolls, r);
  }

  /** A reading that takes `-` to the entry -1 with priority 2 and `1` to the closing entry 1. */
  ghost predicate ReadsMinusOne(eval: TokenEval) {
    forall records: Records, r: seq<nat> ::
      eval("-", records, r) == Done(Op(-1, '*', 2), r) && eval("1", records, r) == Done(Op(1, ' ', 0), r)
  }

  lemma TokenOpMinusOne()
    ensures ReadsMinusOne(TokenOp)
  {
    forall records: Records, r: seq<nat>
      ensures TokenOp("-", records, r) == Done(Op(-1, '*', 2), r) && TokenOp("1", records, r) == Done(Op(1, ' ', 0), r)
    {
      assert NatToString(1) == "1";
      TokenLastNumber(1, records, r);
    }
  }

  /** `T*-1` is `T` negated, for any reading of the tokens that treats `-` and `1` as the source does. */
  lemma NegatedWith(eval: TokenEval, t: string, d: int, records: Records, rolls: seq<nat>, r: seq<nat>)
    requires t != [] && NoneIn(t, Operators) && ReadsMinusOne(eval)
    requires eval(t + "*", records, rolls) == Done(Op(d, '*', 2), r)
    ensures EvaluateWith(eval, t + "*-1", records, rolls) == Done(-d, r)
  {
    NegatedTokens(t);
    TokenOpsThree(eval, t + "*", "-", "1", Op(d, '*', 2), Op(-1, '*', 2), Op(1, ' ', 0), records, rolls, r, r, r);
    NegatedValue(d);
  }

  /** Two tokens, each delivering its entry, deliver the two entries in order. */
  lemma TokenOpsTwo(eval: TokenEval, t1: string, t2: string, o1: Op, o2: Op,
                    records: Records, r0: seq<nat>, r1: seq<nat>, r2: seq<nat>)
    requires eval(t1, records, r0) == Done(o1, r1)
    requires eval(t2, records, r1) == Done(o2, r2)
    ensures TokenOps(eval, [t1, t2], records, r0) == Done([o1, o2], r2)
  {
    var none: seq<string> := [];
    var noOps: seq<Op> := [];
    assert TokenOps(eval, none, records, r2) == Done(noOps, r2);
    TokenOpsCons(eval, t2, none, o2, r2, records, r1);
    assert [t2] + none == [t2] && [o2] + noOps == [o2];
    TokenOpsCons(eval, t1, [t2], o1, r1, records, r0);
    assert [t1] + [t2] == [t1, t2] && [o1] + [o2] == [o1, o2];
  }

  /** The tokens of `-1` and their entries: -1 with priority 2, then 1 ending the expression. */
  lemma MinusOneEntries(records: Records, rolls: seq<nat>) returns (tokens: seq<string>, ops: seq<Op>)
    ensures Tokens("-1") == tokens && forall k :: 0 <= k < |tokens| ==> tokens[k] != []
    ensures TokenOps(TokenOp, tokens, records, rolls) == Done(ops, rolls) && Reducible(ops) && Value(ops) == -1
  {
    tokens := ["-", "1"];
    ops := [Op(-1, '*', 2), Op(1, ' ', 0)];
    MinusOnePieces();
    MinusOneOps(records, rolls);
    MinusOneValue(ops);
  }

  /** The entries of the tokens `-` and `1`. */
  lemma MinusOneOps(records: Records, rolls: seq<nat>)
    ensures TokenOps(TokenOp, ["-", "1"], records, rolls) == Done([Op(-1, '*', 2), Op(1, ' ', 0)], rolls)
  {
    assert NatToString(1) == "1";
    TokenLastNumber(1, records, rolls);
    assert TokenOp("-", records, rolls) == Done(Op(-1, '*', 2), rolls);
    TokenOpsTwo(TokenOp, "-", "1", Op(-1, '*', 2), Op(1, ' ', 0), records, rolls, rolls, rolls);
  }

  /** -1 times 1 reduces to -1. */
  lemma MinusOneValue(ops: seq<Op>)
    requires ops == [Op(-1, '*', 2), Op(1, ' ', 0)]
    ensures Reducible(ops) && Value(ops) == -1
  {
    var last := [Op(1, ' ', 0)];
    assert ops[1..] == last && last[1..] == [];
    assert Terms(0, '+', -1, ' ', []) == -1;
    assert Terms(0, '+', -1, '*', last) == -1;
  }

  /** A field `-1`, as in the source's `dexterity; -1` test, is the number -1. */
  lemma EvaluateMinusOne(records: Records, rolls: seq<nat>)
    ensures Evaluate("-1", records, rolls) == Done(-1, rolls)
  {
    var tokens, ops := MinusOneEntries(records, rolls);
    EvaluateFrom("-1", tokens, ops, -1, records, rolls, rolls);
  }

  /** The die term `NdS` as an operand: its text and the value its entry holds. */
  lemma DieOperand(n: nat, s: nat, records: Records, rolls: seq<nat>) returns (t: string, d: int)
    requires 0 < n <= I32Max && 0 < s <= I32Max && n * s <= I32Max && rolls != []
    ensures t == DieText(n, s) && d == DieValue(rolls[0], n, s)
    ensures t != [] && NoneIn(t, Operators)
    ensures TokenOp(t + "*", records, rolls) == Done(Op(d, '*', 2), rolls[1..])
  {
    t := DieText(n, s);
    d := DieValue(rolls[0], n, s);
    DieTextPlain(n, s);
    TokenDie(n, s, '*', records, rolls);
  }

  /** A die term holds no selector. */
  lemma DieTextNoSelector(n: nat, s: nat)
    ensures NoneIn(DieText(n, s), {'l', 'h'})
  {
    DigitsAvoid(NatToString(n), {'l', 'h'});
    DigitsAvoid(NatToString(s), {'l', 'h'});
    assert DieText(n, s) == NatToString(n) + ['d'] + NatToString(s);
  }

  /** `NdS` followed by a selector and `MdT` splits into the two dice. */
  lemma PickPieces(t1: string, sel: char, t2: string)
    requires IsSelector(sel) && t2 != [] && NoneIn(t1, {'l', 'h'}) && NoneIn(t2, {'l', 'h'})
    ensures SplitInclusive(t1 + [sel] + t2, {'l', 'h'}) == [t1 + [sel], t2]
  {
    SplitInclusiveAfter(t1, sel, t2, {'l', 'h'});
    SplitInclusiveSingle(t2, {'l', 'h'});
  }

  /** Two terms joined by a selector: the first term draws first, and the selector picks between their values. */
  lemma OperandPickTerms(t1: string, sel: char, t2: string, a: int, b: int, rolls: seq<nat>, r1: seq<nat>, r2: seq<nat>)
    requires IsSelector(sel) && t2 != [] && NoneIn(t1, {'l', 'h'}) && NoneIn(t2, {'l', 'h'})
    requires Term(t1, rolls) == Done(a, r1) && Term(t2, r1) == Done(b, r2)
    ensures Operand(t1 + [sel] + t2, rolls) == Done(Pick(sel, a, b), r2)
  {
    var e := t1 + [sel] + t2;
    assert e[|t1|] == sel;
    PickPieces(t1, sel, t2);
    var pieces := [t1 + [sel], t2];
    assert DropLast(pieces[0]) == t1 && pieces[0][|pieces[0]| - 1] == sel && pieces[2..] == [];
  }

  /** A die term read as a term: its text, its value and the stream after its one draw. */
  lemma DieAsTerm(n: nat, s: nat, rolls: seq<nat>) returns (t: string, d: int, r: seq<nat>)
    requires 0 < n && 0 < s && n * s <= I32Max && rolls != []
    ensures t == DieText(n, s) && d == DieValue(rolls[0], n, s) && r == rolls[1..]
    ensures t != [] && NoneIn(t, {'l', 'h'}) && Term(t, rolls) == Done(d, r)
  {
    assert n <= n * s && s <= n * s;
    t, d, r := DieText(n, s), DieValue(rolls[0], n, s), rolls[1..];
    DieTextNoSelector(n, s);
    DieTextPlain(n, s);
    TermDie(n, s, rolls);
  }

  /**
   * The source's `1d20l1d20` and `1d20h1d20` tests, for any two dice: the
   * first die takes the first draw, and `l` keeps the lower value, `h` the
   * higher.
   */
  lemma OperandPick(n1: nat, s1: nat, sel: char, n2: nat, s2: nat, rolls: seq<nat>)
    requires IsSelector(sel) && 0 < n1 && 0 < s1 && n1 * s1 <= I32Max && 0 < n2 && 0 < s2 && n2 * s2 <= I32Max
    requires |rolls| >= 2
    ensures Operand(DieText(n1, s1) + [sel] + DieText(n2, s2), rolls)
         == Done(Pick(sel, DieValue(rolls[0], n1, s1), DieValue(rolls[1], n2, s2)), rolls[2..])
  {
    var t1, a, r1 := DieAsTerm(n1, s1, rolls);
    var t2, b, r2 := DieAsTerm(n2, s2, r1);
    assert rolls[1..][0] == rolls[1] && rolls[1..][1..] == rolls[2..];
    OperandPickTerms(t1, sel, t2, a, b, rolls, r1, r2);
  }

  // ----- evaluate_and_compare -----

  /**
   * How an expression is evaluated against the records, drawing from the
   * stream. `evaluate_and_compare` and `evaluate_result` are stated for any
   * such evaluator; the model's is `Evaluate`.
   */
  type ExpEval = (string, Records, seq<nat>) -> Outcome<int, string>

  /** `evaluate_and_compare`: the left expression first, then the right one on what is left of the stream. */
  function CompareOutcome(eval: ExpEval, lhe: string, rhe: string, comp: AdventureFormat.Comparison, records: Records, rolls: seq<nat>)
    : Outcome<bool, string>
  {
    match eval(lhe, records, rolls)
    case Stuck => Stuck
    case Failed(e, r) => Failed(e, r)
    case Done(l, r1) =>
      match eval(rhe, records, r1)
      case Stuck => Stuck
      case Failed(e, r) => Failed(e, r)
      case Done(v, r2) => Done(AdventureFormat.Compare(comp, l, v), r2)
  }

  method EvaluateAndCompare(lhe: string, rhe: string, comp: AdventureFormat.Comparison, records: Records, rand: Random)
    returns (r: Result<bool, string>)
    requires CompareOutcome(Evaluate, lhe, rhe, comp, records, rand.rolls) != Stuck
    modifies rand
    ensures Delivers(CompareOutcome(Evaluate, lhe, rhe, comp, records, old(rand.rolls)), r, rand.rolls)
  {
    var l := EvaluateExpression(lhe, records, rand);
    if l.Err? {
      return Err(l.error);
    }
    var v := EvaluateExpression(rhe, records, rand);
    if v.Err? {
      return Err(v.error);
    }
    return Ok(AdventureFormat.Compare(comp, l.value, v.value));
  }

  /** The comparison that holds exactly when `c` does not. */
  function Opposite(c: AdventureFormat.Comparison): AdventureFormat.Comparison {
    match c
    case Greater => AdventureFormat.LessEqual
    case GreaterEqual => AdventureFormat.Less
    case Less => AdventureFormat.GreaterEqual
    case LessEqual => AdventureFormat.Greater
    case Equal => AdventureFormat.NotEqual
    case NotEqual => AdventureFormat.Equal
  }

  /**
   * Comparing with the opposite comparison draws the same numbers and gives
   * the opposite answer; the comparison never changes whether the expressions
   * evaluate.
   */
  lemma CompareOpposite(eval: ExpEval, lhe: string, rhe: string, comp: AdventureFormat.Comparison, records: Records, rolls: seq<nat>)
    ensures CompareOutcome(eval, lhe, rhe, comp, records, rolls).Done?
        <==> CompareOutcome(eval, lhe, rhe, Opposite(comp), records, rolls).Done?
    ensures CompareOutcome(eval, lhe, rhe, comp, records, rolls).Done? ==>
      CompareOutcome(eval, lhe, rhe, Opposite(comp), records, rolls)
        == Done(!CompareOutcome(eval, lhe, rhe, comp, records, rolls).value, CompareOutcome(eval, lhe, rhe, comp, records, rolls).rest)
    ensures !CompareOutcome(eval, lhe, rhe, comp, records, rolls).Done? ==>
      CompareOutcome(eval, lhe, rhe, Opposite(comp), records, rolls) == CompareOutcome(eval, lhe, rhe, comp, records, rolls)
  {
  }

  /** An error on the left ends the comparison before the right expression draws anything. */
  lemma CompareLeftFirst(eval: ExpEval, lhe: string, rhe: string, comp: AdventureFormat.Comparison, records: Records, rolls: seq<nat>)
    requires eval(lhe, records, rolls).Failed?
    ensures CompareOutcome(eval, lhe, rhe, comp, records, rolls) == Failed(eval(lhe, records, rolls).error, eval(lhe, records, rolls).rest)
  {
  }

  /** The source's `1d20 < 1d10` test, for any two dice: the left die takes the first draw, the right die the second. */
  lemma CompareDice(n1: nat, s1: nat, n2: nat, s2: nat, comp: AdventureFormat.Comparison, records: Records, rolls: seq<nat>)
    requires 0 < n1 && 0 < s1 && n1 * s1 <= I32Max && 0 < n2 && 0 < s2 && n2 * s2 <= I32Max && |rolls| >= 2
    ensures CompareOutcome(Evaluate, DieText(n1, s1), DieText(n2, s2), comp, records, rolls)
         == Done(AdventureFormat.Compare(comp, DieValue(rolls[0], n1, s1), DieValue(rolls[1], n2, s2)), rolls[2..])
  {
    var l, r1 := DieEvaluates(n1, s1, records, rolls);
    var v, r2 := DieEvaluates(n2, s2, records, rolls[1..]);
    assert rolls[1..][0] == rolls[1] && rolls[1..][1..] == rolls[2..];
  }

  /** A die term on its own: one draw, the die's value. */
  lemma DieEvaluates(n: nat, s: nat, records: Records, rolls: seq<nat>) returns (d: int, r: seq<nat>)
    requires 0 < n && 0 < s && n * s <= I32Max && rolls != []
    ensures d == DieValue(rolls[0], n, s) && r == rolls[1..]
    ensures Evaluate(DieText(n, s), records, rolls) == Done(d, r)
  {
    assert n <= n * s && s <= n * s;
    EvaluateDie(n, s, records, rolls);
    d, r := DieValue(rolls[0], n, s), rolls[1..];
  }

  // ----- evaluate_result -----

  /** Record changes: a new value for each keyword named. */
  type Changes = map<string, int>

  /**
   * The loop of `evaluate_result` over the fields still to read: the last
   * field is the next page; before it, each name is followed by an
   * expression, evaluated on the spot and recorded (a later change to the
   * same name replaces an earlier one).  Running out of fields after a name's
   * expression is the source's `unreachable!()`, and an expression that fails
   * to evaluate fails the whole result, its message dropped.
   */
  function ResultSteps(eval: ExpEval, args: seq<string>, changes: Option<Changes>, records: Records, rolls: seq<nat>)
    : Outcome<(string, Option<Changes>), ()>
    decreases |args|
  {
    if args == [] then Stuck
    else if |args| == 1 then Done((args[0], changes), rolls)
    else
      var h := Start(changes);
      match eval(args[1], records, rolls)
      case Stuck => Stuck
      case Failed(_, r) => Failed((), r)
      case Done(v, r) => ResultSteps(eval, args[2..], Some(h[args[0] := v]), records, r)
  }

  /** The table the changes start from: empty before the first change. */
  function Start(changes: Option<Changes>): Changes {
    if changes.None? then map[] else changes.value
  }

  /** `evaluate_result` on a story result's expression: its field list, with no changes yet. */
  function ResultOf(res: string, records: Records, rolls: seq<nat>): Outcome<(string, Option<Changes>), ()> {
    ResultSteps(Evaluate, Fields(res), None, records, rolls)
  }

  method EvaluateResult(res: string, records: Records, rand: Random) returns (r: Result<(string, Option<Changes>), ()>)
    requires ResultOf(res, records, rand.rolls) != Stuck
    modifies rand
    ensures Delivers(ResultOf(res, records, old(rand.rolls)), r, rand.rolls)
  {
    var args := Fields(res);
    var changes: Option<Changes> := None;
    ghost var goal := ResultOf(res, records, rand.rolls);
    while true
      invariant ResultSteps(Evaluate, args, changes, records, rand.rolls) == goal
      decreases |args|
    {
      if args == [] {
        assert false;
      }
      var ar := args[0];
      args := args[1..];
      if |args| == 0 {
        return Ok((ar, changes));
      }
      var val := args[0];
      args := args[1..];
      var h := if changes.None? then map[] else changes.value;
      var e := EvaluateExpression(val, records, rand);
      if e.Err? {
        return Err(());
      }
      changes := Some(h[ar := e.value]);
    }
  }

  /**
   * The reference reading of the fields before the next page: name and
   * expression pairs, the expressions evaluated left to right.
   */
  function Assignments(eval: ExpEval, args: seq<string>, records: Records, rolls: seq<nat>): (o: Outcome<seq<(string, int)>, ()>)
    requires |args| % 2 == 0
    ensures o.Done? ==> |o.value| == |args| / 2
    decreases |args|
  {
    if args == [] then Done([], rolls)
    else
      match eval(args[1], records, rolls)
      case Stuck => Stuck
      case Failed(_, r) => Failed((), r)
      case Done(v, r) =>
        match Assignments(eval, args[2..], records, r)
        case Stuck => Stuck
        case Failed(e, r2) => Failed(e, r2)
        case Done(ps, r2) => Done([(args[0], v)] + ps, r2)
  }

  /** The pairs applied in order to a table. */
  function Applied(m: Changes, ps: seq<(string, int)>): Changes
    decreases |ps|
  {
    if ps == [] then m else Applied(m[ps[0].0 := ps[0].1], ps[1..])
  }

  /**
   * With an odd number of fields the loop returns the last field as the
   * next page and the pairs before it applied in order; the table stays
   * `None` exactly when there are no pairs.
   */
  lemma {:induction false} ResultStepsPairs(eval: ExpEval, args: seq<string>, changes: Option<Changes>, records: Records, rolls: seq<nat>)
    requires |args| % 2 == 1
    ensures ResultSteps(eval, args, changes, records, rolls) ==
      match Assignments(eval, args[..|args| - 1], records, rolls)
      case Stuck => Stuck
      case Failed(_, r) => Failed((), r)
      case Done(ps, r) => Done((args[|args| - 1], if ps == [] then changes else Some(Applied(Start(changes), ps))), r)
    decreases |args|
  {
    var pairs := args[..|args| - 1];
    if |args| == 1 {
      assert pairs == [];
    } else {
      var rest := args[2..];
      assert |pairs| % 2 == 0 && |rest| % 2 == 1 && |rest[..|rest| - 1]| % 2 == 0 by {
        var n := |args|;
        assert |pairs| == n - 1 && |rest| == n - 2 && |rest[..|rest| - 1]| == n - 3;
      }
      assert pairs[1] == args[1] && pairs[0] == args[0];
      assert pairs[2..] == rest[..|rest| - 1];
      assert rest[|rest| - 1] == args[|args| - 1];
      match eval(args[1], records, rolls)
      case Stuck =>
      case Failed(_, r) =>
      case Done(v, r) =>
        var m := Start(changes)[args[0] := v];
        ResultStepsPairs(eval, rest, Some(m), records, r);
        assert ResultSteps(eval, args, changes, records, rolls) == ResultSteps(eval, rest, Some(m), records, r);
        match Assignments(eval, rest[..|rest| - 1], records, r)
        case Stuck =>
        case Failed(_, r2) =>
        case Done(more, r2) =>
          var ps := [(args[0], v)] + more;
          assert Assignments(eval, pairs, records, rolls) == Done(ps, r2);
          assert ps[0] == (args[0], v) && ps[1..] == more;
          assert Applied(Start(changes), ps) == Applied(m, more);
          if more == [] {
            assert Applied(m, more) == m;
          }
    }
  }

  /** With an even number of fields the loop never completes: it stops on the missing page name, or fails earlier. */
  lemma {:induction false} ResultStepsEven(eval: ExpEval, args: seq<string>, changes: Option<Changes>, records: Records, rolls: seq<nat>)
    requires |args| % 2 == 0
    ensures !ResultSteps(eval, args, changes, records, rolls).Done?
    decreases |args|
  {
    if args != [] {
      match eval(args[1], records, rolls)
      case Stuck =>
      case Failed(_, r) =>
      case Done(v, r) =>
        ResultStepsEven(eval, args[2..], Some(Start(changes)[args[0] := v]), records, r);
    }
  }

  /** A name is in the applied table exactly when the table had it or some pair names it. */
  lemma {:induction false} AppliedKeys(m: Changes, ps: seq<(string, int)>, k: string)
    ensures k in Applied(m, ps) <==> k in m || exists i :: 0 <= i < |ps| && ps[i].0 == k
    decreases |ps|
  {
    if ps != [] {
      AppliedKeys(m[ps[0].0 := ps[0].1], ps[1..], k);
      if exists i :: 0 <= i < |ps[1..]| && ps[1..][i].0 == k {
        var i :| 0 <= i < |ps[1..]| && ps[1..][i].0 == k;
        assert ps[i + 1].0 == k;
      }
      if exists i :: 0 <= i < |ps| && ps[i].0 == k {
        var i :| 0 <= i < |ps| && ps[i].0 == k;
        if i > 0 {
          assert ps[1..][i - 1].0 == k;
        }
      }
    }
  }

  /** The last pair naming `k` decides its value. */
  lemma {:induction false} AppliedLast(m: Changes, ps: seq<(string, int)>, i: nat)
    requires i < |ps| && forall j :: i < j < |ps| ==> ps[j].0 != ps[i].0
    ensures ps[i].0 in Applied(m, ps) && Applied(m, ps)[ps[i].0] == ps[i].1
    decreases |ps|
  {
    if i == 0 {
      AppliedUntouched(m[ps[0].0 := ps[0].1], ps[1..], ps[0].0);
    } else {
      assert forall j :: i - 1 < j < |ps[1..]| ==> ps[1..][j].0 != ps[1..][i - 1].0 by {
        forall j | i - 1 < j < |ps[1..]|
          ensures ps[1..][j].0 != ps[1..][i - 1].0
        {
          assert ps[1..][j] == ps[j + 1];
        }
      }
      AppliedLast(m[ps[0].0 := ps[0].1], ps[1..], i - 1);
    }
  }

  /** A name no pair mentions keeps the value it had. */
  lemma {:induction false} AppliedUntouched(m: Changes, ps: seq<(string, int)>, k: string)
    requires k in m && forall j :: 0 <= j < |ps| ==> ps[j].0 != k
    ensures k in Applied(m, ps) && Applied(m, ps)[k] == m[k]
    decreases |ps|
  {
    if ps != [] {
      assert forall j :: 0 <= j < |ps[1..]| ==> ps[1..][j] == ps[j + 1];
      AppliedUntouched(m[ps[0].0 := ps[0].1], ps[1..], k);
    }
  }

  /** A story result written out as fields: `evaluate_result` reads back exactly those fields. */
  lemma ResultOfFields(fs: seq<string>, records: Records, rolls: seq<nat>)
    requires forall k :: 0 <= k < |fs| ==> IsField(fs[k])
    ensures ResultOf(Join(fs, ';'), records, rolls) == ResultSteps(Evaluate, fs, None, records, rolls)
  {
    FieldsJoin(fs);
  }

  /** The source's `next scene;` test: a bare page name changes no record and draws nothing. */
  lemma ResultBare(next: string, records: Records, rolls: seq<nat>)
    requires IsField(next)
    ensures ResultOf(next, records, rolls) == Done((next, None), rolls)
  {
    ResultOfFields([next], records, rolls);
  }

  /** The source's `strength; 1; next scene;` test: one change to a number. */
  lemma ResultOneChange(name: string, v: nat, next: string, records: Records, rolls: seq<nat>)
    requires v <= I32Max
    ensures ResultSteps(Evaluate, [name, NatToString(v), next], None, records, rolls) == Done((next, Some(map[name := v])), rolls)
  {
    var t := NatToString(v);
    assert t != [] && NoneIn(t, Operators) by {
      DigitsAvoid(t, Operators);
    }
    EvaluateOneToken(t, records, rolls);
    DigitsAvoid(t, {'['});
    SubstitutedPlain(t, records);
    DigitsAvoid(t, {'l', 'h'});
    TermOfNumber(v, rolls);
    assert [name, t, next][2..] == [next];
  }
}
