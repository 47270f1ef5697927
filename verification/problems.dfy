/** Practice problems: the difficulty tiers, the random problem generator
    (`getRandomNumber`, `generateProblem`) and the two operation-symbol
    choosers of good-math-app.tsx. */
module Problems {
  import opened Options

  /** The operation names the application stores on a problem. `Other`
      stands for any name outside the four it knows. */
  datatype Operation = Addition | Subtraction | Multiplication | Division | Other

  datatype Difficulty = Easy | Medium | Hard

  datatype Problem = Problem(num1: int, num2: int, operation: Operation, answer: int)

  /** An inclusive range of operand values. */
  datatype Range = Range(min: int, max: int)

  function RangeOf(d: Difficulty): Range {
    match d
    case Easy => Range(1, 10)
    case Medium => Range(1, 20)
    case Hard => Range(1, 50)
  }

  predicate InTier(v: int, d: Difficulty) {
    RangeOf(d).min <= v <= RangeOf(d).max
  }

  /** The largest draw a tier accepts: `Math.floor(Math.random() * (max - min + 1))`
      is an integer in [0, max - min] because `Math.random()` lies in [0, 1). */
  function Span(d: Difficulty): nat {
    RangeOf(d).max - RangeOf(d).min
  }

  /** `getRandomNumber(difficulty)`, with the floored random draw as a parameter. */
  function GetRandomNumber(d: Difficulty, draw: nat): (v: int)
    requires draw <= Span(d)
    ensures InTier(v, d)
  {
    draw + RangeOf(d).min
  }

  /** Every value of a tier is produced by exactly one draw. */
  lemma RandomNumberCoversTier(d: Difficulty, v: int)
    requires InTier(v, d)
    ensures exists draw: nat :: draw <= Span(d) && GetRandomNumber(d, draw) == v
    ensures forall draw: nat :: draw <= Span(d) && GetRandomNumber(d, draw) == v ==> draw == v - RangeOf(d).min
  {
    var draw: nat := v - RangeOf(d).min;
    assert GetRandomNumber(d, draw) == v;
  }

  /** The four draws `generateProblem` makes, in order: the two operands,
      then, for division only, the divisor (from the easy tier) and the
      answer (from the requested tier). */
  datatype Draws = Draws(first: nat, second: nat, divisor: nat, quotient: nat)

  predicate ValidDraws(op: Operation, d: Difficulty, w: Draws) {
    && w.first <= Span(d)
    && w.second <= Span(d)
    && (op == Division ==> w.divisor <= Span(Easy) && w.quotient <= Span(d))
  }

  /** The exact result of an operation: `None` when a division is not exact.
      An unknown operation reads as addition. Operands of generated problems
      are positive, where `/` and `%` agree with JavaScript's. */
  function ExactResult(op: Operation, a: int, b: int): Option<int> {
    match op
    case Addition => Some(a + b)
    case Subtraction => Some(a - b)
    case Multiplication => Some(a * b)
    case Division => if b != 0 && a % b == 0 then Some(a / b) else None
    case Other => Some(a + b)
  }

  /** The problems the generator promises for an operation and a tier:
      an exact answer, operands in the tier, no negative subtraction, and
      for division an easy-tier divisor and an answer in the tier. */
  predicate Generatable(op: Operation, d: Difficulty, p: Problem) {
    && p.operation == op
    && ExactResult(op, p.num1, p.num2) == Some(p.answer)
    && (if op == Division then InTier(p.num2, Easy) && InTier(p.answer, d)
        else InTier(p.num1, d) && InTier(p.num2, d) && (op == Subtraction ==> p.num1 >= p.num2))
  }

  /** `generateProblem()` for the current operation and difficulty. */
  function GenerateProblem(op: Operation, d: Difficulty, w: Draws): (p: Problem)
    requires ValidDraws(op, d, w)
    ensures p.operation == op
    ensures ExactResult(op, p.num1, p.num2) == Some(p.answer)
    ensures p.answer >= 0
    ensures op != Division ==> InTier(p.num1, d) && InTier(p.num2, d)
    ensures op != Division ==>
      var a, b := GetRandomNumber(d, w.first), GetRandomNumber(d, w.second);
      (p.num1, p.num2) == if op == Subtraction && b > a then (b, a) else (a, b)
    ensures op == Subtraction ==> p.num1 >= p.num2
    ensures op == Division ==> InTier(p.num2, Easy) && InTier(p.answer, d)
    ensures op == Division ==> p.num2 == GetRandomNumber(Easy, w.divisor) && p.answer == GetRandomNumber(d, w.quotient)
    ensures op == Division ==> p.num1 % p.num2 == 0 && p.num1 / p.num2 == p.answer
  {
    var a := GetRandomNumber(d, w.first);
    var b := GetRandomNumber(d, w.second);
    var (num1, num2) := if op == Subtraction && b > a then (b, a) else (a, b);
    if op == Division then
      var divisor := GetRandomNumber(Easy, w.divisor);
      var answer := GetRandomNumber(d, w.quotient);
      assert (divisor * answer) / divisor == answer && (divisor * answer) % divisor == 0 by {
        DivideExactProduct(divisor, answer);
      }
      Problem(divisor * answer, divisor, op, answer)
    else
      var answer := match op
        case Addition => num1 + num2
        case Subtraction => num1 - num2
        case Multiplication => num1 * num2
        case _ => num1 + num2;
      Problem(num1, num2, op, answer)
  }

  lemma {:induction false} ProductAtLeast(b: int, k: int)
    requires b > 0 && k >= 1
    ensures b * k >= b
  {
    if k > 1 {
      ProductAtLeast(b, k - 1);
      assert b * k == b * (k - 1) + b;
    }
  }

  /** Dividing a multiple of a positive divisor is exact. */
  lemma DivideExactProduct(b: int, q: int)
    requires b > 0
    ensures (b * q) / b == q && (b * q) % b == 0
  {
    var a := b * q;
    var d := a / b;
    var m := a % b;
    assert b * (q - d) == m by {
      assert a == b * d + m;
      assert b * (q - d) == b * q - b * d;
    }
    if q - d >= 1 {
      ProductAtLeast(b, q - d);
      assert false;
    }
    if d - q >= 1 {
      ProductAtLeast(b, d - q);
      assert false;
    }
  }

  /** Every generated problem is one the generator promises. */
  lemma GeneratedIsGeneratable(op: Operation, d: Difficulty, w: Draws)
    requires ValidDraws(op, d, w)
    ensures Generatable(op, d, GenerateProblem(op, d, w))
  {
  }

  lemma DivisionIsGenerated(d: Difficulty, p: Problem)
    requires Generatable(Division, d, p)
    ensures ValidDraws(Division, d, Draws(0, 0, p.num2 - 1, p.answer - 1))
    ensures GenerateProblem(Division, d, Draws(0, 0, p.num2 - 1, p.answer - 1)) == p
  {
    assert p.num1 == p.num2 * p.answer by {
      assert p.num1 == p.num2 * (p.num1 / p.num2) + p.num1 % p.num2;
    }
    var w := Draws(0, 0, p.num2 - 1, p.answer - 1);
    assert ValidDraws(Division, d, w);
    assert GetRandomNumber(Easy, w.divisor) == p.num2;
    assert GetRandomNumber(d, w.quotient) == p.answer;
    assert GenerateProblem(Division, d, w) == Problem(p.num2 * p.answer, p.num2, Division, p.answer);
  }

  lemma OperandsAreGenerated(op: Operation, d: Difficulty, p: Problem)
    requires op != Division && Generatable(op, d, p)
    ensures ValidDraws(op, d, Draws(p.num1 - 1, p.num2 - 1, 0, 0))
    ensures GenerateProblem(op, d, Draws(p.num1 - 1, p.num2 - 1, 0, 0)) == p
  {
  }

  /** Conversely, every problem the generator promises comes out of some
      valid draws: the generator leaves none of them out. */
  lemma GeneratableIsGenerated(op: Operation, d: Difficulty, p: Problem)
    requires Generatable(op, d, p)
    ensures exists w :: ValidDraws(op, d, w) && GenerateProblem(op, d, w) == p
  {
    if op == Division {
      DivisionIsGenerated(d, p);
    } else {
      OperandsAreGenerated(op, d, p);
    }
  }

  /** `getOperationSymbol`: the symbol shown next to a problem on screen. */
  function OperationSymbol(op: Operation): (c: char)
    ensures OperationOfSymbol(c).Some?
    ensures OperationOfSymbol(c) == Some(if op == Other then Addition else op)
  {
    match op
    case Addition => '+'
    case Subtraction => '-'
    case Multiplication => '\U{00D7}'  // multiplication sign
    case Division => '\U{00F7}'        // division sign
    case Other => '+'
  }

  /** The symbol chooser of the printed test: an unknown operation prints
      as the division sign there, not the plus sign. */
  function PrintSymbol(op: Operation): (c: char)
    ensures OperationOfSymbol(c).Some?
    ensures OperationOfSymbol(c) == Some(if op == Other then Division else op)
  {
    if op == Addition then '+'
    else if op == Subtraction then '-'
    else if op == Multiplication then '\U{00D7}'
    else '\U{00F7}'
  }

  /** The two symbol choosers agree exactly on the four known operations;
      an unknown operation shows as addition on screen and as division in
      print. */
  lemma SymbolChoosersAgreeOnKnownOperations(op: Operation)
    ensures PrintSymbol(op) == OperationSymbol(op) <==> op != Other
    ensures OperationSymbol(Other) == OperationSymbol(Addition)
    ensures PrintSymbol(Other) == OperationSymbol(Division)
  {
  }

  /** The operator-button switch of the manual test creator: the operation
      named by a symbol, `None` for any other character. */
  function OperationOfSymbol(c: char): (r: Option<Operation>)
    ensures r.Some? ==> r.value != Other
  {
    if c == '+' then Some(Addition)
    else if c == '-' then Some(Subtraction)
    else if c == '\U{00D7}' then Some(Multiplication)
    else if c == '\U{00F7}' then Some(Division)
    else None
  }

  /** `getOperationSymbol` and the creator's switch are inverse on the four
      known operations. */
  lemma SymbolRoundTrip(op: Operation, c: char)
    ensures op != Other ==> OperationOfSymbol(OperationSymbol(op)) == Some(op)
    ensures OperationOfSymbol(c).Some? ==> OperationSymbol(OperationOfSymbol(c).value) == c
  {
  }
}
