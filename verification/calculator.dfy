/** The calculator screen as a state machine over its display text. The
    numbers behind the text (`parseFloat`) and the floating-point result of
    an evaluation are outside the model: evaluation takes the result text
    from an evaluator function given as a parameter. */
module Calculator {
  import opened Options
  import opened Decimal

  /** The operator buttons: +, -, multiplication sign, division sign. */
  datatype CalcOp = Plus | Minus | Times | Divide

  /** `calcDisplay`, `calcPrevious`, `calcOperation`, `calcJustCalculated`.
      `previous` holds the display text captured by an operator press; the
      application stores `parseFloat` of that text. */
  datatype CalcState = CalcState(display: string, previous: Option<string>, op: Option<CalcOp>, justCalculated: bool)

  /** `clearCalc()`: a zero entry with nothing pending; also the state the
      calculator starts in. */
  function ClearCalc(): (r: CalcState)
    ensures !r.justCalculated && IsCanonical(r.display) && ValueIn(r.display, 10) == 0
    ensures r.op.None? && r.previous.None?
  {
    CalcState("0", None, None, false)
  }

  /** The result text of applying an operator to the previous value and the
      current display: `String(previous op parseFloat(display))`. */
  type Evaluator = (Option<string>, CalcOp, string) -> string

  /** `handleCalcNumber(digit)`. */
  function HandleNumber(s: CalcState, digit: char): (r: CalcState)
    ensures r.previous == s.previous && r.op == s.op && !r.justCalculated
    ensures s.justCalculated || s.display == "0" ==> r.display == [digit]
    ensures !s.justCalculated && s.display != "0" ==> |r.display| == |s.display| + 1
    ensures !s.justCalculated && s.display != "0" ==> r.display[..|s.display|] == s.display && r.display[|s.display|] == digit
  {
    if s.justCalculated then s.(display := [digit], justCalculated := false)
    else if s.display == "0" then s.(display := [digit])
    else s.(display := s.display + [digit])
  }

  /** `handleCalcOperation(op)`: the display becomes the pending left operand. */
  function HandleOperation(s: CalcState, op: CalcOp): (r: CalcState)
    ensures r.previous == Some(s.display) && r.op == Some(op)
    ensures r.display == "0" && !r.justCalculated
  {
    CalcState("0", Some(s.display), Some(op), false)
  }

  /** `handleCalcBackspace()`. */
  function HandleBackspace(s: CalcState): (r: CalcState)
    ensures r.previous == s.previous && r.op == s.op && !r.justCalculated
    ensures |s.display| > 1 ==> r.display + [s.display[|s.display| - 1]] == s.display
    ensures |s.display| <= 1 ==> r.display == "0"
  {
    if |s.display| > 1 then s.(display := s.display[..|s.display| - 1], justCalculated := false)
    else s.(display := "0", justCalculated := false)
  }

  /** The state changes of `calculateResult()`; the history line it records
      is not modelled. */
  function CalculateResult(s: CalcState, eval: Evaluator): (r: CalcState)
    ensures s.op.None? ==> r == s
    ensures s.op.Some? ==> r.op.None? && r.previous.None? && r.justCalculated
    ensures s.op.Some? ==> r.display == eval(s.previous, s.op.value, s.display)
  {
    match s.op
    case None => s
    case Some(op) => CalcState(eval(s.previous, op, s.display), None, None, true)
  }

  /** The calculator's buttons. */
  datatype Key = Digit(c: char) | Operator(op: CalcOp) | Backspace | Clear | Equals

  function Step(s: CalcState, k: Key, eval: Evaluator): CalcState {
    match k
    case Digit(c) => HandleNumber(s, c)
    case Operator(op) => HandleOperation(s, op)
    case Backspace => HandleBackspace(s)
    case Clear => ClearCalc()
    case Equals => CalculateResult(s, eval)
  }

  /** The state after pressing the keys in order. */
  function Run(s: CalcState, keys: seq<Key>, eval: Evaluator): CalcState {
    if |keys| == 0 then s else Step(Run(s, keys[..|keys| - 1], eval), keys[|keys| - 1], eval)
  }

  /** An operator is pending exactly when a left operand is. */
  predicate PendingConsistent(s: CalcState) {
    s.op.Some? <==> s.previous.Some?
  }

  lemma StepKeepsPendingConsistent(s: CalcState, k: Key, eval: Evaluator)
    requires PendingConsistent(s)
    ensures PendingConsistent(Step(s, k, eval))
    ensures k.Equals? ==> Step(s, k, eval).op.None?
  {
  }

  /** A display being typed: not a shown result, and a canonical numeral. */
  predicate EntryState(s: CalcState) {
    !s.justCalculated && IsCanonical(s.display)
  }

  predicate IsDigitKey(k: Key) {
    k.Digit? && IsDecimalDigit(k.c)
  }

  /** Every key but the equals key. */
  predicate IsEditingKey(k: Key) {
    IsDigitKey(k) || k.Operator? || k.Backspace? || k.Clear?
  }

  /** Operator and clear keys start an entry from any state, and so does a
      digit typed over a shown result or over "0". */
  lemma EntryKeysStartEntry(s: CalcState, k: Key, eval: Evaluator)
    requires k.Operator? || k.Clear? || (IsDigitKey(k) && (s.justCalculated || s.display == "0"))
    ensures EntryState(Step(s, k, eval))
    ensures !k.Digit? ==> Step(s, k, eval).display == "0"
  {
  }

  /** Typing a digit shifts the entered number one decimal place left and
      adds the digit. */
  lemma DigitEntryValue(s: CalcState, c: char)
    requires EntryState(s) && IsDecimalDigit(c)
    ensures EntryState(HandleNumber(s, c))
    ensures ValueIn(HandleNumber(s, c).display, 10) == 10 * ValueIn(s.display, 10) + DigitValue(c)
  {
    var r := HandleNumber(s, c);
    if s.display != "0" {
      assert r.display[..|r.display| - 1] == s.display;
      assert r.display[0] == s.display[0];
    }
  }

  /** Backspace drops the entered number's last decimal digit. */
  lemma BackspaceValue(s: CalcState)
    requires IsCanonical(s.display)
    ensures EntryState(HandleBackspace(s))
    ensures ValueIn(HandleBackspace(s).display, 10) == ValueIn(s.display, 10) / 10
  {
    var r := HandleBackspace(s);
    if |s.display| > 1 {
      assert r.display[0] == s.display[0];
    }
  }

  /** Once an entry has started, editing keys keep the display a canonical
      numeral. */
  lemma EditingKeyKeepsEntry(s: CalcState, k: Key, eval: Evaluator)
    requires EntryState(s) && IsEditingKey(k)
    ensures EntryState(Step(s, k, eval))
  {
    match k
    case Digit(c) => DigitEntryValue(s, c);
    case Backspace => BackspaceValue(s);
    case _ =>
  }

  lemma {:induction false} EditingKeysKeepEntry(s: CalcState, keys: seq<Key>, eval: Evaluator)
    requires EntryState(s)
    requires forall i :: 0 <= i < |keys| ==> IsEditingKey(keys[i])
    ensures EntryState(Run(s, keys, eval))
  {
    if |keys| > 0 {
      EditingKeysKeepEntry(s, keys[..|keys| - 1], eval);
      EditingKeyKeepsEntry(Run(s, keys[..|keys| - 1], eval), keys[|keys| - 1], eval);
    }
  }

  /** The digit keys for a string of digits, in order. */
  function DigitKeys(ds: string): (keys: seq<Key>)
    ensures |keys| == |ds|
    ensures forall i :: 0 <= i < |ds| ==> keys[i] == Digit(ds[i])
  {
    if |ds| == 0 then [] else DigitKeys(ds[..|ds| - 1]) + [Digit(ds[|ds| - 1])]
  }

  /** Typing digits into a cleared display shows the canonical numeral of
      the number they spell: leading zeros are absorbed. */
  lemma {:induction false} TypedDigitsShowTheirValue(s: CalcState, ds: string, eval: Evaluator)
    requires EntryState(s) && s.display == "0"
    requires AllDigitsIn(ds, 10)
    ensures Run(s, DigitKeys(ds), eval).display == NatToDecimal(ValueIn(ds, 10))
  {
    if |ds| == 0 {
    } else {
      var init := ds[..|ds| - 1];
      var c := ds[|ds| - 1];
      var keys := DigitKeys(ds);
      assert keys[..|keys| - 1] == DigitKeys(init);
      TypedDigitsShowTheirValue(s, init, eval);
      var before := Run(s, DigitKeys(init), eval);
      EditingKeysKeepEntry(s, DigitKeys(init), eval);
      ValueOfRendering(ValueIn(init, 10));
      DigitEntryValue(before, c);
      var after := HandleNumber(before, c);
      assert Run(s, keys, eval) == after;
      CanonicalIsRendering(after.display);
    }
  }

  /** After an operator, the next digit starts a new number instead of
      extending the left operand. */
  lemma OperatorThenDigitStartsFresh(s: CalcState, op: CalcOp, c: char, eval: Evaluator)
    ensures Run(s, [Operator(op), Digit(c)], eval).display == [c]
    ensures Run(s, [Operator(op), Digit(c)], eval).previous == Some(s.display)
  {
    var keys := [Operator(op), Digit(c)];
    assert keys[..1] == [Operator(op)];
    assert [Operator(op)][..0] == [];
    assert Run(s, [Operator(op)][..0], eval) == s;
    var picked := Run(s, [Operator(op)], eval);
    assert picked == HandleOperation(s, op);
    assert Run(s, keys, eval) == HandleNumber(picked, c);
  }

  /** After a result is shown, the next digit replaces it. */
  lemma ResultThenDigitStartsFresh(s: CalcState, c: char, eval: Evaluator)
    requires s.op.Some?
    ensures Run(s, [Equals, Digit(c)], eval).display == [c]
    ensures Run(s, [Equals, Digit(c)], eval).op.None?
  {
    var keys := [Equals, Digit(c)];
    assert keys[..1] == [Equals];
    assert [Equals][..0] == [];
    assert Run(s, [Equals][..0], eval) == s;
    var shown := Run(s, [Equals], eval);
    assert shown == CalculateResult(s, eval);
    assert Run(s, keys, eval) == HandleNumber(shown, c);
  }
}
