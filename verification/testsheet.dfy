/** The printable test under construction: problems are appended with an
    id taken from the clock (`addTestProblem`) and removed by id with an
    order-keeping filter. */
module TestSheet {
  import opened Options
  import opened Problems

  datatype TestProblem = TestProblem(problem: Problem, id: int)

  /** The sheet part of `addTestProblem()`: append the current problem, if
      any, under the id `now` (the reading of `Date.now()`). Drawing the next
      problem and clearing the typed answer are screen state, not modelled. */
  function AddTestProblem(sheet: seq<TestProblem>, current: Option<Problem>, now: int): (r: seq<TestProblem>)
    ensures current.None? ==> r == sheet
    ensures current.Some? ==> |r| == |sheet| + 1 && r[..|sheet|] == sheet
    ensures current.Some? ==> r[|sheet|] == TestProblem(current.value, now)
  {
    match current
    case None => sheet
    case Some(p) => sheet + [TestProblem(p, now)]
  }

  /** `testProblems.filter(prob => prob.id !== id)`. */
  function RemoveTestProblem(sheet: seq<TestProblem>, id: int): (r: seq<TestProblem>)
    ensures forall t :: t in r <==> t in sheet && t.id != id
    ensures |r| <= |sheet|
  {
    if |sheet| == 0 then []
    else (if sheet[0].id == id then [] else [sheet[0]]) + RemoveTestProblem(sheet[1..], id)
  }

  /** `a` is `b` with some elements left out, the rest in their order. */
  predicate SubsequenceOf<T(==)>(a: seq<T>, b: seq<T>) {
    if |a| == 0 then true
    else if |b| == 0 then false
    else if a[0] == b[0] then SubsequenceOf(a[1..], b[1..])
    else SubsequenceOf(a, b[1..])
  }

  function CountId(sheet: seq<TestProblem>, id: int): nat {
    if |sheet| == 0 then 0
    else (if sheet[0].id == id then 1 else 0) + CountId(sheet[1..], id)
  }

  /** Removal keeps the remaining problems in their original order. */
  lemma {:induction false} RemoveKeepsOrder(sheet: seq<TestProblem>, id: int)
    ensures SubsequenceOf(RemoveTestProblem(sheet, id), sheet)
  {
    if |sheet| > 0 {
      RemoveKeepsOrder(sheet[1..], id);
      var rest := RemoveTestProblem(sheet[1..], id);
      if sheet[0].id == id {
        assert RemoveTestProblem(sheet, id) == rest;
        SkipLeavesSubsequence(rest, sheet);
      } else {
        var r := RemoveTestProblem(sheet, id);
        assert r == [sheet[0]] + rest;
        assert |r| > 0 && r[0] == sheet[0] && r[1..] == rest;
      }
    }
  }

  /** A subsequence of the tail is a subsequence of the whole. */
  lemma {:induction false} SkipLeavesSubsequence<T>(a: seq<T>, b: seq<T>)
    requires |b| > 0 && SubsequenceOf(a, b[1..])
    ensures SubsequenceOf(a, b)
    decreases |b|, 0
  {
    if |a| > 0 && a[0] == b[0] {
      DropHeadLeavesSubsequence(a, b[1..]);
    }
  }

  /** Dropping the head of a subsequence leaves a subsequence. */
  lemma {:induction false} DropHeadLeavesSubsequence<T>(a: seq<T>, b: seq<T>)
    requires |a| > 0 && SubsequenceOf(a, b)
    ensures SubsequenceOf(a[1..], b)
    decreases |b|, 1
  {
    if a[0] == b[0] {
      SkipLeavesSubsequence(a[1..], b);
    } else {
      DropHeadLeavesSubsequence(a, b[1..]);
      SkipLeavesSubsequence(a[1..], b);
    }
  }

  /** Removal distributes over concatenation: each part of the sheet is
      filtered in place. */
  lemma {:induction false} RemoveDistributes(a: seq<TestProblem>, b: seq<TestProblem>, id: int)
    ensures RemoveTestProblem(a + b, id) == RemoveTestProblem(a, id) + RemoveTestProblem(b, id)
  {
    if |a| > 0 {
      assert (a + b)[1..] == a[1..] + b;
      RemoveDistributes(a[1..], b, id);
    } else {
      assert a + b == b;
    }
  }

  /** Exactly the problems carrying the id are dropped. */
  lemma {:induction false} RemoveCount(sheet: seq<TestProblem>, id: int)
    ensures |RemoveTestProblem(sheet, id)| + CountId(sheet, id) == |sheet|
  {
    if |sheet| > 0 {
      RemoveCount(sheet[1..], id);
    }
  }

  /** Removing an id no problem carries changes nothing; removing twice is
      removing once. */
  lemma {:induction false} RemoveAbsentId(sheet: seq<TestProblem>, id: int)
    requires forall i :: 0 <= i < |sheet| ==> sheet[i].id != id
    ensures RemoveTestProblem(sheet, id) == sheet
  {
    if |sheet| > 0 {
      RemoveAbsentId(sheet[1..], id);
      assert [sheet[0]] + sheet[1..] == sheet;
    }
  }

  lemma RemoveIdempotent(sheet: seq<TestProblem>, id: int)
    ensures RemoveTestProblem(RemoveTestProblem(sheet, id), id) == RemoveTestProblem(sheet, id)
  {
    var r := RemoveTestProblem(sheet, id);
    assert forall i :: 0 <= i < |r| ==> r[i] in r;
    RemoveAbsentId(r, id);
  }

  /** Removal undoes an addition made under a fresh id. */
  lemma RemoveUndoesAdd(sheet: seq<TestProblem>, p: Problem, now: int)
    requires forall i :: 0 <= i < |sheet| ==> sheet[i].id != now
    ensures RemoveTestProblem(AddTestProblem(sheet, Some(p), now), now) == sheet
  {
    RemoveDistributes(sheet, [TestProblem(p, now)], now);
    RemoveAbsentId(sheet, now);
    assert RemoveTestProblem([TestProblem(p, now)], now) == [];
  }
}
