/** Practice mode's answer check (`checkAnswer`): the typed answer is read
    with `parseInt`; a correct one is logged and extends the streak, a wrong
    one resets the streak. */
module Practice {
  import opened Options
  import opened Decimal
  import opened Problems

  /** A solved problem as the log stores it: the problem, the parsed answer,
      the ISO-8601 time of solving and the tier it was drawn from. */
  datatype SolvedRecord = SolvedRecord(problem: Problem, userAnswer: int, date: string, difficulty: Difficulty)

  /** The practice bookkeeping: the solved log and the current streak. */
  datatype Session = Session(solved: seq<SolvedRecord>, streak: nat)

  /** `parseInt(userAnswer) === currentProblem.answer`; `NaN` equals nothing. */
  predicate IsCorrect(p: Problem, input: string) {
    ParseInt(input) == Some(p.answer)
  }

  datatype Outcome = Outcome(correct: bool, session: Session)

  /** `checkAnswer()`: the clock reading `date` is a parameter. */
  function CheckAnswer(s: Session, p: Problem, input: string, difficulty: Difficulty, date: string): (o: Outcome)
    ensures o.correct <==> ParseInt(input) == Some(p.answer)
    ensures o.correct ==> o.session.solved == s.solved + [SolvedRecord(p, p.answer, date, difficulty)]
    ensures o.correct ==> o.session.streak == s.streak + 1
    ensures !o.correct ==> o.session.solved == s.solved && o.session.streak == 0
  {
    match ParseInt(input)
    case Some(v) =>
      if v == p.answer then
        Outcome(true, Session(s.solved + [SolvedRecord(p, v, date, difficulty)], s.streak + 1))
      else
        Outcome(false, Session(s.solved, 0))
    case None => Outcome(false, Session(s.solved, 0))
  }

  /** The typed rendering of an integer is accepted exactly when that
      integer is the answer. */
  lemma RenderedAnswerCheck(p: Problem, m: int)
    ensures IsCorrect(p, IntToDecimal(m)) <==> m == p.answer
  {
    ParseIntOfRendering(m);
  }

  /** For every generated problem, typing its answer passes the check and
      typing the answer plus one fails it. */
  lemma GeneratedAnswerIsAccepted(op: Operation, d: Difficulty, w: Draws)
    requires ValidDraws(op, d, w)
    ensures IsCorrect(GenerateProblem(op, d, w), IntToDecimal(GenerateProblem(op, d, w).answer))
    ensures !IsCorrect(GenerateProblem(op, d, w), IntToDecimal(GenerateProblem(op, d, w).answer + 1))
  {
    var p := GenerateProblem(op, d, w);
    RenderedAnswerCheck(p, p.answer);
    RenderedAnswerCheck(p, p.answer + 1);
  }

  /** `parseInt` stops at the decimal point, so a typed fraction whose
      integer part is the answer passes the check. */
  lemma FractionalInputIsAccepted(p: Problem, fraction: string)
    requires AllDigitsIn(fraction, 10)
    ensures IsCorrect(p, IntToDecimal(p.answer) + "." + fraction)
  {
    assert IntToDecimal(p.answer) + "." + fraction == IntToDecimal(p.answer) + ("." + fraction);
    ParseIntOfRenderingThen(p.answer, "." + fraction);
  }

  /** Every record of a sound log holds the answer its problem expects. */
  predicate LogSound(log: seq<SolvedRecord>) {
    forall i :: 0 <= i < |log| ==> log[i].userAnswer == log[i].problem.answer
  }

  /** One submission of the check button. */
  datatype Attempt = Attempt(problem: Problem, input: string, difficulty: Difficulty, date: string)

  function Submit(s: Session, a: Attempt): Session {
    CheckAnswer(s, a.problem, a.input, a.difficulty, a.date).session
  }

  /** The session after a series of submissions, oldest first. */
  function Replay(s: Session, attempts: seq<Attempt>): Session {
    if |attempts| == 0 then s
    else Submit(Replay(s, attempts[..|attempts| - 1]), attempts[|attempts| - 1])
  }

  predicate Accepted(a: Attempt) {
    IsCorrect(a.problem, a.input)
  }

  /** The records of the accepted submissions, in order. */
  function AcceptedRecords(attempts: seq<Attempt>): seq<SolvedRecord> {
    if |attempts| == 0 then []
    else
      var a := attempts[|attempts| - 1];
      AcceptedRecords(attempts[..|attempts| - 1])
        + (if Accepted(a) then [SolvedRecord(a.problem, a.problem.answer, a.date, a.difficulty)] else [])
  }

  /** The number of accepted submissions since the last rejected one. */
  function TrailingAccepted(attempts: seq<Attempt>): nat {
    if |attempts| == 0 || !Accepted(attempts[|attempts| - 1]) then 0
    else 1 + TrailingAccepted(attempts[..|attempts| - 1])
  }

  /** The log only grows, by one record per accepted submission, in
      submission order. */
  lemma {:induction false} ReplayLog(s: Session, attempts: seq<Attempt>)
    ensures Replay(s, attempts).solved == s.solved + AcceptedRecords(attempts)
  {
    if |attempts| > 0 {
      ReplayLog(s, attempts[..|attempts| - 1]);
    }
  }

  /** The streak counts the accepted submissions since the last rejected
      one, continuing the starting streak when nothing was rejected (when
      every submission is in that trailing run). */
  lemma {:induction false} ReplayStreak(s: Session, attempts: seq<Attempt>)
    ensures Replay(s, attempts).streak
      == TrailingAccepted(attempts) + (if TrailingAccepted(attempts) == |attempts| then s.streak else 0)
  {
    if |attempts| > 0 {
      ReplayStreak(s, attempts[..|attempts| - 1]);
    }
  }

  /** Checking answers keeps the log sound. */
  lemma {:induction false} ReplayKeepsLogSound(s: Session, attempts: seq<Attempt>)
    requires LogSound(s.solved)
    ensures LogSound(Replay(s, attempts).solved)
  {
    if |attempts| > 0 {
      ReplayKeepsLogSound(s, attempts[..|attempts| - 1]);
    }
  }
}
