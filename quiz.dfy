/**
  The respondent flow of the questionnaire page: the index of the question
  on screen, the answers recorded so far and whether the result view is shown.
  A value-level specification (QuizState, Step, Run) comes first; the class
  Quiz holds the three pieces of page state and its methods update them in
  place as the page's handlers do.
 */
module RespondentFlow {
  import opened Questionnaire

  /** The page's three state fields, as one value. */
  datatype QuizState = QuizState(current: int, answers: map<int, bool>, showResult: bool)

  /** The state the page starts in, and the one a reset returns to. */
  const Initial: QuizState := QuizState(0, map[], false)

  /** The question index points into the question list. */
  predicate InBounds(s: QuizState)
  {
    0 <= s.current < |Questions|
  }

  /** How many questions have been answered in state s. */
  function Answered(s: QuizState): nat
    requires InBounds(s)
  {
    if s.showResult then |Questions| else s.current
  }

  /**
    The invariant of every reachable state: the index is in bounds, the
    result view is only shown at the last question, and the answers hold
    exactly one entry per question answered so far.
   */
  ghost predicate Inv(s: QuizState)
  {
    && InBounds(s)
    && (s.showResult ==> s.current == |Questions| - 1)
    && s.answers.Keys == IdsBelow(Answered(s))
  }

  /**
    Answering the question on screen: the answer is recorded under that
    question's id; then the index advances, or, at the last question, the
    result view is switched on. The page's 300 ms delay before the second
    part is taken to be immediate.
   */
  function Step(s: QuizState, answer: bool): (r: QuizState)
    requires InBounds(s)
    ensures InBounds(r)
    ensures r.answers.Keys == s.answers.Keys + {Questions[s.current].id}
    ensures r.answers[Questions[s.current].id] == answer
    ensures forall k :: k in s.answers && k != Questions[s.current].id ==> r.answers[k] == s.answers[k]
    ensures s.current < |Questions| - 1 ==> r.current == s.current + 1 && r.showResult == s.showResult
    ensures s.current == |Questions| - 1 ==> r.current == s.current && r.showResult
  {
    var newAnswers := s.answers[Questions[s.current].id := answer];
    if s.current < |Questions| - 1 then
      QuizState(s.current + 1, newAnswers, s.showResult)
    else
      QuizState(s.current, newAnswers, true)
  }

  /** Answering, in order, each of the answers in bs, starting from s. */
  function Run(s: QuizState, bs: seq<bool>): (r: QuizState)
    requires InBounds(s)
    ensures InBounds(r)
    decreases |bs|
  {
    if bs == [] then s else Step(Run(s, bs[..|bs| - 1]), bs[|bs| - 1])
  }

  /** The number of true values in bs. */
  function CountYes(bs: seq<bool>): nat
    decreases |bs|
  {
    if bs == [] then 0 else CountYes(bs[..|bs| - 1]) + (if bs[|bs| - 1] then 1 else 0)
  }

  lemma {:induction false} CountYesAll(bs: seq<bool>)
    ensures CountYes(bs) == |bs| <==> forall i :: 0 <= i < |bs| ==> bs[i]
    ensures CountYes(bs) == 0 <==> forall i :: 0 <= i < |bs| ==> !bs[i]
    ensures CountYes(bs) <= |bs|
    decreases |bs|
  {
    if bs != [] {
      var prefix := bs[..|bs| - 1];
      CountYesAll(prefix);
      assert forall i :: 0 <= i < |prefix| ==> prefix[i] == bs[i];
    }
  }

  lemma InitialInv()
    ensures Inv(Initial)
  {
  }

  /** Answering keeps the invariant. */
  lemma StepPreservesInv(s: QuizState, answer: bool)
    requires Inv(s)
    ensures Inv(Step(s, answer))
  {
  }

  /** Answering any sequence of answers keeps the invariant. */
  lemma {:induction false} RunPreservesInv(s: QuizState, bs: seq<bool>)
    requires Inv(s)
    ensures Inv(Run(s, bs))
    decreases |bs|
  {
    if bs != [] {
      RunPreservesInv(s, bs[..|bs| - 1]);
      StepPreservesInv(Run(s, bs[..|bs| - 1]), bs[|bs| - 1]);
    }
  }

  /**
    From the initial state, the first n <= |Questions| answers leave the page
    on question n (or, after the last one, on the result view) with exactly
    the answers given, each under its question's id.
   */
  lemma {:induction false} RunFromInitial(bs: seq<bool>)
    requires |bs| <= |Questions|
    ensures Run(Initial, bs).showResult <==> |bs| == |Questions|
    ensures |bs| < |Questions| ==> Run(Initial, bs).current == |bs|
    ensures |bs| == |Questions| ==> Run(Initial, bs).current == |Questions| - 1
    ensures Run(Initial, bs).answers.Keys == IdsBelow(|bs|)
    ensures forall i :: 0 <= i < |bs| ==> Run(Initial, bs).answers[Questions[i].id] == bs[i]
    decreases |bs|
  {
    if bs != [] {
      var n := |bs|;
      var prefix := bs[..n - 1];
      RunFromInitial(prefix);
      var s := Run(Initial, prefix);
      assert IdsBelow(n) == IdsBelow(n - 1) + {Questions[n - 1].id};
      forall i | 0 <= i < n
        ensures Run(Initial, bs).answers[Questions[i].id] == bs[i]
      {
        if i < n - 1 {
          IdsDistinct(i, n - 1);
          assert prefix[i] == bs[i];
        }
      }
    }
  }

  /**
    What the answer handler itself would do if it ran on the result view:
    the view stays on, the index stays at the last question, and only the
    last question's answer is overwritten. The page never calls it there, as
    its answer buttons are shown only while the result view is off.
   */
  lemma {:induction false} RunPastEnd(s: QuizState, bs: seq<bool>)
    requires Inv(s) && s.showResult
    ensures Run(s, bs).showResult && Run(s, bs).current == |Questions| - 1
    ensures Run(s, bs).answers.Keys == s.answers.Keys
    ensures forall k :: k in s.answers && k != Questions[|Questions| - 1].id
              ==> Run(s, bs).answers[k] == s.answers[k]
    ensures bs != [] ==> Run(s, bs).answers[Questions[|Questions| - 1].id] == bs[|bs| - 1]
    decreases |bs|
  {
    if bs != [] {
      RunPastEnd(s, bs[..|bs| - 1]);
      RunPreservesInv(s, bs[..|bs| - 1]);
    }
  }

  /**
    Answering every question from the initial state tallies exactly the
    answers given.
   */
  lemma {:induction false} YesCountOfRun(bs: seq<bool>)
    requires |bs| <= |Questions|
    ensures YesCount(Run(Initial, bs).answers) == CountYes(bs)
    decreases |bs|
  {
    if bs != [] {
      var n := |bs|;
      var prefix := bs[..n - 1];
      YesCountOfRun(prefix);
      RunFromInitial(prefix);
      var s := Run(Initial, prefix);
      YesCountUpdate(s.answers, Questions[n - 1].id, bs[n - 1]);
    }
  }

  /**
    After answering all |Questions| questions from the initial state, the
    result view is on with one entry per question, and the message is the
    leader one exactly when every answer was yes, the independent thinker one
    exactly when every answer was no, and always the band of the yes count.
   */
  lemma CompleteRun(bs: seq<bool>)
    requires |bs| == |Questions|
    ensures Run(Initial, bs).showResult
    ensures |Run(Initial, bs).answers| == |Questions|
    ensures GetResult(Run(Initial, bs).answers) == LeaderText <==> forall i :: 0 <= i < |bs| ==> bs[i]
    ensures GetResult(Run(Initial, bs).answers) == IndependentText <==> forall i :: 0 <= i < |bs| ==> !bs[i]
    ensures GetResult(Run(Initial, bs).answers) == BalancedText <==> 3 <= CountYes(bs) <= 4
    ensures GetResult(Run(Initial, bs).answers) == IndividualistText <==> 1 <= CountYes(bs) <= 2
  {
    RunFromInitial(bs);
    YesCountOfRun(bs);
    CountYesAll(bs);
    assert |Run(Initial, bs).answers| == |Run(Initial, bs).answers.Keys|;
  }

  /**
    In every reachable state the tally is at most the number of questions,
    and it reaches it exactly when every recorded answer is yes; so on the
    result view the leader message means every question was answered yes.
   */
  lemma ReachableYesCount(s: QuizState)
    requires Inv(s)
    ensures YesCount(s.answers) <= |Questions|
    ensures s.showResult ==>
      (GetResult(s.answers) == LeaderText <==> forall k :: k in s.answers ==> s.answers[k])
  {
    YesCountAtMostQuestions(s.answers);
    YesCountFull(s.answers);
    assert |s.answers| == |s.answers.Keys|;
  }

  /** The page state of one respondent session. */
  class Quiz {
    var currentQuestion: int
    var answers: map<int, bool>
    var showResult: bool

    function State(): QuizState
      reads this
    {
      QuizState(currentQuestion, answers, showResult)
    }

    ghost predicate Valid()
      reads this
    {
      Inv(State())
    }

    /** A fresh page: first question, no answers, questions on screen. */
    constructor ()
      ensures Valid() && State() == Initial
    {
      currentQuestion := 0;
      answers := map[];
      showResult := false;
    }

    /**
      The respondent presses yes (true) or no (false). The page offers these
      buttons only while the result view is off.
     */
    method HandleAnswer(answer: bool)
      requires Valid() && !showResult
      modifies this
      ensures Valid()
      ensures State() == Step(old(State()), answer)
      ensures answers == old(answers)[Questions[old(currentQuestion)].id := answer]
      ensures old(currentQuestion) < |Questions| - 1 ==>
        currentQuestion == old(currentQuestion) + 1 && !showResult
      ensures old(currentQuestion) == |Questions| - 1 ==>
        currentQuestion == old(currentQuestion) && showResult
    {
      ghost var before := State();
      var newAnswers := answers[Questions[currentQuestion].id := answer];
      answers := newAnswers;
      if currentQuestion < |Questions| - 1 {
        currentQuestion := currentQuestion + 1;
      } else {
        showResult := true;
      }
      StepPreservesInv(before, answer);
    }

    /** The respondent restarts the questionnaire, from any state. */
    method ResetQuiz()
      modifies this
      ensures Valid() && State() == Initial
      ensures currentQuestion == 0 && answers == map[] && !showResult
    {
      currentQuestion := 0;
      answers := map[];
      showResult := false;
    }

    /** The question number shown above the question ("question n of 5"). */
    method QuestionNumber() returns (n: int)
      requires Valid()
      ensures 1 <= n <= |Questions|
      ensures n == currentQuestion + 1
    {
      n := currentQuestion + 1;
    }

    /** The text of the question on screen; the index is always in bounds. */
    method CurrentText() returns (t: string)
      requires Valid()
      ensures 0 <= currentQuestion < |Questions| && t == Questions[currentQuestion].text
    {
      t := Questions[currentQuestion].text;
    }

    /** The message on the result view. */
    method ResultText() returns (r: string)
      requires Valid() && showResult
      ensures r == GetResult(answers)
      ensures |answers| == |Questions|
      ensures r == LeaderText <==> forall k :: k in answers ==> answers[k]
      ensures r == IndependentText <==> forall k :: k in answers ==> !answers[k]
    {
      r := GetResult(answers);
      ReachableYesCount(State());
      YesCountZero(answers);
      assert |answers| == |answers.Keys|;
    }
  }
}
