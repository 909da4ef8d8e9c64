/**
  The respondent questionnaire: the fixed list of yes/no questions, the tally
  of "yes" answers and the hard-coded classifier that turns the tally into one
  of four result messages.
 */
module Questionnaire {

  /** A question as the respondent page knows it: a numeric id and its text. */
  datatype Question = Question(id: int, text: string)

  /** The five questions, in the order they are asked. */
  const Questions: seq<Question> := [
    Question(1, "Вы любите работать в команде?"),
    Question(2, "Вам нравится решать сложные задачи?"),
    Question(3, "Вы предпочитаете планировать заранее?"),
    Question(4, "Вы легко адаптируетесь к изменениям?"),
    Question(5, "Вам важна обратная связь от других?")
  ]

  /** The four result messages, highest tier first. */
  const LeaderText: string :=
    "Вы прирожденный лидер! У вас отличные навыки коммуникации и адаптации. Вы умеете работать в команде и находить решения в любых ситуациях."
  const BalancedText: string :=
    "Вы сбалансированная личность! Вы гибки в подходах и умеете находить компромиссы. У вас есть потенциал для роста в разных направлениях."
  const IndividualistText: string :=
    "Вы индивидуалист! Вы цените самостоятельность и предпочитаете работать в своем темпе. Это ценное качество для глубокой концентрации на задачах."
  const IndependentText: string :=
    "Вы независимый мыслитель! Вы идете своим путем и не боитесь быть уникальным. Ваша самодостаточность — ваша сила."

  /** The ids are 1..5, one per position. */
  lemma QuestionIds()
    ensures |Questions| == 5
    ensures forall i :: 0 <= i < |Questions| ==> Questions[i].id == i + 1
  {
  }

  /** No two questions share an id. */
  lemma IdsDistinct(i: int, j: int)
    requires 0 <= i < |Questions| && 0 <= j < |Questions|
    ensures Questions[i].id == Questions[j].id <==> i == j
  {
  }

  /** The ids of the first n questions. */
  function IdsBelow(n: nat): (r: set<int>)
    requires n <= |Questions|
    ensures |r| == n
    ensures forall i :: 0 <= i < |Questions| ==> (Questions[i].id in r <==> i < n)
    ensures forall k :: k in r ==> exists i :: 0 <= i < n && Questions[i].id == k
  {
    if n == 0 then {}
    else
      var prior := IdsBelow(n - 1);
      QuestionIds();
      assert Questions[n - 1].id !in prior;
      prior + {Questions[n - 1].id}
  }

  /** The set of keys of an answer map whose value is true. */
  function YesKeys(answers: map<int, bool>): set<int>
  {
    set k | k in answers && answers[k]
  }

  lemma SubsetCard(a: set<int>, b: set<int>)
    requires a <= b
    ensures |a| <= |b|
  {
    assert b == a + (b - a);
  }

  /**
    The number of "yes" answers: entries whose value is true. Entries with
    value false, and ids that have no entry, contribute nothing, so the tally
    never exceeds the number of answered questions.
   */
  function YesCount(answers: map<int, bool>): (r: nat)
    ensures r <= |answers|
  {
    SubsetCard(YesKeys(answers), answers.Keys);
    |YesKeys(answers)|
  }

  /** The tally is 0 exactly when every recorded answer is "no". */
  lemma YesCountZero(answers: map<int, bool>)
    ensures YesCount(answers) == 0 <==> forall k :: k in answers ==> !answers[k]
  {
    if forall k :: k in answers ==> !answers[k] {
      assert YesKeys(answers) == {};
    } else {
      var k :| k in answers && answers[k];
      assert k in YesKeys(answers);
    }
  }

  /** The tally equals the number of keys exactly when every recorded answer is "yes". */
  lemma YesCountFull(answers: map<int, bool>)
    ensures YesCount(answers) == |answers| <==> forall k :: k in answers ==> answers[k]
  {
    assert |answers| == |answers.Keys|;
    if forall k :: k in answers ==> answers[k] {
      assert YesKeys(answers) == answers.Keys;
    } else {
      var k :| k in answers && !answers[k];
      assert answers.Keys == (answers.Keys - {k}) + {k};
      SubsetCard(YesKeys(answers), answers.Keys - {k});
    }
  }

  /** Recording answer v under key k adds k to the "yes" keys, or removes it. */
  lemma YesKeysUpdate(answers: map<int, bool>, k: int, v: bool)
    ensures YesKeys(answers[k := v]) == if v then YesKeys(answers) + {k} else YesKeys(answers) - {k}
  {
  }

  /**
    Recording answer v under key k changes the tally by the new answer's
    weight minus the weight of the answer it replaces, if any.
   */
  lemma YesCountUpdate(answers: map<int, bool>, k: int, v: bool)
    ensures YesCount(answers[k := v]) + (if k in answers && answers[k] then 1 else 0)
         == YesCount(answers) + (if v then 1 else 0)
  {
    var y := YesKeys(answers);
    YesKeysUpdate(answers, k, v);
    assert k in y <==> k in answers && answers[k];
    if k in y {
      assert y == (y - {k}) + {k};
    }
  }

  /**
    The result message shown to the respondent, chosen by the tally of "yes"
    answers: exactly five gives the leader message, at least three the
    balanced one, at least one the individualist one, none the independent
    thinker one.
   */
  function GetResult(answers: map<int, bool>): (r: string)
    ensures r == LeaderText || r == BalancedText || r == IndividualistText || r == IndependentText
    ensures r == LeaderText <==> YesCount(answers) == 5
    ensures r == BalancedText <==> YesCount(answers) >= 3 && YesCount(answers) != 5
    ensures r == IndividualistText <==> 1 <= YesCount(answers) <= 2
    ensures r == IndependentText <==> YesCount(answers) == 0
  {
    var yesCount := YesCount(answers);
    if yesCount == 5 then LeaderText
    else if yesCount >= 3 then BalancedText
    else if yesCount >= 1 then IndividualistText
    else IndependentText
  }

  /** The message depends on the answers only through the tally. */
  lemma GetResultByCount(a: map<int, bool>, b: map<int, bool>)
    requires YesCount(a) == YesCount(b)
    ensures GetResult(a) == GetResult(b)
  {
  }

  /**
    When the answers hold at most one entry per question id, the tally is at
    most the number of questions, so the four bands cover every tally that can
    occur.
   */
  lemma YesCountAtMostQuestions(answers: map<int, bool>)
    requires answers.Keys <= IdsBelow(|Questions|)
    ensures YesCount(answers) <= |Questions|
  {
    SubsetCard(answers.Keys, IdsBelow(|Questions|));
  }
}
