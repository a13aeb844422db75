/** The vocabulary quiz: multiple-choice questions built from random entries,
    and the page state that starts, scores, advances and resets a quiz.
    `Math.random()` is replaced by the choice parameters: a pick function
    that gives the random number of each draw. */
module Quiz {
  import opened Common
  import opened Vocabulary

  datatype Direction = GreekToEnglish | EnglishToGreek

  datatype Question = Question(entry: Entry, options: seq<string>, correctAnswer: string, direction: Direction)

  /** The word asked for: the English word when the Greek one is shown, and
      the other way round. */
  function Answer(e: Entry, d: Direction): string {
    if d == GreekToEnglish then e.englishWord else e.greekWord
  }

  predicate Distinct(s: seq<string>) {
    forall i, j :: 0 <= i < j < |s| ==> s[i] != s[j]
  }

  predicate UniqueIds(entries: seq<Entry>) {
    forall i, j :: 0 <= i < |entries| && 0 <= j < |entries| && entries[i].id == entries[j].id ==> i == j
  }

  /** `findIndex(e => e.id === id)`. */
  function FindIndex(s: seq<Entry>, id: int): (k: int)
    ensures -1 <= k < |s|
    ensures k >= 0 ==> s[k].id == id && forall j :: 0 <= j < k ==> s[j].id != id
    ensures k == -1 ==> forall j :: 0 <= j < |s| ==> s[j].id != id
  {
    if s == [] then -1
    else if s[0].id == id then 0
    else
      var k := FindIndex(s[1..], id);
      if k == -1 then -1 else k + 1
  }

  /** The shuffle `sort(() => Math.random() - 0.5)`, as repeated draws of the
      next element: it yields some order of the same elements. */
  function Shuffle(xs: seq<string>, pick: nat -> nat, round: nat): (r: seq<string>)
    ensures multiset(r) == multiset(xs)
    ensures |r| == |xs|
    decreases |xs|
  {
    if xs == [] then []
    else
      var k := pick(round) % |xs|;
      assert xs == xs[..k] + [xs[k]] + xs[k + 1..];
      [xs[k]] + Shuffle(xs[..k] + xs[k + 1..], pick, round + 1)
  }

  /** `generateQuestion`: a target entry, up to three distinct wrong answers
      drawn from the entries with another id, and the options in some order.
      `targetPick`, `pick` and `shufflePick` are the random numbers. */
  method GenerateQuestion(entries: seq<Entry>, targetPick: nat, direction: Direction,
                          pick: nat -> nat, shufflePick: nat -> nat)
    returns (q: Question, wrongAnswers: seq<string>)
    requires |entries| > 0
    ensures q.entry == entries[targetPick % |entries|] && q.direction == direction
    ensures q.correctAnswer == Answer(q.entry, direction)
    ensures |wrongAnswers| <= 3 && Distinct(wrongAnswers)
    ensures forall a :: a in wrongAnswers ==>
              exists e :: e in entries && e.id != q.entry.id && a == Answer(e, direction)
    ensures multiset(q.options) == multiset(wrongAnswers + [q.correctAnswer])
    ensures q.correctAnswer in q.options && |q.options| <= 4
    ensures UniqueIds(entries) && |wrongAnswers| < 3 ==>
              forall e :: e in entries && e.id != q.entry.id ==> Answer(e, direction) in wrongAnswers
  {
    var target := entries[targetPick % |entries|];
    var others := FilterEntries(entries, (e: Entry) => e.id != target.id);
    var otherEntries := others;
    wrongAnswers := [];
    var round := 0;
    while |wrongAnswers| < 3 && |otherEntries| > 0
      invariant |wrongAnswers| <= 3 && Distinct(wrongAnswers)
      invariant forall e :: e in otherEntries ==> e in entries && e.id != target.id
      invariant forall a :: a in wrongAnswers ==>
                  exists e :: e in entries && e.id != target.id && a == Answer(e, direction)
      invariant UniqueIds(entries) ==>
                  forall e :: e in others ==> e in otherEntries || Answer(e, direction) in wrongAnswers
      decreases |otherEntries|
    {
      var drawn := pick(round) % |otherEntries|;
      var wrongEntry := otherEntries[drawn];
      var wrongAnswer := Answer(wrongEntry, direction);
      ghost var answersBefore := wrongAnswers;
      if wrongAnswer !in wrongAnswers {
        wrongAnswers := wrongAnswers + [wrongAnswer];
      }
      AddAnswer(entries, target.id, direction, answersBefore, wrongAnswers, wrongEntry);
      var k := FindIndex(otherEntries, wrongEntry.id);
      assert otherEntries[drawn].id == wrongEntry.id;
      ghost var before := otherEntries;
      otherEntries := otherEntries[..k] + otherEntries[k + 1..];
      SpliceKeeps(before, k, wrongEntry, entries, otherEntries);
      if UniqueIds(entries) {
        StillCovered(others, before, otherEntries, answersBefore, wrongAnswers, wrongEntry, direction);
      }
      round := round + 1;
    }
    if UniqueIds(entries) && |wrongAnswers| < 3 {
      forall e | e in entries && e.id != target.id ensures Answer(e, direction) in wrongAnswers {
        assert e in others && e !in otherEntries;
      }
    }
    var correctAnswer := Answer(target, direction);
    var options := Shuffle(wrongAnswers + [correctAnswer], shufflePick, 0);
    assert correctAnswer in multiset(options);
    q := Question(target, options, correctAnswer, direction);
  }

  /** One draw: the drawn entry's answer is added unless it is already
      there, and the answers stay distinct and drawn from other entries. */
  lemma AddAnswer(entries: seq<Entry>, targetId: int, direction: Direction,
                  before: seq<string>, after: seq<string>, drawn: Entry)
    requires Distinct(before)
    requires forall a :: a in before ==>
               exists e :: e in entries && e.id != targetId && a == Answer(e, direction)
    requires drawn in entries && drawn.id != targetId
    requires after == if Answer(drawn, direction) in before then before else before + [Answer(drawn, direction)]
    ensures Distinct(after) && Answer(drawn, direction) in after
    ensures forall a :: a in before ==> a in after
    ensures forall a :: a in after ==>
              exists e :: e in entries && e.id != targetId && a == Answer(e, direction)
  {
  }

  /** Every other entry is still waiting to be drawn or has its answer
      among the wrong answers. */
  lemma StillCovered(others: seq<Entry>, before: seq<Entry>, after: seq<Entry>,
                     answersBefore: seq<string>, answersAfter: seq<string>,
                     drawn: Entry, direction: Direction)
    requires forall e :: e in others ==> e in before || Answer(e, direction) in answersBefore
    requires forall e :: e in before && e != drawn ==> e in after
    requires forall a :: a in answersBefore ==> a in answersAfter
    requires Answer(drawn, direction) in answersAfter
    ensures forall e :: e in others ==> e in after || Answer(e, direction) in answersAfter
  {
  }

  /** Removing the first entry with the drawn entry's id removes that very
      entry when ids are unique, and keeps every other one. */
  lemma SpliceKeeps(before: seq<Entry>, k: int, drawn: Entry, entries: seq<Entry>, after: seq<Entry>)
    requires 0 <= k < |before| && before[k].id == drawn.id && drawn in before
    requires forall e :: e in before ==> e in entries
    requires after == before[..k] + before[k + 1..]
    ensures forall e :: e in after ==> e in before
    ensures UniqueIds(entries) ==> forall e :: e in before && e != drawn ==> e in after
  {
    assert forall e :: e in after ==> e in before[..k] || e in before[k + 1..];
    if UniqueIds(entries) {
      assert before[k] in entries;
      var i :| 0 <= i < |entries| && entries[i] == before[k];
      var j :| 0 <= j < |entries| && entries[j] == drawn;
      assert before[k] == drawn;
      forall e | e in before && e != drawn ensures e in after {
        var m :| 0 <= m < |before| && before[m] == e;
        if m < k {
          assert after[m] == e;
        } else {
          assert after[m - 1] == e;
        }
      }
    }
  }

  /** The page's quiz state. */
  /** The options of the "Number of Questions" selector. */
  const QuestionCounts: seq<int> := [5, 10, 15, 20]

  class QuizPage {
    var vocabulary: seq<Entry>
    var currentQuestion: Option<Question>
    var questionNumber: int
    var totalQuestions: int
    var score: int
    var selectedAnswer: string
    var showResult: bool
    var gameComplete: bool
    var quizStarted: bool

    /** No quiz running; the state `resetQuiz` returns to. */
    predicate Idle()
      reads this
    {
      !quizStarted && !gameComplete && currentQuestion.None? && questionNumber == 0 && score == 0
      && selectedAnswer == "" && !showResult
    }

    constructor (vocabulary: seq<Entry>)
      ensures this.vocabulary == vocabulary && Idle() && totalQuestions == 10
    {
      this.vocabulary := vocabulary;
      currentQuestion := None;
      questionNumber := 0;
      totalQuestions := 10;
      score := 0;
      selectedAnswer := "";
      showResult := false;
      gameComplete := false;
      quizStarted := false;
    }

    /** `startQuiz`: with fewer than four words nothing happens; otherwise
        question 1 of a fresh game. */
    method StartQuiz(targetPick: nat, direction: Direction, pick: nat -> nat, shufflePick: nat -> nat)
      modifies this
      ensures |old(vocabulary)| < 4 ==> unchanged(this)
      ensures |old(vocabulary)| >= 4 ==>
                quizStarted && questionNumber == 1 && score == 0 && !gameComplete
                && currentQuestion.Some? && currentQuestion.value.entry in vocabulary
      ensures vocabulary == old(vocabulary) && totalQuestions == old(totalQuestions)
      ensures selectedAnswer == old(selectedAnswer) && showResult == old(showResult)
    {
      if |vocabulary| < 4 {
        return;
      }
      quizStarted := true;
      questionNumber := 1;
      score := 0;
      gameComplete := false;
      var q, _ := GenerateQuestion(vocabulary, targetPick, direction, pick, shufflePick);
      currentQuestion := Some(q);
    }

    /** Clicking an option while no result is shown selects it. */
    method SelectAnswer(option: string)
      modifies this
      ensures selectedAnswer == if old(showResult) then old(selectedAnswer) else option
      ensures score == old(score) && showResult == old(showResult) && currentQuestion == old(currentQuestion)
      ensures questionNumber == old(questionNumber)
    {
      if !showResult {
        selectedAnswer := option;
      }
    }

    /** `submitAnswer`: without a selection or a question nothing happens;
        otherwise the result is shown and the score rises by one exactly
        when the selection is the correct answer. */
    method SubmitAnswer()
      modifies this
      ensures old(selectedAnswer) == "" || old(currentQuestion).None? ==> unchanged(this)
      ensures old(selectedAnswer) != "" && old(currentQuestion).Some? ==>
                showResult
                && score == old(score) + (if old(selectedAnswer) == old(currentQuestion).value.correctAnswer then 1 else 0)
      ensures questionNumber == old(questionNumber) && currentQuestion == old(currentQuestion)
      ensures selectedAnswer == old(selectedAnswer) && quizStarted == old(quizStarted)
    {
      if selectedAnswer == "" || currentQuestion.None? {
        return;
      }
      showResult := true;
      if selectedAnswer == currentQuestion.value.correctAnswer {
        score := score + 1;
      }
    }

    /** `nextQuestion`: the last question ends the game; any other moves to
        the next number with a new question. */
    method NextQuestion(targetPick: nat, direction: Direction, pick: nat -> nat, shufflePick: nat -> nat)
      requires |vocabulary| > 0
      modifies this
      ensures !showResult && selectedAnswer == ""
      ensures old(questionNumber) >= old(totalQuestions) ==>
                gameComplete && !quizStarted && questionNumber == old(questionNumber)
                && currentQuestion == old(currentQuestion)
      ensures old(questionNumber) < old(totalQuestions) ==>
                questionNumber == old(questionNumber) + 1 && currentQuestion.Some?
                && currentQuestion.value.entry in vocabulary
                && gameComplete == old(gameComplete) && quizStarted == old(quizStarted)
      ensures score == old(score) && vocabulary == old(vocabulary) && totalQuestions == old(totalQuestions)
    {
      showResult := false;
      selectedAnswer := "";
      if questionNumber >= totalQuestions {
        gameComplete := true;
        quizStarted := false;
      } else {
        questionNumber := questionNumber + 1;
        var q, _ := GenerateQuestion(vocabulary, targetPick, direction, pick, shufflePick);
        currentQuestion := Some(q);
      }
    }

    /** `resetQuiz`. */
    method ResetQuiz()
      modifies this
      ensures Idle()
      ensures vocabulary == old(vocabulary) && totalQuestions == old(totalQuestions)
    {
      quizStarted := false;
      gameComplete := false;
      currentQuestion := None;
      questionNumber := 0;
      score := 0;
      selectedAnswer := "";
      showResult := false;
    }

    /** The "Number of Questions" selector, shown on the start screen: the
        chosen option becomes the quiz length and nothing else changes. */
    method SetTotalQuestions(n: int)
      requires !quizStarted && !gameComplete
      requires n in QuestionCounts
      modifies this
      ensures totalQuestions == n && 5 <= totalQuestions <= 20
      ensures vocabulary == old(vocabulary) && currentQuestion == old(currentQuestion)
      ensures questionNumber == old(questionNumber) && score == old(score)
      ensures selectedAnswer == old(selectedAnswer) && showResult == old(showResult)
      ensures quizStarted == old(quizStarted) && gameComplete == old(gameComplete)
    {
      totalQuestions := n;
    }
  }
}
