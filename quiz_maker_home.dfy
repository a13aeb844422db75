/** The Quiz Maker home page: starring a saved quiz and listing starred
    quizzes apart from the rest. The PATCH request's outcome is the
    parameter `responseOk`. */
module QuizMakerHome {
  import opened Common

  /** A saved quiz; `starred` is true, false or null (None). */
  datatype SavedQuiz = SavedQuiz(id: int, scenario: string, outcome: string, createdAt: string, starred: Option<bool>)

  /** The value sent and stored by a click on the star: `currentStarred !== true`. */
  function ToggleValue(current: Option<bool>): (v: bool)
    ensures v <==> current != Some(true)
    ensures current == None ==> v
  {
    current != Some(true)
  }

  /** Two clicks leave a quiz starred exactly when it was starred before;
      an unset star comes back as false rather than null. */
  lemma ToggleTwice(current: Option<bool>)
    ensures ToggleValue(Some(ToggleValue(current))) == (current == Some(true))
    ensures current == None ==> Some(ToggleValue(Some(ToggleValue(current)))) == Some(false)
  {
  }

  /** The optimistic update: the quiz with the id gets the new star, every
      other quiz is kept. */
  function WithStar(quizzes: seq<SavedQuiz>, quizId: int, current: Option<bool>): (r: seq<SavedQuiz>)
    ensures |r| == |quizzes|
    ensures forall i :: 0 <= i < |r| && quizzes[i].id == quizId ==>
              r[i] == quizzes[i].(starred := Some(ToggleValue(current)))
    ensures forall i :: 0 <= i < |r| && quizzes[i].id != quizId ==> r[i] == quizzes[i]
  {
    if quizzes == [] then []
    else
      var q := quizzes[0];
      [if q.id == quizId then q.(starred := Some(ToggleValue(current))) else q]
      + WithStar(quizzes[1..], quizId, current)
  }

  /** `toggleStar`: the local list changes only when the server accepted
      the update. */
  function ToggleStar(quizzes: seq<SavedQuiz>, quizId: int, current: Option<bool>, responseOk: bool): (r: seq<SavedQuiz>)
    ensures !responseOk ==> r == quizzes
    ensures responseOk ==> r == WithStar(quizzes, quizId, current)
  {
    if responseOk then WithStar(quizzes, quizId, current) else quizzes
  }

  /** `savedQuizzes.filter(quiz => quiz.starred === true)`. */
  function Starred(s: seq<SavedQuiz>): (r: seq<SavedQuiz>)
    ensures forall q :: q in r <==> q in s && q.starred == Some(true)
    ensures |r| <= |s|
  {
    if s == [] then []
    else
      assert forall q :: q in s <==> q == s[0] || q in s[1..];
      (if s[0].starred == Some(true) then [s[0]] else []) + Starred(s[1..])
  }

  /** `savedQuizzes.filter(quiz => quiz.starred !== true)`: false and null alike. */
  function Unstarred(s: seq<SavedQuiz>): (r: seq<SavedQuiz>)
    ensures forall q :: q in r <==> q in s && q.starred != Some(true)
    ensures |r| <= |s|
  {
    if s == [] then []
    else
      assert forall q :: q in s <==> q == s[0] || q in s[1..];
      (if s[0].starred != Some(true) then [s[0]] else []) + Unstarred(s[1..])
  }

  /** The two lists split the saved quizzes: together they hold each quiz
      exactly as often as the whole list does. */
  lemma {:induction false} StarPartition(s: seq<SavedQuiz>)
    ensures multiset(Starred(s)) + multiset(Unstarred(s)) == multiset(s)
    ensures |Starred(s)| + |Unstarred(s)| == |s|
  {
    if s != [] {
      StarPartition(s[1..]);
      assert s == [s[0]] + s[1..];
    }
  }

  /** Both lists keep the saved order. */
  lemma {:induction false} StarredKeepsOrder(s1: seq<SavedQuiz>, s2: seq<SavedQuiz>)
    ensures Starred(s1 + s2) == Starred(s1) + Starred(s2)
  {
    if s1 == [] {
      assert s1 + s2 == s2;
    } else {
      var s := s1 + s2;
      assert s[0] == s1[0] && s[1..] == s1[1..] + s2;
      StarredKeepsOrder(s1[1..], s2);
    }
  }

  lemma {:induction false} UnstarredKeepsOrder(s1: seq<SavedQuiz>, s2: seq<SavedQuiz>)
    ensures Unstarred(s1 + s2) == Unstarred(s1) + Unstarred(s2)
  {
    if s1 == [] {
      assert s1 + s2 == s2;
    } else {
      var s := s1 + s2;
      assert s[0] == s1[0] && s[1..] == s1[1..] + s2;
      UnstarredKeepsOrder(s1[1..], s2);
    }
  }

  /** After an accepted click on an unstarred quiz it shows among the
      starred ones, and after one on a starred quiz among the rest. */
  lemma ToggleMovesQuiz(quizzes: seq<SavedQuiz>, i: int)
    requires 0 <= i < |quizzes|
    ensures var r := ToggleStar(quizzes, quizzes[i].id, quizzes[i].starred, true);
            (quizzes[i].starred != Some(true) ==> r[i] in Starred(r) && r[i] !in Unstarred(r))
            && (quizzes[i].starred == Some(true) ==> r[i] in Unstarred(r) && r[i] !in Starred(r))
  {
    var r := ToggleStar(quizzes, quizzes[i].id, quizzes[i].starred, true);
    assert r[i] in r;
  }
}
