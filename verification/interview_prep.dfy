/**
 The interview-practice quiz of the Interview Preparation page.

 The page keeps six independent pieces of component state; here they are one
 immutable record, and each click handler is a pure function of the snapshot
 the handler reads. A session is driven by a sequence of clicks, each allowed
 only while the page actually shows the button or option that raises it.
 */
module InterviewPrep {
  import opened Wrappers

  datatype Role = Role(id: string, name: string)

  /** A multiple-choice question; `correct` indexes `options`. */
  datatype Question = Question(prompt: string, options: seq<string>, correct: nat)

  predicate WellFormedQuestion(q: Question) {
    |q.options| >= 2 && q.correct < |q.options|
  }

  /** The role catalog, in display order (icons and colours left out). */
  const Roles: seq<Role> := [
    Role("software", "Software Engineer"),
    Role("web", "Web Developer"),
    Role("data", "Data Scientist"),
    Role("ai", "AI/ML Engineer"),
    Role("cloud", "Cloud Engineer")
  ]

  const SoftwareQuestions: seq<Question> := [
    Question("What is the time complexity of binary search?",
             ["O(n)", "O(log n)", "O(n\U{B2})", "O(1)"], 1),
    Question("Which data structure uses LIFO principle?",
             ["Queue", "Stack", "Array", "Tree"], 1)
  ]

  /** The question bank, keyed by role id. Only one role has its own set. */
  const SampleQuestions: map<string, seq<Question>> := map["software" := SoftwareQuestions]

  /** The key whose set stands in for every role without one. */
  const FallbackRole: string := "software"

  predicate IsRoleId(id: string) {
    exists r :: r in Roles && r.id == id
  }

  /** `sampleQuestions[selectedRole] || sampleQuestions.software`: a key that is
      present wins (an array is truthy even when empty); a missing key, or no
      role at all, falls back to the software set. */
  function QuestionsFor(role: Option<string>): (qs: seq<Question>)
    ensures qs in SampleQuestions.Values
    ensures role.Some? && role.value in SampleQuestions ==> qs == SampleQuestions[role.value]
  {
    if role.Some? && role.value in SampleQuestions then SampleQuestions[role.value]
    else SampleQuestions[FallbackRole]
  }

  /** A role id without a set of its own gets the software questions. */
  lemma FallbackForUnlisted(role: Option<string>)
    requires role.None? || role.value !in SampleQuestions
    ensures QuestionsFor(role) == SoftwareQuestions
  {
  }

  /** Every role of the catalog resolves to a two-question list whose answer
      keys all index into their options. */
  lemma RolesResolve(id: string)
    requires IsRoleId(id)
    ensures |QuestionsFor(Some(id))| == 2
    ensures forall q :: q in QuestionsFor(Some(id)) ==> WellFormedQuestion(q)
  {
  }

  /** JavaScript truthiness of `selectedRole`: `null` and `""` are falsy, so
      every id of the catalog counts as a role. */
  predicate HasRole(role: Option<string>): (b: bool)
    ensures b ==> role.Some?
    ensures role.Some? && IsRoleId(role.value) ==> b
  {
    role.Some? && role.value != ""
  }

  /** The page's six state variables. */
  datatype QuizState = QuizState(
    selectedRole: Option<string>,
    isTestStarted: bool,
    currentQuestion: nat,
    selectedAnswer: Option<nat>,
    score: nat,
    showResults: bool)

  /** The initial `useState` values. */
  const Initial: QuizState := QuizState(None, false, 0, None, 0, false)

  /** The question list the page resolves for the current role. */
  function Questions(s: QuizState): seq<Question> {
    QuestionsFor(s.selectedRole)
  }

  /** Clicking a role card; the cards are shown only before a test starts. */
  function SelectRole(s: QuizState, id: string): (t: QuizState)
    requires !s.isTestStarted
    requires IsRoleId(id)
    ensures t.selectedRole == Some(id) && HasRole(t.selectedRole)
    ensures t.(selectedRole := s.selectedRole) == s
  {
    s.(selectedRole := Some(id))
  }

  /** `handleStartTest`, behind both "Start Test" and "Retake Test". Without a
      role it does nothing. With one it starts a fresh session but does NOT
      clear the pending answer. */
  function StartTest(s: QuizState): (t: QuizState)
    ensures !HasRole(s.selectedRole) ==> t == s
    ensures HasRole(s.selectedRole) ==>
      && t.isTestStarted && t.currentQuestion == 0 && t.score == 0 && !t.showResults
      && t.selectedRole == s.selectedRole && t.selectedAnswer == s.selectedAnswer
  {
    if HasRole(s.selectedRole) then
      s.(isTestStarted := true, currentQuestion := 0, score := 0, showResults := false)
    else
      s
  }

  /** Choosing option `i` of the question on screen. */
  function SelectAnswer(s: QuizState, i: nat): (t: QuizState)
    requires s.isTestStarted && !s.showResults
    requires s.currentQuestion < |Questions(s)|
    requires i < |Questions(s)[s.currentQuestion].options|
    ensures t.selectedAnswer == Some(i)
    ensures t.(selectedAnswer := s.selectedAnswer) == s
  {
    s.(selectedAnswer := Some(i))
  }

  /** `handleNextQuestion`. Score and position both come from the same
      snapshot. With no answer it does nothing. On the last question it only
      raises `showResults`, keeping position and pending answer. An index past
      the list makes `questions[currentQuestion].correct` throw before any
      setter runs, so nothing changes (the invariant shows this never occurs). */
  function NextQuestion(s: QuizState): (t: QuizState)
    requires !s.showResults
    ensures s.selectedAnswer.None? || s.currentQuestion >= |Questions(s)| ==> t == s
    ensures t.selectedRole == s.selectedRole && t.isTestStarted == s.isTestStarted
    ensures s.selectedAnswer.Some? && s.currentQuestion < |Questions(s)| ==>
      t.score == s.score + (if s.selectedAnswer.value == Questions(s)[s.currentQuestion].correct then 1 else 0)
    ensures s.selectedAnswer.Some? && s.currentQuestion < |Questions(s)| - 1 ==>
      t.currentQuestion == s.currentQuestion + 1 && t.selectedAnswer.None? && !t.showResults
    ensures s.selectedAnswer.Some? && s.currentQuestion == |Questions(s)| - 1 ==>
      t.showResults && t.currentQuestion == s.currentQuestion && t.selectedAnswer == s.selectedAnswer
  {
    var qs := Questions(s);
    if s.selectedAnswer.None? || s.currentQuestion >= |qs| then s
    else
      var score := if s.selectedAnswer.value == qs[s.currentQuestion].correct then s.score + 1 else s.score;
      if s.currentQuestion < |qs| - 1 then
        s.(score := score, currentQuestion := s.currentQuestion + 1, selectedAnswer := None)
      else
        s.(score := score, showResults := true)
  }

  /** `handleRestart`, behind "Exit Test" and "Choose Another Role": all six
      fields go back together, whatever came before. */
  function Restart(s: QuizState): (t: QuizState)
    ensures t == Initial
  {
    s.(isTestStarted := false, selectedRole := None, currentQuestion := 0,
       selectedAnswer := None, score := 0, showResults := false)
  }

  /** The user's clicks. */
  datatype Event =
    | ClickRole(id: string)
    | ClickStart
    | ClickOption(index: nat)
    | ClickNext
    | ClickExit

  /** The three cards the page renders in turn. */
  datatype Screen = RoleSelection | QuestionCard | ResultsCard

  /** The render conditional: no test yet, a test running, a test finished. */
  function ScreenOf(s: QuizState): (sc: Screen)
    ensures sc == RoleSelection <==> !s.isTestStarted
    ensures sc == ResultsCard <==> s.isTestStarted && s.showResults
  {
    if !s.isTestStarted then RoleSelection
    else if !s.showResults then QuestionCard
    else ResultsCard
  }

  /** A click can happen only while the page renders its target: role cards
      and "Start Test" before a test, options and "Next"/"Exit" during one,
      "Retake"/"Choose Another Role" on the results card. The disabled states
      of "Start" and "Next" are left to the handlers' own guards. */
  predicate Enabled(s: QuizState, e: Event): (b: bool)
    ensures b && e.ClickRole? ==> ScreenOf(s) == RoleSelection
    ensures b && (e.ClickOption? || e.ClickNext?) ==> ScreenOf(s) == QuestionCard
    ensures b && e.ClickStart? ==> ScreenOf(s) != QuestionCard
    ensures b && e.ClickExit? ==> ScreenOf(s) != RoleSelection
    ensures ScreenOf(s) == RoleSelection && e.ClickStart? ==> b
    ensures ScreenOf(s) == QuestionCard && (e.ClickNext? || e.ClickExit?) ==> b
    ensures ScreenOf(s) == ResultsCard && (e.ClickStart? || e.ClickExit?) ==> b
  {
    match e
    case ClickRole(id) => !s.isTestStarted && IsRoleId(id)
    case ClickStart => !s.isTestStarted || s.showResults
    case ClickOption(i) =>
      && s.isTestStarted && !s.showResults
      && s.currentQuestion < |Questions(s)|
      && i < |Questions(s)[s.currentQuestion].options|
    case ClickNext => s.isTestStarted && !s.showResults
    case ClickExit => s.isTestStarted
  }

  function Step(s: QuizState, e: Event): QuizState
    requires Enabled(s, e)
  {
    match e
    case ClickRole(id) => SelectRole(s, id)
    case ClickStart => StartTest(s)
    case ClickOption(i) => SelectAnswer(s, i)
    case ClickNext => NextQuestion(s)
    case ClickExit => Restart(s)
  }

  /** Every click of `es` is enabled in the state it meets. */
  predicate ValidTrace(s: QuizState, es: seq<Event>)
    decreases |es|
  {
    |es| == 0 || (Enabled(s, es[0]) && ValidTrace(Step(s, es[0]), es[1..]))
  }

  function Run(s: QuizState, es: seq<Event>): QuizState
    requires ValidTrace(s, es)
    decreases |es|
  {
    if |es| == 0 then s else Run(Step(s, es[0]), es[1..])
  }

  /** What holds in every state the page can reach from its initial one. */
  predicate Inv(s: QuizState) {
    var qs := Questions(s);
    && |qs| > 0
    && s.currentQuestion < |qs|
    && (!s.isTestStarted ==>
          s.currentQuestion == 0 && s.score == 0 && s.selectedAnswer.None? && !s.showResults)
    && (s.isTestStarted ==> HasRole(s.selectedRole))
    && (s.isTestStarted && !s.showResults ==> s.score <= s.currentQuestion)
    && (s.showResults ==>
          s.currentQuestion == |qs| - 1 && s.score <= |qs| && s.selectedAnswer.Some?)
    // A retake keeps the pending answer but moves back to the first question;
    // this clause survives that only because both questions of the bank have
    // four options.
    && (s.selectedAnswer.Some? ==> s.selectedAnswer.value < |qs[s.currentQuestion].options|)
  }

  lemma InitialInv()
    ensures Inv(Initial)
  {
  }

  lemma StepPreservesInv(s: QuizState, e: Event)
    requires Inv(s) && Enabled(s, e)
    ensures Inv(Step(s, e))
  {
  }

  /** Running a valid trace twice in a row is running the joined trace. */
  lemma {:induction false} RunAppend(s: QuizState, a: seq<Event>, b: seq<Event>)
    requires ValidTrace(s, a) && ValidTrace(Run(s, a), b)
    ensures ValidTrace(s, a + b)
    ensures Run(s, a + b) == Run(Run(s, a), b)
    decreases |a|
  {
    if |a| == 0 {
      assert a + b == b;
    } else {
      RunAppend(Step(s, a[0]), a[1..], b);
      assert (a + b)[0] == a[0];
      assert (a + b)[1..] == a[1..] + b;
    }
  }

  lemma {:induction false} RunPreservesInv(s: QuizState, es: seq<Event>)
    requires Inv(s) && ValidTrace(s, es)
    ensures Inv(Run(s, es))
    decreases |es|
  {
    if |es| > 0 {
      StepPreservesInv(s, es[0]);
      RunPreservesInv(Step(s, es[0]), es[1..]);
    }
  }

  /** From a fresh page, under any sequence of clicks: the position stays in
      the list, the score never passes the questions already answered, and a
      finished score never passes the list's length. */
  lemma ReachableBounds(es: seq<Event>)
    requires ValidTrace(Initial, es)
    ensures var t := Run(Initial, es);
      && t.currentQuestion < |Questions(t)|
      && (t.isTestStarted && !t.showResults ==> t.score <= t.currentQuestion)
      && (t.showResults ==> t.score <= |Questions(t)|)
  {
    InitialInv();
    RunPreservesInv(Initial, es);
  }

  /** The number of answers that match their question's key. */
  function CountCorrect(qs: seq<Question>, answers: seq<nat>): (n: nat)
    requires |answers| <= |qs|
    ensures n <= |answers|
    decreases |answers|
  {
    if |answers| == 0 then 0
    else (if answers[0] == qs[0].correct then 1 else 0) + CountCorrect(qs[1..], answers[1..])
  }

  /** Picking each answer in turn and pressing "Next" after it. */
  function AnswerEvents(answers: seq<nat>): (es: seq<Event>)
    ensures |es| == 2 * |answers|
    decreases |answers|
  {
    if |answers| == 0 then [] else [ClickOption(answers[0]), ClickNext] + AnswerEvents(answers[1..])
  }

  /** Each answer is a valid option of the question it is given to. */
  predicate ValidAnswers(qs: seq<Question>, from: nat, answers: seq<nat>) {
    && from + |answers| == |qs|
    && forall k :: 0 <= k < |answers| ==> answers[k] < |qs[from + k].options|
  }

  /** Answering every remaining question finishes the test, and the score
      grows by exactly the number of correct answers. */
  lemma {:induction false} AnsweringScores(s: QuizState, answers: seq<nat>)
    requires Inv(s) && s.isTestStarted && !s.showResults
    requires ValidAnswers(Questions(s), s.currentQuestion, answers)
    ensures ValidTrace(s, AnswerEvents(answers))
    ensures var t := Run(s, AnswerEvents(answers));
      t.showResults && t.score == s.score + CountCorrect(Questions(s)[s.currentQuestion..], answers)
    decreases |answers|
  {
    var qs := Questions(s);
    var pick := [ClickOption(answers[0]), ClickNext];
    assert ValidAnswers(qs, s.currentQuestion, answers) && 0 < |answers|;
    assert Enabled(s, ClickOption(answers[0]));
    var s1 := Step(s, ClickOption(answers[0]));
    StepPreservesInv(s, ClickOption(answers[0]));
    var s2 := Step(s1, ClickNext);
    StepPreservesInv(s1, ClickNext);
    assert pick[1..] == [ClickNext];
    assert [ClickNext][1..] == [];
    assert ValidTrace(s1, [ClickNext]) && Run(s1, [ClickNext]) == s2;
    assert ValidTrace(s, pick) && Run(s, pick) == s2;
    var rest := AnswerEvents(answers[1..]);
    assert AnswerEvents(answers) == pick + rest;
    assert qs[s.currentQuestion..][1..] == qs[s.currentQuestion + 1..];
    if |answers| == 1 {
      assert rest == [];
      RunAppend(s, pick, rest);
    } else {
      assert ValidAnswers(qs, s2.currentQuestion, answers[1..]) by {
        forall k | 0 <= k < |answers[1..]|
          ensures answers[1..][k] < |qs[s2.currentQuestion + k].options|
        {
          assert answers[1..][k] == answers[k + 1];
        }
      }
      AnsweringScores(s2, answers[1..]);
      RunAppend(s, pick, rest);
    }
  }

  /** Starting (or retaking) with a role and answering every question ends on
      the results card with exactly the number of correct answers, whatever
      the previous session scored. */
  lemma SessionScore(s: QuizState, answers: seq<nat>)
    requires Inv(s) && Enabled(s, ClickStart) && HasRole(s.selectedRole)
    requires ValidAnswers(Questions(s), 0, answers)
    ensures ValidTrace(s, [ClickStart] + AnswerEvents(answers))
    ensures var t := Run(s, [ClickStart] + AnswerEvents(answers));
      t.showResults && t.score == CountCorrect(Questions(s), answers)
  {
    var s1 := StartTest(s);
    StepPreservesInv(s, ClickStart);
    assert ValidTrace(s, [ClickStart]) && Run(s, [ClickStart]) == s1;
    assert Questions(s1)[0..] == Questions(s);
    AnsweringScores(s1, answers);
    RunAppend(s, [ClickStart], AnswerEvents(answers));
  }

  /** Retaking from the results card starts on the first question with the
      last answer still selected, so "Next" is live at once and scores that
      stale answer against the first question. */
  lemma RetakeKeepsPendingAnswer(s: QuizState)
    requires Inv(s) && s.showResults
    ensures var t := StartTest(s);
      && t.currentQuestion == 0 && t.score == 0
      && t.selectedAnswer == s.selectedAnswer && t.selectedAnswer.Some?
      && Enabled(t, ClickNext)
      && NextQuestion(t).score == (if s.selectedAnswer.value == Questions(s)[0].correct then 1 else 0)
  {
  }

  /** Exiting forgets everything: choosing a role and starting afterwards
      gives the same state as doing so on a fresh page. */
  lemma ExitForgetsSession(s: QuizState, id: string)
    requires s.isTestStarted && IsRoleId(id)
    ensures ValidTrace(s, [ClickExit, ClickRole(id), ClickStart])
    ensures ValidTrace(Initial, [ClickRole(id), ClickStart])
    ensures Run(s, [ClickExit, ClickRole(id), ClickStart]) == Run(Initial, [ClickRole(id), ClickStart])
    ensures Run(Initial, [ClickRole(id), ClickStart]) == QuizState(Some(id), true, 0, None, 0, false)
  {
    var a := [ClickExit, ClickRole(id), ClickStart];
    var b := [ClickRole(id), ClickStart];
    assert a[1..] == b;
    assert b[1..] == [ClickStart];
    assert [ClickStart][1..] == [];
  }

  /** The verdict on the results card. */
  datatype Tier = Perfect | Strong | KeepPracticing

  /** Checked in order: all correct; else at least 70% (inclusive, written
      without fractions as 10 * score >= 7 * total); else keep practicing. */
  function Classify(score: nat, total: nat): (t: Tier)
    ensures t == Perfect <==> score == total
    ensures t == Strong <==> score != total && 10 * score >= 7 * total
    ensures t == KeepPracticing <==> score != total && 10 * score < 7 * total
  {
    if score == total then Perfect
    else if 10 * score >= 7 * total then Strong
    else KeepPracticing
  }

  function TierRank(t: Tier): nat {
    match t
    case KeepPracticing => 0
    case Strong => 1
    case Perfect => 2
  }

  /** A higher score never earns a lower verdict. */
  lemma ClassifyMonotone(a: nat, b: nat, total: nat)
    requires a <= b <= total
    ensures TierRank(Classify(a, total)) <= TierRank(Classify(b, total))
  {
  }

  /** The boundary cases: 2 of 2, 1 of 2 (50%), 7 of 10 (exactly 70%). */
  lemma ClassifyExamples()
    ensures Classify(2, 2) == Perfect
    ensures Classify(1, 2) == KeepPracticing
    ensures Classify(7, 10) == Strong
    ensures Classify(6, 10) == KeepPracticing
  {
  }

  /** With the two-question list every role gets, "Strong" is never shown. */
  lemma NoStrongOnTwoQuestions(s: QuizState)
    requires Inv(s) && s.showResults
    ensures Classify(s.score, |Questions(s)|) != Strong
  {
  }

  /** The walk-through: answering 1 then 0 on the software set scores 1 of 2
      and ends with "Keep practicing". */
  lemma SoftwareScenario()
    ensures ValidTrace(Initial, [ClickRole("software"), ClickStart] + AnswerEvents([1, 0]))
    ensures var t := Run(Initial, [ClickRole("software"), ClickStart] + AnswerEvents([1, 0]));
      t.showResults && t.score == 1 && Classify(t.score, |Questions(t)|) == KeepPracticing
  {
    var s := SelectRole(Initial, "software");
    assert Roles[0].id == "software";
    assert ValidTrace(Initial, [ClickRole("software")]) && Run(Initial, [ClickRole("software")]) == s;
    assert Inv(s);
    assert ValidAnswers(Questions(s), 0, [1, 0]);
    SessionScore(s, [1, 0]);
    RunAppend(Initial, [ClickRole("software")], [ClickStart] + AnswerEvents([1, 0]));
    assert [ClickRole("software")] + ([ClickStart] + AnswerEvents([1, 0]))
        == [ClickRole("software"), ClickStart] + AnswerEvents([1, 0]);
    assert CountCorrect(SoftwareQuestions, [1, 0]) == 1;
  }

  datatype NextLabel = NextQuestionLabel | FinishTestLabel

  /** The caption of the advance button. */
  function NextButtonLabel(s: QuizState): (l: NextLabel)
    ensures s.currentQuestion < |Questions(s)| ==>
      (l == FinishTestLabel <==> s.currentQuestion == |Questions(s)| - 1)
  {
    if s.currentQuestion < |Questions(s)| - 1 then NextQuestionLabel else FinishTestLabel
  }

  /** "Finish Test" is shown exactly on the last question, and exactly when
      answering moves to the results card. */
  lemma FinishLabelCompletes(s: QuizState)
    requires Inv(s) && s.isTestStarted && !s.showResults
    ensures NextButtonLabel(s) == FinishTestLabel <==> s.currentQuestion == |Questions(s)| - 1
    ensures s.selectedAnswer.Some? ==> (NextButtonLabel(s) == FinishTestLabel <==> NextQuestion(s).showResults)
  {
  }

  /** The progress bar as the pair "question k of n" (the percentage itself is
      display arithmetic). */
  function Progress(s: QuizState): (p: (nat, nat))
    ensures p.0 >= 1 && p.1 == |Questions(s)|
    ensures s.currentQuestion < |Questions(s)| ==>
      p.0 <= p.1 && (p.0 == p.1 <==> NextButtonLabel(s) == FinishTestLabel)
  {
    (s.currentQuestion + 1, |Questions(s)|)
  }
}
