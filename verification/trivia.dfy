/** The trivia modal shown for one news item: it loads the quiz attached to the
    item, walks the reader through its questions one at a time, counts correct
    answers and finally shows `score / questions.length`.

    The modal's React state is the `Modal` record; each user action is a `Click`.
    A click on a button that the view does not render, or renders disabled, has
    no effect, which is how `Step` treats it.
 */
module Trivia {
  import opened Outcomes

  /** A row of the `trivia` table (only the selected columns). */
  datatype TriviaRow = TriviaRow(id: int, title: string)

  /** A row of the `trivia_question` table. */
  datatype Question = Question(id: int, text: string, options: seq<string>, correctOption: string)

  /** The modal's state: `trivia`, `questions`, `currentQuestionIndex`,
      `selectedOption`, `isCorrect`, `score`, `showResult`. */
  datatype Modal = Modal(
    trivia: Option<TriviaRow>,
    questions: seq<Question>,
    index: nat,
    selected: Option<string>,
    isCorrect: Option<bool>,
    score: nat,
    showResult: bool)

  /** The state every freshly mounted modal starts in. */
  const Initial := Modal(None, [], 0, None, None, 0, false)

  /** The quiz chosen for a news item: the first row the query returned, if any. */
  function FirstRow(rows: seq<TriviaRow>): (r: Option<TriviaRow>)
    ensures r.None? <==> |rows| == 0
    ensures r.Some? ==> r.value == rows[0]
  {
    if |rows| > 0 then Some(rows[0]) else None
  }

  /** The effect of one run of the loading effect, and which queries it issued. */
  datatype Loaded = Loaded(modal: Modal, triviaQueried: bool, questionsQueriedFor: Option<int>)

  /** The loading effect: nothing without a news id; a failed trivia query
      changes nothing; otherwise the first row (or none) becomes the trivia and,
      only when there is one, its questions are fetched and stored unless that
      query fails. */
  function Load(m: Modal, newsId: Option<string>, triviaQuery: Outcome<seq<TriviaRow>>,
                questionsQuery: Outcome<seq<Question>>): (r: Loaded)
    ensures r.triviaQueried <==> Truthy(newsId)
    ensures !Truthy(newsId) || triviaQuery.Err? ==> r.modal == m
    ensures Truthy(newsId) && triviaQuery.Ok? ==> r.modal.trivia == FirstRow(triviaQuery.value)
    ensures r.questionsQueriedFor.Some? <==>
              Truthy(newsId) && triviaQuery.Ok? && |triviaQuery.value| > 0
    ensures r.questionsQueriedFor.Some? ==> r.questionsQueriedFor.value == triviaQuery.value[0].id
    ensures r.modal.questions != m.questions ==>
              r.questionsQueriedFor.Some? && questionsQuery == Ok(r.modal.questions)
    ensures r.questionsQueriedFor.Some? && questionsQuery.Ok? ==>
              r.modal.questions == questionsQuery.value
    ensures r.modal.(trivia := m.trivia, questions := m.questions) == m
  {
    if !Truthy(newsId) then Loaded(m, false, None)
    else match triviaQuery
      case Err(_) => Loaded(m, true, None)
      case Ok(rows) =>
        var current := FirstRow(rows);
        var m1 := m.(trivia := current);
        if current.None? then Loaded(m1, true, None)
        else match questionsQuery
          case Err(_) => Loaded(m1, true, Some(current.value.id))
          case Ok(qs) => Loaded(m1.(questions := qs), true, Some(current.value.id))
  }

  /** The "no trivia available" view is shown instead of any question. */
  predicate NoTriviaView(m: Modal) {
    m.trivia.None? || |m.questions| == 0
  }

  /** A question with its option buttons is on screen. */
  predicate QuestionView(m: Modal) {
    !NoTriviaView(m) && !m.showResult && m.index < |m.questions|
  }

  /** The "trivia completed" view with `score / questions.length` is on screen. */
  predicate ResultView(m: Modal) {
    !NoTriviaView(m) && m.showResult
  }

  /** A user action inside the modal. */
  datatype Click = ChooseOption(option: string) | Next

  /** An option button can be pressed: it is rendered for the current question
      and no option has been chosen yet (buttons are disabled afterwards). */
  predicate CanChoose(m: Modal, option: string): (b: bool)
    ensures b ==> m.trivia.Some? && !m.showResult && m.index < |m.questions|
    ensures m.selected.Some? ==> !b
  {
    QuestionView(m) && m.selected.None? && option in m.questions[m.index].options
  }

  /** The "next"/"see result" button is rendered only while the chosen option
      is truthy, so an empty-string option never shows it. */
  predicate CanAdvance(m: Modal): (b: bool)
    ensures b ==> m.trivia.Some? && !m.showResult && m.index < |m.questions| && m.selected.Some?
    ensures b ==> forall o :: !CanChoose(m, o)
    ensures m.selected == Some("") ==> !b
  {
    QuestionView(m) && m.selected.Some? && m.selected.value != ""
  }

  /** The option handler: record the choice and judge it by value equality;
      a correct choice adds exactly one to the score. */
  function ChooseHandler(m: Modal, option: string): (r: Modal)
    requires m.index < |m.questions|
    ensures r.selected == Some(option)
    ensures option == m.questions[m.index].correctOption ==>
              r.isCorrect == Some(true) && r.score == m.score + 1
    ensures option != m.questions[m.index].correctOption ==>
              r.isCorrect == Some(false) && r.score == m.score
    ensures r.(selected := m.selected, isCorrect := m.isCorrect, score := m.score) == m
  {
    var m1 := m.(selected := Some(option));
    if option == m.questions[m.index].correctOption then
      m1.(isCorrect := Some(true), score := m.score + 1)
    else
      m1.(isCorrect := Some(false))
  }

  /** The "next" handler: clear the choice, then move to the following
      question, or show the result after the last one. */
  function NextHandler(m: Modal): (r: Modal)
    ensures r.selected.None? && r.isCorrect.None?
    ensures m.index + 1 < |m.questions| ==>
              r.index == m.index + 1 && r.showResult == m.showResult
    ensures m.index + 1 >= |m.questions| ==> r.index == m.index && r.showResult
    ensures r.(selected := m.selected, isCorrect := m.isCorrect, index := m.index,
               showResult := m.showResult) == m
  {
    var m1 := m.(selected := None, isCorrect := None);
    if m.index < |m.questions| - 1 then m1.(index := m.index + 1)
    else m1.(showResult := true)
  }

  /** One click: a handler runs only when its button is enabled on screen.
      A click never changes the loaded quiz; choosing never moves between
      questions; "next" never changes the score; and a click on a button
      that is not enabled changes nothing. */
  function Step(m: Modal, c: Click): (r: Modal)
    ensures r.trivia == m.trivia && r.questions == m.questions
    ensures c.ChooseOption? ==> r.index == m.index && r.showResult == m.showResult
    ensures c.Next? ==> r.score == m.score
    ensures r != m ==> (c.ChooseOption? && CanChoose(m, c.option)) || (c.Next? && CanAdvance(m))
  {
    match c
    case ChooseOption(o) => if CanChoose(m, o) then ChooseHandler(m, o) else m
    case Next => if CanAdvance(m) then NextHandler(m) else m
  }

  /** A sequence of clicks, applied in order. */
  function Run(m: Modal, clicks: seq<Click>): Modal
    decreases |clicks|
  {
    if |clicks| == 0 then m else Run(Step(m, clicks[0]), clicks[1..])
  }

  /** What holds of every state the modal reaches after loading. */
  ghost predicate Inv(m: Modal) {
    && (|m.questions| == 0 ==> m.index == 0 && m.score == 0 && m.selected.None? && !m.showResult)
    && (|m.questions| > 0 ==> m.index < |m.questions|)
    && (m.selected.Some? <==> m.isCorrect.Some?)
    && (m.showResult ==> m.index == |m.questions| - 1 && m.selected.None?)
    && m.score <= m.index + (if m.selected.Some? || m.showResult then 1 else 0)
  }

  /** Loading a freshly mounted modal yields a state satisfying the invariant. */
  lemma LoadEstablishesInv(newsId: Option<string>, tq: Outcome<seq<TriviaRow>>,
                           qq: Outcome<seq<Question>>)
    ensures Inv(Load(Initial, newsId, tq, qq).modal)
  {
  }

  /** Every click preserves the invariant. */
  lemma StepPreservesInv(m: Modal, c: Click)
    requires Inv(m)
    ensures Inv(Step(m, c))
  {
  }

  /** Any number of clicks preserves the invariant. */
  lemma {:induction false} RunPreservesInv(m: Modal, clicks: seq<Click>)
    requires Inv(m)
    ensures Inv(Run(m, clicks))
    decreases |clicks|
  {
    if |clicks| > 0 {
      StepPreservesInv(m, clicks[0]);
      RunPreservesInv(Step(m, clicks[0]), clicks[1..]);
    }
  }

  /** After loading and any clicks, the index stays in `[0, questions.length)`
      whenever there are questions, and the score never exceeds the number of
      questions. */
  lemma IndexAndScoreBounded(newsId: Option<string>, tq: Outcome<seq<TriviaRow>>,
                             qq: Outcome<seq<Question>>, clicks: seq<Click>)
    ensures var m := Run(Load(Initial, newsId, tq, qq).modal, clicks);
            && (|m.questions| > 0 ==> m.index < |m.questions|)
            && m.score <= |m.questions|
  {
    LoadEstablishesInv(newsId, tq, qq);
    RunPreservesInv(Load(Initial, newsId, tq, qq).modal, clicks);
  }

  /** Once an option is chosen for the current question, every further option
      click is ignored: at most one answer counts per question. */
  lemma {:induction false} AnswerIsLocked(m: Modal, options: seq<string>)
    requires m.selected.Some?
    ensures Run(m, seq(|options|, i requires 0 <= i < |options| => ChooseOption(options[i]))) == m
    decreases |options|
  {
    var clicks := seq(|options|, i requires 0 <= i < |options| => ChooseOption(options[i]));
    if |options| > 0 {
      assert Step(m, clicks[0]) == m;
      assert clicks[1..] == seq(|options| - 1, i requires 0 <= i < |options| - 1 => ChooseOption(options[1..][i]));
      AnswerIsLocked(m, options[1..]);
    }
  }

  /** Without a trivia or without questions, no click changes anything. The
      second clause, that the result view is never reached, follows from the
      first, since the result view requires a quiz with questions. */
  lemma {:induction false} NoTriviaIsInert(m: Modal, clicks: seq<Click>)
    requires NoTriviaView(m)
    ensures Run(m, clicks) == m
    ensures !ResultView(Run(m, clicks))
    decreases |clicks|
  {
    if |clicks| > 0 {
      assert Step(m, clicks[0]) == m;
      NoTriviaIsInert(m, clicks[1..]);
    }
  }

  /** Choosing an empty-string option disables every option button while never
      showing the "next" button: no click changes the state afterwards. */
  lemma {:induction false} EmptyOptionStalls(m: Modal, clicks: seq<Click>)
    requires m.selected == Some("")
    ensures Run(m, clicks) == m
    decreases |clicks|
  {
    if |clicks| > 0 {
      assert Step(m, clicks[0]) == m;
      EmptyOptionStalls(m, clicks[1..]);
    }
  }

  /** Reference definition: how many choices equal their question's correct option. */
  function CountCorrect(qs: seq<Question>, choices: seq<string>): (n: nat)
    requires |qs| == |choices|
    ensures n <= |qs|
    decreases |qs|
  {
    if |qs| == 0 then 0
    else (if choices[0] == qs[0].correctOption then 1 else 0) + CountCorrect(qs[1..], choices[1..])
  }

  /** The clicks of a straight play-through: choose, next, choose, next, ... */
  function PlayClicks(choices: seq<string>): (clicks: seq<Click>)
    ensures |clicks| == 2 * |choices|
    decreases |choices|
  {
    if |choices| == 0 then [] else [ChooseOption(choices[0]), Next] + PlayClicks(choices[1..])
  }

  /** A choice sequence the view lets a reader make: one non-empty option of
      each remaining question, starting at question `from`. */
  ghost predicate ValidChoices(qs: seq<Question>, from: nat, choices: seq<string>) {
    && from + |choices| == |qs|
    && forall k :: 0 <= k < |choices| ==> choices[k] != "" && choices[k] in qs[from + k].options
  }

  lemma {:induction false} PlayFrom(m: Modal, choices: seq<string>)
    requires m.trivia.Some? && !m.showResult && m.selected.None?
    requires |choices| > 0 && ValidChoices(m.questions, m.index, choices)
    ensures var r := Run(m, PlayClicks(choices));
            && ResultView(r)
            && r.score == m.score + CountCorrect(m.questions[m.index..], choices)
            && r.index == |m.questions| - 1
    decreases |choices|
  {
    var clicks := PlayClicks(choices);
    assert clicks[0] == ChooseOption(choices[0]);
    var m1 := Step(m, clicks[0]);
    assert m1 == ChooseHandler(m, choices[0]);
    assert clicks[1..][0] == Next;
    var m2 := Step(m1, Next);
    assert m2 == NextHandler(m1);
    assert clicks[1..][1..] == PlayClicks(choices[1..]);
    assert Run(m, clicks) == Run(m2, PlayClicks(choices[1..]));
    var rest := m.questions[m.index..];
    assert rest[1..] == m.questions[m.index + 1..];
    if |choices| == 1 {
      assert Run(m2, PlayClicks(choices[1..])) == m2;
    } else {
      assert ValidChoices(m2.questions, m2.index, choices[1..]) by {
        forall k | 0 <= k < |choices[1..]|
          ensures choices[1..][k] != "" && choices[1..][k] in m2.questions[m2.index + k].options
        {
          assert choices[1..][k] == choices[k + 1];
        }
      }
      PlayFrom(m2, choices[1..]);
    }
  }

  /** A complete play-through of a loaded quiz ends in the result view with a
      score equal to the number of answers matching their correct option. */
  lemma PlayThroughScore(t: TriviaRow, qs: seq<Question>, choices: seq<string>)
    requires |qs| > 0 && ValidChoices(qs, 0, choices)
    ensures var r := Run(Modal(Some(t), qs, 0, None, None, 0, false), PlayClicks(choices));
            ResultView(r) && r.score == CountCorrect(qs, choices)
  {
    PlayFrom(Modal(Some(t), qs, 0, None, None, 0, false), choices);
    assert qs[0..] == qs;
  }

  /** Answering every question correctly scores `questions.length`. */
  lemma PerfectPlayThrough(t: TriviaRow, qs: seq<Question>, choices: seq<string>)
    requires |qs| > 0 && ValidChoices(qs, 0, choices)
    requires forall k :: 0 <= k < |qs| ==> choices[k] == qs[k].correctOption
    ensures Run(Modal(Some(t), qs, 0, None, None, 0, false), PlayClicks(choices)).score == |qs|
  {
    PlayThroughScore(t, qs, choices);
    AllCorrectCount(qs, choices);
  }

  lemma {:induction false} AllCorrectCount(qs: seq<Question>, choices: seq<string>)
    requires |qs| == |choices|
    requires forall k :: 0 <= k < |qs| ==> choices[k] == qs[k].correctOption
    ensures CountCorrect(qs, choices) == |qs|
    decreases |qs|
  {
    if |qs| > 0 {
      assert choices[0] == qs[0].correctOption;
      AllCorrectCount(qs[1..], choices[1..]);
    }
  }
}
