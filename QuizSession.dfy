/**
 * The quiz tab's session: choosing subject, difficulty and count loads a sampled quiz,
 * per-question answers are recorded until submission, submission is gated on every
 * question being attempted and grades the answers once, and restart forgets the quiz.
 *
 * Session keys that the application pops (quiz3, answers3, submitted3, quiz3_results,
 * quiz3_score, quiz_params) are Option fields: None is an absent key. All other session
 * keys are kept by name only, in otherKeys.
 */
module QuizSession {

  import opened Common
  import opened Strings
  import opened QuestionBank

  /** quiz_params: the choice a quiz was built for, with the count after clamping. */
  datatype QuizParams = QuizParams(subject: string, difficulty: Difficulty, num: int)

  /** One entry of quiz3_results: (i, chosen, correct_ans, is_correct, question_text). */
  datatype ResultRow = ResultRow(index: nat, chosen: Option<string>, correct: Option<string>, isCorrect: bool, prompt: Option<string>)

  /** quiz3_score: (correct, total). */
  datatype Score = Score(correct: nat, total: nat)

  // ---------------------------------------------------------------------------
  // Answers, attempts and grading

  /** The choice recorded for question i, or none when there is no slot for it. */
  function AnswerAt(answers: seq<Option<string>>, i: nat): Option<string> {
    if i < |answers| then answers[i] else None
  }

  /** The answer slots of a freshly built quiz: every one unattempted. */
  function AllUnanswered(n: nat): (a: seq<Option<string>>)
    ensures |a| == n && forall i :: 0 <= i < n ==> a[i].None?
  {
    seq(n, i => None)
  }

  /** The number of answer slots that hold a choice. */
  function Attempted(answers: seq<Option<string>>): (n: nat)
    ensures n <= |answers|
  {
    if answers == [] then 0
    else Attempted(answers[..|answers| - 1]) + (if answers[|answers| - 1].Some? then 1 else 0)
  }

  /** At most every slot is attempted, and all are exactly when none is None. */
  lemma {:induction false} AttemptedCount(answers: seq<Option<string>>)
    ensures Attempted(answers) <= |answers|
    ensures Attempted(answers) == |answers| <==> forall i :: 0 <= i < |answers| ==> answers[i].Some?
    ensures Attempted(answers) == 0 <==> forall i :: 0 <= i < |answers| ==> answers[i].None?
  {
    if answers != [] {
      var p := answers[..|answers| - 1];
      AttemptedCount(p);
      assert forall i :: 0 <= i < |p| ==> p[i] == answers[i];
    }
  }

  /** The submit loop's per-question record. */
  function GradeRow(quiz: seq<RawQuestion>, answers: seq<Option<string>>, i: nat): ResultRow
    requires i < |quiz|
  {
    var chosen := AnswerAt(answers, i);
    var correct := CorrectAnswer(quiz[i]);
    ResultRow(i, chosen, correct, chosen == correct, PromptText(quiz[i]))
  }

  /** The submit loop's results, one row per question in quiz order. */
  function Grade(quiz: seq<RawQuestion>, answers: seq<Option<string>>): (rows: seq<ResultRow>)
    ensures |rows| == |quiz|
    ensures forall i :: 0 <= i < |quiz| ==> rows[i] == GradeRow(quiz, answers, i)
  {
    seq(|quiz|, i requires 0 <= i < |quiz| => GradeRow(quiz, answers, i))
  }

  /** Number of rows marked correct. */
  function CorrectCount(rows: seq<ResultRow>): (n: nat)
    ensures n <= |rows|
  {
    if rows == [] then 0
    else CorrectCount(rows[..|rows| - 1]) + (if rows[|rows| - 1].isCorrect then 1 else 0)
  }

  lemma {:induction false} CorrectCountBounds(rows: seq<ResultRow>)
    ensures CorrectCount(rows) <= |rows|
    ensures CorrectCount(rows) == |rows| <==> forall i :: 0 <= i < |rows| ==> rows[i].isCorrect
    ensures CorrectCount(rows) == 0 <==> forall i :: 0 <= i < |rows| ==> !rows[i].isCorrect
  {
    if rows != [] {
      var p := rows[..|rows| - 1];
      CorrectCountBounds(p);
      assert forall i :: 0 <= i < |p| ==> p[i] == rows[i];
    }
  }

  /** The scoring loop of the submit handler. */
  method ScoreAnswers(quiz: seq<RawQuestion>, answers: seq<Option<string>>) returns (rows: seq<ResultRow>, correct: nat)
    ensures rows == Grade(quiz, answers)
    ensures correct == CorrectCount(rows) && correct <= |quiz|
    ensures correct == |quiz| <==> forall i :: 0 <= i < |quiz| ==> AnswerAt(answers, i) == CorrectAnswer(quiz[i])
  {
    rows, correct := [], 0;
    for i := 0 to |quiz|
      invariant |rows| == i
      invariant forall k :: 0 <= k < i ==> rows[k] == GradeRow(quiz, answers, k)
      invariant correct == CorrectCount(rows)
    {
      var chosen := AnswerAt(answers, i);
      var correctAns := CorrectAnswer(quiz[i]);
      var isCorrect := chosen == correctAns;
      var row := ResultRow(i, chosen, correctAns, isCorrect, PromptText(quiz[i]));
      assert (rows + [row])[..i] == rows;
      rows := rows + [row];
      if isCorrect {
        correct := correct + 1;
      }
    }
    assert rows == Grade(quiz, answers);
    GradeAllCorrect(quiz, answers);
  }

  /** The count of correct rows is at most the number of questions, and reaches it exactly when every answer matches. */
  lemma GradeAllCorrect(quiz: seq<RawQuestion>, answers: seq<Option<string>>)
    ensures CorrectCount(Grade(quiz, answers)) <= |quiz|
    ensures CorrectCount(Grade(quiz, answers)) == |quiz| <==>
      forall i :: 0 <= i < |quiz| ==> AnswerAt(answers, i) == CorrectAnswer(quiz[i])
  {
    var rows := Grade(quiz, answers);
    CorrectCountBounds(rows);
    assert forall i :: 0 <= i < |quiz| ==> (rows[i].isCorrect <==> AnswerAt(answers, i) == CorrectAnswer(quiz[i]));
  }

  // ---------------------------------------------------------------------------
  // Score bands and revision topics

  datatype Band = Excellent | Good | BelowAverage

  /** score_percent: (correct / total) * 100, or 0 for an empty quiz. */
  function ScorePercent(correct: int, total: int): (p: real)
    ensures total > 0 ==> p * total as real == correct as real * 100.0
    ensures total <= 0 ==> p == 0.0
  {
    if total > 0 then
      PercentTimesTotal(correct as real, total as real);
      correct as real / total as real * 100.0
    else 0.0
  }

  /** The feedback banner chosen from the percentage. */
  function BandOfPercent(p: real): Band {
    if p >= 70.0 then Excellent
    else if 50.0 <= p < 70.0 then Good
    else BelowAverage
  }

  /** The band of a score, decided on whole numbers: correct * 100 against 70 * total and 50 * total. */
  function Classify(correct: int, total: int): Band {
    if total > 0 && correct * 100 >= 70 * total then Excellent
    else if total > 0 && correct * 100 >= 50 * total then Good
    else BelowAverage
  }

  /** Deciding on whole numbers agrees with deciding on the exact percentage. */
  lemma ClassifyMatchesPercent(correct: int, total: int)
    ensures Classify(correct, total) == BandOfPercent(ScorePercent(correct, total))
  {
    if total > 0 {
      var c, t := correct as real, total as real;
      var p := ScorePercent(correct, total);
      assert p * t == c * 100.0;
      CompareScaled(p, t, c * 100.0, 70.0);
      CompareScaled(p, t, c * 100.0, 50.0);
      assert (correct * 100) as real == c * 100.0;
      assert (70 * total) as real == 70.0 * t;
      assert (50 * total) as real == 50.0 * t;
    }
  }

  lemma PercentTimesTotal(c: real, t: real)
    requires t > 0.0
    ensures c / t * 100.0 * t == c * 100.0
  {
    assert c / t * t == c;
  }

  lemma CompareScaled(p: real, t: real, m: real, x: real)
    requires t > 0.0 && p * t == m
    ensures p >= x <==> m >= x * t
  {
    if p >= x {
      assert p * t >= x * t;
    } else {
      assert p * t < x * t;
    }
  }

  /** A score of at most the total lies between 0 and 100 percent. */
  lemma PercentInRange(correct: nat, total: nat)
    requires correct <= total
    ensures 0.0 <= ScorePercent(correct, total) <= 100.0
  {
    if total > 0 {
      assert correct as real / total as real <= 1.0;
    }
  }

  /** Seven, five and three of ten correct fall in the three different bands. */
  lemma BandExamples()
    ensures Classify(7, 10) == Excellent && ScorePercent(7, 10) == 70.0
    ensures Classify(5, 10) == Good
    ensures Classify(3, 10) == BelowAverage
    ensures Classify(0, 0) == BelowAverage && ScorePercent(0, 0) == 0.0
  {
  }

  /** An answered question graded wrong. */
  predicate IsWrong(r: ResultRow) {
    r.chosen.Some? && !r.isCorrect
  }

  /** The revision topic of a question: its second to fourth words, joined by single spaces. */
  function Topic(prompt: string): (t: string)
    ensures Words(t) == Slice(Words(prompt), 1, 4)
    ensures |Words(t)| <= 3
  {
    WordWindow(prompt, 1, 4)
  }

  /** The de-duplicated topics of the wrongly answered questions. */
  function WrongTopics(rows: seq<ResultRow>): set<string> {
    set k | 0 <= k < |rows| && IsWrong(rows[k]) && rows[k].prompt.Some? :: Topic(rows[k].prompt.value)
  }

  /**
   * After grading, a topic is suggested exactly when some question was answered, the answer
   * differs from the question's correct answer, and the question's text yields the topic.
   */
  lemma WrongTopicsOfGrade(quiz: seq<RawQuestion>, answers: seq<Option<string>>, t: string)
    ensures t in WrongTopics(Grade(quiz, answers)) <==>
      exists k :: && 0 <= k < |quiz| && AnswerAt(answers, k).Some? && AnswerAt(answers, k) != CorrectAnswer(quiz[k])
                  && PromptText(quiz[k]).Some? && Topic(PromptText(quiz[k]).value) == t
  {
    var rows := Grade(quiz, answers);
    if t in WrongTopics(rows) {
      var k :| 0 <= k < |rows| && IsWrong(rows[k]) && rows[k].prompt.Some? && Topic(rows[k].prompt.value) == t;
      assert rows[k] == GradeRow(quiz, answers, k);
    }
    if exists k :: && 0 <= k < |quiz| && AnswerAt(answers, k).Some? && AnswerAt(answers, k) != CorrectAnswer(quiz[k])
                   && PromptText(quiz[k]).Some? && Topic(PromptText(quiz[k]).value) == t {
      var k :| && 0 <= k < |quiz| && AnswerAt(answers, k).Some? && AnswerAt(answers, k) != CorrectAnswer(quiz[k])
               && PromptText(quiz[k]).Some? && Topic(PromptText(quiz[k]).value) == t;
      assert rows[k] == GradeRow(quiz, answers, k);
      assert IsWrong(rows[k]);
    }
  }

  /** A perfect score suggests nothing to revise. */
  lemma PerfectScoreNoTopics(rows: seq<ResultRow>)
    requires CorrectCount(rows) == |rows|
    ensures WrongTopics(rows) == {}
  {
    CorrectCountBounds(rows);
  }

  // ---------------------------------------------------------------------------
  // The session

  /** What a change of the three selectors leads to. */
  datatype SelectOutcome =
    | Cleared                                // a selector shows "None"
    | UnknownSubject                         // the subject is not a key of the bank
    | NoQuestions                            // the pool for the choice is empty
    | Loaded(rebuilt: bool, clamped: bool)   // a quiz is shown; rebuilt if it was sampled now
    | MissingQuiz                            // the quiz keys are gone but no rebuild happens

  /** Session keys that start with "marker_q". */
  predicate IsMarkerKey(k: string) {
    |k| >= 8 && k[..8] == "marker_q"
  }

  /** The session keys the quiz modelled here owns; every other key is kept by name only. */
  const QuizKeys: set<string> := {"quiz_params", "quiz3", "answers3", "submitted3", "quiz3_results", "quiz3_score"}

  class Session {
    const bank: Bank
    var params: Option<QuizParams>
    var quiz: Option<seq<RawQuestion>>
    var answers: Option<seq<Option<string>>>
    var submitted: Option<bool>
    var results: Option<seq<ResultRow>>
    var score: Option<Score>
    var otherKeys: set<string>

    /** Whenever parameters are recorded, a quiz of the clamped size with one slot per question exists, and a submitted quiz carries its grading. */
    ghost predicate Valid()
      reads this
    {
      && otherKeys !! QuizKeys
      && (params.Some? ==>
        && quiz.Some? && answers.Some? && submitted.Some?
        && |answers.value| == |quiz.value|
        && (params.value.num >= 0 ==> |quiz.value| == params.value.num)
        && (submitted.value ==>
              && results == Some(Grade(quiz.value, answers.value))
              && score == Some(Score(CorrectCount(Grade(quiz.value, answers.value)), |quiz.value|))))
    }

    /** A new session: none of the quiz keys is present. */
    constructor (bank: Bank, otherKeys: set<string>)
      requires otherKeys !! QuizKeys
      ensures this.bank == bank && this.otherKeys == otherKeys
      ensures params.None? && quiz.None? && answers.None? && submitted.None? && results.None? && score.None?
      ensures Valid()
    {
      this.bank := bank;
      this.otherKeys := otherKeys;
      params, quiz, answers, submitted, results, score := None, None, None, None, None, None;
    }

    /** A changed choice: records the parameters, samples the quiz and resets its answers. */
    method Rebuild(subj: string, d: Difficulty, num: int, draws: nat -> int)
      modifies this
      ensures params == Some(QuizParams(subj, d, num))
      ensures quiz == Some(Sample(bank, subj, d, num, draws))
      ensures answers == Some(AllUnanswered(|quiz.value|)) && submitted == Some(false)
      ensures results == old(results) && score == old(score) && otherKeys == old(otherKeys)
      ensures num >= 0 ==> |quiz.value| == Min(num, |Pool(bank, subj, d)|)
      ensures num <= |Pool(bank, subj, d)| && otherKeys !! QuizKeys ==> Valid()
    {
      params := Some(QuizParams(subj, d, num));
      var q := SampleQuestions(bank, subj, d, num, draws);
      quiz := Some(q);
      answers := Some(AllUnanswered(|q|));
      submitted := Some(false);
    }

    /**
     * The selector handler as the application has it: the "None" branch and the empty-pool
     * branch leave quiz_params in place.
     */
    method SelectParametersAsWritten(subject: Option<string>, difficulty: Option<Difficulty>, requested: int, draws: nat -> int)
      returns (o: SelectOutcome)
      modifies this
      ensures otherKeys == old(otherKeys) && results == old(results) && score == old(score)
      ensures subject.None? || difficulty.None? ==>
        o == Cleared && params == old(params) && quiz.None? && answers.None? && submitted.None?
      ensures subject.Some? && difficulty.Some? && Lower(subject.value) !in bank ==>
        o == UnknownSubject && params == old(params) && quiz == old(quiz) && answers == old(answers) && submitted == old(submitted)
      ensures subject.Some? && difficulty.Some? && Lower(subject.value) in bank && Pool(bank, subject.value, difficulty.value) == [] ==>
        o == NoQuestions && params == old(params) && quiz == Some([]) && answers == old(answers) && submitted == old(submitted)
      ensures subject.Some? && difficulty.Some? && Lower(subject.value) in bank && Pool(bank, subject.value, difficulty.value) != [] ==>
        var pool := Pool(bank, subject.value, difficulty.value);
        var p := QuizParams(subject.value, difficulty.value, Min(requested, |pool|));
        && params == Some(p)
        && (old(params) != Some(p) ==>
              && o == Loaded(true, requested > |pool|)
              && quiz == Some(Sample(bank, subject.value, difficulty.value, p.num, draws))
              && answers == Some(AllUnanswered(|quiz.value|)) && submitted == Some(false))
        && (old(params) == Some(p) ==>
              && quiz == old(quiz) && answers == old(answers) && submitted == old(submitted)
              && o == (if quiz.None? || answers.None? || submitted.None? then MissingQuiz else Loaded(false, requested > |pool|)))
    {
      if subject.None? || difficulty.None? {
        quiz, answers, submitted := None, None, None;
        return Cleared;
      }
      var subj, d := subject.value, difficulty.value;
      if Lower(subj) !in bank {
        return UnknownSubject;
      }
      var pool := Pool(bank, subj, d);
      if |pool| == 0 {
        quiz := Some([]);
        return NoQuestions;
      }
      var num := if requested > |pool| then |pool| else requested;
      var rebuild := params.None? || params.value.subject != subj || params.value.difficulty != d || params.value.num != num;
      if rebuild {
        Rebuild(subj, d, num, draws);
      }
      if quiz.None? || answers.None? || submitted.None? {
        return MissingQuiz;
      }
      o := Loaded(rebuild, requested > |pool|);
    }

    /**
     * The selector handler with the parameters forgotten whenever the quiz is cleared or
     * emptied, so that returning to earlier parameters samples afresh.
     */
    method SelectParameters(subject: Option<string>, difficulty: Option<Difficulty>, requested: int, draws: nat -> int)
      returns (o: SelectOutcome)
      requires Valid()
      modifies this
      ensures Valid()
      ensures o != MissingQuiz
      ensures otherKeys == old(otherKeys) && results == old(results) && score == old(score)
      ensures subject.None? || difficulty.None? ==>
        o == Cleared && params.None? && quiz.None? && answers.None? && submitted.None?
      ensures subject.Some? && difficulty.Some? && Lower(subject.value) !in bank ==>
        o == UnknownSubject && params == old(params) && quiz == old(quiz) && answers == old(answers) && submitted == old(submitted)
      ensures subject.Some? && difficulty.Some? && Lower(subject.value) in bank && Pool(bank, subject.value, difficulty.value) == [] ==>
        o == NoQuestions && params.None? && quiz == Some([]) && answers == old(answers) && submitted == old(submitted)
      ensures subject.Some? && difficulty.Some? && Lower(subject.value) in bank && Pool(bank, subject.value, difficulty.value) != [] ==>
        var pool := Pool(bank, subject.value, difficulty.value);
        var p := QuizParams(subject.value, difficulty.value, Min(requested, |pool|));
        && params == Some(p)
        && o == Loaded(old(params) != Some(p), requested > |pool|)
        && (old(params) != Some(p) ==>
              && quiz == Some(Sample(bank, subject.value, difficulty.value, p.num, draws))
              && answers == Some(AllUnanswered(|quiz.value|)) && submitted == Some(false))
        && (old(params) == Some(p) ==>
              quiz == old(quiz) && answers == old(answers) && submitted == old(submitted))
        && (requested >= 0 ==> |quiz.value| == p.num)
    {
      if subject.None? || difficulty.None? {
        quiz, answers, submitted, params := None, None, None, None;
        return Cleared;
      }
      var subj, d := subject.value, difficulty.value;
      if Lower(subj) !in bank {
        return UnknownSubject;
      }
      var pool := Pool(bank, subj, d);
      if |pool| == 0 {
        quiz, params := Some([]), None;
        return NoQuestions;
      }
      var num := if requested > |pool| then |pool| else requested;
      var rebuild := params.None? || params.value.subject != subj || params.value.difficulty != d || params.value.num != num;
      if rebuild {
        Rebuild(subj, d, num, draws);
      }
      o := Loaded(rebuild, requested > |pool|);
    }

    /** Records a choice for question idx; the radio offers only that question's options and is disabled after submission. */
    method Answer(idx: int, choice: string) returns (recorded: bool)
      modifies this
      ensures recorded == (&& old(quiz).Some? && old(answers).Some? && old(submitted) == Some(false)
                           && 0 <= idx < |old(quiz).value| && idx < |old(answers).value|
                           && choice in old(quiz).value[idx].options)
      ensures recorded ==> answers == Some(old(answers).value[idx := Some(choice)])
      ensures !recorded ==> answers == old(answers)
      ensures params == old(params) && quiz == old(quiz) && submitted == old(submitted)
      ensures results == old(results) && score == old(score) && otherKeys == old(otherKeys)
      ensures old(Valid()) ==> Valid()
    {
      recorded := quiz.Some? && answers.Some? && submitted == Some(false)
                  && 0 <= idx < |quiz.value| && idx < |answers.value|
                  && choice in quiz.value[idx].options;
      if recorded {
        answers := Some(answers.value[idx := Some(choice)]);
      }
    }

    /** The submit button: enabled only when every question is attempted and there is at least one; it also sets the "rerun" key. */
    method Submit() returns (ok: bool)
      modifies this
      ensures ok == (&& old(quiz).Some? && old(answers).Some? && old(submitted) == Some(false)
                     && |old(quiz).value| > 0 && Attempted(old(answers).value) == |old(quiz).value|)
      ensures ok ==> && submitted == Some(true)
                     && results == Some(Grade(old(quiz).value, old(answers).value))
                     && score == Some(Score(CorrectCount(results.value), |old(quiz).value|))
                     && score.value.correct <= score.value.total
                     && otherKeys == old(otherKeys) + {"rerun"}
      ensures !ok ==> submitted == old(submitted) && results == old(results) && score == old(score) && otherKeys == old(otherKeys)
      ensures params == old(params) && quiz == old(quiz) && answers == old(answers)
      ensures old(Valid()) ==> Valid()
    {
      ok := quiz.Some? && answers.Some? && submitted == Some(false)
            && |quiz.value| > 0 && Attempted(answers.value) == |quiz.value|;
      if ok {
        submitted := Some(true);
        var rows, correct := ScoreAnswers(quiz.value, answers.value);
        results := Some(rows);
        score := Some(Score(correct, |quiz.value|));
        otherKeys := otherKeys + {"rerun"};
      }
    }

    /** "Start Another Quiz", shown once a loaded quiz is submitted: pops the quiz keys and the marker keys. */
    method Restart() returns (done: bool)
      modifies this
      ensures done == (old(submitted) == Some(true) && old(quiz).Some?)
      ensures done ==> && params.None? && quiz.None? && answers.None? && submitted.None?
                       && results.None? && score.None?
                       && otherKeys == set k | k in old(otherKeys) && !IsMarkerKey(k)
      ensures !done ==> && params == old(params) && quiz == old(quiz) && answers == old(answers)
                        && submitted == old(submitted) && results == old(results) && score == old(score)
                        && otherKeys == old(otherKeys)
      ensures old(Valid()) ==> Valid()
    {
      done := submitted == Some(true) && quiz.Some?;
      if done {
        params, quiz, answers, submitted, results, score := None, None, None, None, None, None;
        otherKeys := set k | k in otherKeys && !IsMarkerKey(k);
      }
    }
  }

  /** In a consistent session with recorded parameters, the submit gate opens exactly when every slot is answered. */
  lemma SubmitGate(quiz: seq<RawQuestion>, answers: seq<Option<string>>)
    requires |answers| == |quiz|
    ensures (|quiz| > 0 && Attempted(answers) == |quiz|) <==> (|quiz| > 0 && forall i :: 0 <= i < |answers| ==> answers[i].Some?)
    ensures |quiz| - Attempted(answers) >= 0
  {
    AttemptedCount(answers);
  }

  // ---------------------------------------------------------------------------
  // The two defects of the selector handler, and the corrected handler on the same steps

  /** Choose a quiz, set the difficulty to "None", choose the same quiz again: the popped quiz is read. */
  method ReturnAfterClearAsWritten(bank: Bank, subject: string, d: Difficulty, requested: int, draws: nat -> int)
    returns (o: SelectOutcome)
    requires Lower(subject) in bank && Pool(bank, subject, d) != []
    ensures o == MissingQuiz
  {
    var s := new Session(bank, {});
    var first := s.SelectParametersAsWritten(Some(subject), Some(d), requested, draws);
    var cleared := s.SelectParametersAsWritten(Some(subject), None, requested, draws);
    o := s.SelectParametersAsWritten(Some(subject), Some(d), requested, draws);
  }

  method ReturnAfterClearCorrected(bank: Bank, subject: string, d: Difficulty, requested: int, draws: nat -> int)
    returns (o: SelectOutcome, shown: nat)
    requires Lower(subject) in bank && Pool(bank, subject, d) != []
    requires requested >= 1
    ensures o == Loaded(true, requested > |Pool(bank, subject, d)|)
    ensures shown == Min(requested, |Pool(bank, subject, d)|) && shown >= 1
  {
    var s := new Session(bank, {});
    var first := s.SelectParameters(Some(subject), Some(d), requested, draws);
    var cleared := s.SelectParameters(Some(subject), None, requested, draws);
    o := s.SelectParameters(Some(subject), Some(d), requested, draws);
    shown := |s.quiz.value|;
  }

  /** Choose a quiz, switch to a choice with no questions, switch back: an empty quiz that cannot be submitted. */
  method ReturnAfterEmptyPoolAsWritten(bank: Bank, s1: string, d1: Difficulty, s2: string, d2: Difficulty, requested: int, draws: nat -> int)
    returns (o: SelectOutcome, shown: nat, canSubmit: bool)
    requires Lower(s1) in bank && Pool(bank, s1, d1) != []
    requires Lower(s2) in bank && Pool(bank, s2, d2) == []
    requires requested >= 1
    ensures o == Loaded(false, requested > |Pool(bank, s1, d1)|)
    ensures shown == 0 && !canSubmit
  {
    var s := new Session(bank, {});
    var first := s.SelectParametersAsWritten(Some(s1), Some(d1), requested, draws);
    var empty := s.SelectParametersAsWritten(Some(s2), Some(d2), requested, draws);
    o := s.SelectParametersAsWritten(Some(s1), Some(d1), requested, draws);
    shown := |s.quiz.value|;
    canSubmit := s.Submit();
  }

  method ReturnAfterEmptyPoolCorrected(bank: Bank, s1: string, d1: Difficulty, s2: string, d2: Difficulty, requested: int, draws: nat -> int)
    returns (o: SelectOutcome, shown: nat)
    requires Lower(s1) in bank && Pool(bank, s1, d1) != []
    requires Lower(s2) in bank && Pool(bank, s2, d2) == []
    requires requested >= 1
    ensures o == Loaded(true, requested > |Pool(bank, s1, d1)|)
    ensures shown == Min(requested, |Pool(bank, s1, d1)|) && shown >= 1
  {
    var s := new Session(bank, {});
    var first := s.SelectParameters(Some(s1), Some(d1), requested, draws);
    var empty := s.SelectParameters(Some(s2), Some(d2), requested, draws);
    o := s.SelectParameters(Some(s1), Some(d1), requested, draws);
    shown := |s.quiz.value|;
  }
}
