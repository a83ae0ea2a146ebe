# AI Study Assistant: a verified model of its logic

The application is a single Streamlit script (`main.py`) with three tabs:

- a **study planner**: it checks typed subject names against an allow-list, then splits a daily study budget over the subjects in proportion to a difficulty weight (Easy 1, Medium 2, Hard 3), for every day up to the exam, rendering each share as "h hrs m mins";
- a **question generator for uploaded notes**: the text is cut into sentences at ".", the long ones are shuffled, and the first twenty become five multiple-choice, five very-short, five short and five long questions, each built from its sentence's first five words;
- a **quiz**:
  - questions are sampled without repeats from a fixed bank indexed by subject and difficulty;
  - answers are recorded per question until submission;
  - submission is allowed only once every question is attempted, and it grades the answers once;
  - the score falls into a feedback band, and the wrongly answered questions suggest revision topics;
  - restart forgets the quiz.

The Dafny modules follow these parts:

| module | file | contents |
|---|---|---|
| `Common` | Common.dfy | `Option`, the difficulty labels and their weights, `Min`, mapping over a sequence |
| `Strings` | Strings.dfy | the string builtins the logic relies on: `split()`, `split(sep)`, `strip()`, `lower()`, `capitalize()`, `join`, `str(n)` |
| `StudyPlanner` | Planner.dfy | `format_time`, the subject entry loop, `generate_study_plan` with its nested loops |
| `QuestionBank` | QuestionBank.dfy | the two record shapes of the bank, `get_available_questions`, `random.shuffle` as an in-place array algorithm, `sample_questions` |
| `QuizSession` | QuizSession.dfy | the grading loop, score bands, revision topics, and the quiz tab's session as a class whose methods update its fields |
| `TextQuestions` | TextQuestions.dfy | `shorten`, the sentence filter, and the bucketing loop of `generate_questions_from_text` |

The following become inputs:

- The current date: the planner receives the number of days left.
- The random numbers: `draws(k)` is the k-th number `randbelow` returns while shuffling. Every permutation can therefore be reached.
- The question bank: an arbitrary immutable map from lower-case subject to difficulty to records.

Session keys that the quiz tab pops are `Option` fields of the `Session` class, with `None` standing for an absent key. The other session keys are kept by name in `otherKeys`.

`format_time` always writes the plural "hrs": one and a half hours is "1 hrs 30 mins" (`StudyPlanner.EnglishShare`).

## Model

| member | source | states |
|---|---|---|
| Common.Weight | main.py:70 | the weights are 1, 2, 3, with Easy the only 1 and Hard the only 3 |
| Strings.Lower | main.py:523 | `lower()` keeps the length, leaves no upper-case letter, keeps whitespace where it was, and returns an already lower-case string unchanged |
| Strings.LowerIsLower | main.py:523 | a lower-cased string has no upper-case letter, and lower-casing is idempotent |
| Strings.CapitalizeLower | main.py:530 | `capitalize()` changes only case: lower-casing its result gives the lower-cased input, its first character is not a lower-case letter and the rest is lower case |
| Strings.CapitalizeSameSpaces | main.py:572 | `capitalize()` keeps whitespace where it was |
| Strings.LowerCapitalize | main.py:530 | lower-casing a capitalised lower-case name gives the name back |
| Strings.Strip | main.py:523 | `strip()` returns the substring of its argument that is left after removing the whitespace before and after it; that substring neither starts nor ends with whitespace |
| Strings.StripEmpty | main.py:526 | a stripped name is empty exactly when the typed name is all whitespace |
| Strings.StripKeepsOut | main.py:576 | stripping introduces no character that was not there |
| Strings.Words | main.py:591 | every piece `split()` returns is non-empty and whitespace-free |
| Strings.WordsOfJoin | main.py:591 | splitting a single-space join of words returns exactly those words |
| Strings.WordsCountSameSpaces | main.py:571-572 | strings with whitespace at the same positions split into the same number of words |
| Strings.WordsOfLower | main.py:571-572 | the words of a lower-cased string are the lower-cased words of the string |
| Strings.WordWindow | main.py:590-591 | joining `split()[lo:hi]` gives a string whose words are exactly that slice |
| Strings.Join | main.py:591 | `sep.join(ws)`; `Strings.WordsOfJoin` and `Strings.JoinSplitOn` state what splitting its result gives back |
| Strings.SplitOn | main.py:576 | `split(sep)` yields at least one piece, none containing the separator |
| Strings.JoinSplitOn | main.py:576 | joining the pieces of `split(sep)` with the separator restores the text |
| Strings.SplitOnJoin | main.py:576 | splitting a join of separator-free pieces returns the pieces |
| Strings.NatToString | main.py:57 | `str(n)` is a non-empty run of digits |
| Strings.ParseNatToString | main.py:57 | reading back the digits of `str(n)` gives n |
| Strings.IntToString | main.py:57 | `str(i)` is non-empty and whitespace-free, and for i >= 0 it is the digit string of i |
| StudyPlanner.Trunc | main.py:53 | `int(x)` truncates toward zero: the greatest integer not above a non-negative x |
| StudyPlanner.RoundHalfEven | main.py:54 | `round` is within one half of its argument, and an exact tie goes to the even integer |
| StudyPlanner.RoundHalfEvenUnique | main.py:54 | those two properties determine the rounded value |
| StudyPlanner.MinutesInRange | main.py:53-54 | for x >= 0 the hours are floor(x), and the minutes are the nearest whole minute of the fraction, in 0..60 |
| StudyPlanner.FormatTime | main.py:51-61 | `format_time`; its output shapes, its round trip and its lack of carry are the lemmas `FormatTimeTokens`, `FormatTimeRoundTrip` and `FormatTimeNoCarry` |
| StudyPlanner.FormatTimeTokens | main.py:56-61 | the output is "h hrs m mins", "h hrs" or "m mins", chosen by which of hours and minutes are positive |
| StudyPlanner.FormatTimeRoundTrip | main.py:51-61 | the rendered text determines the hours and the rounded minutes |
| StudyPlanner.FormatTimeNoCarry | main.py:54-57 | 1 h 59.5 min renders as "1 hrs 60 mins": the minutes are not carried |
| StudyPlanner.FormatTimeZero | main.py:60-61 | zero renders as "0 mins" |
| StudyPlanner.FormatTimeWholeHours | main.py:58-59 | a whole positive number of hours renders without a minutes part |
| StudyPlanner.CheckEntry | main.py:523-530 | the check of one form row; its verdict is characterised by `StudyPlanner.CheckEntryVerdict` |
| StudyPlanner.CheckEntryVerdict | main.py:523-530 | a row is skipped exactly when its stripped name is empty; it is accepted exactly when its stripped, lower-cased name is listed, as that name capitalised with the row's difficulty; otherwise that stripped, lower-cased name is the one reported |
| StudyPlanner.CollectSubjects | main.py:520-530 | the entry loop collects the accepted subjects and the reported names of the rows, in row order |
| StudyPlanner.CollectedAreChecked | main.py:44-49 | every collected subject is on the allow-list and every reported name is not |
| StudyPlanner.ListedAreCollected | main.py:520-530 | every row whose stripped, lower-cased name is listed is collected, capitalised, with its difficulty; every non-blank unlisted row is reported under its stripped, lower-cased name |
| StudyPlanner.AcceptedOfAppend | main.py:520-530 | the subjects and the reports of two runs of rows concatenate |
| StudyPlanner.CollectAppend | main.py:520-530 | each row is validated on its own: a blank or invalid row does not affect what the other rows contribute |
| StudyPlanner.TotalWeight | main.py:71 | the total weight lies between the number of subjects and three times it |
| StudyPlanner.Share | main.py:77 | the exact time of a subject times the total weight is `daily_hours` times its weight; it is non-negative for a non-negative budget, and at most `daily_hours` when its weight is at most the total weight |
| StudyPlanner.GenerateStudyPlan | main.py:63-81 | a non-positive days-left gives only the past-date error; otherwise there is one row per day, day offsets 1 to days-left in order, each with the same allocations |
| StudyPlanner.AllocationRow | main.py:76-78 | the dictionary the inner loop builds; its keys and values are `StudyPlanner.AllocationRowKeys` and `StudyPlanner.AllocationRowValue` |
| StudyPlanner.DayAllocations | main.py:71-78 | the allocations every day of the plan carries, over all subjects with their total weight |
| StudyPlanner.AllocationRowKeys | main.py:76-78 | a day's keys are exactly the distinct subject names, so a repeated name is overwritten |
| StudyPlanner.AllocationRowValue | main.py:76-78 | each name carries `format_time` of the exact share `daily_hours*w/total_weight` of its last occurrence |
| StudyPlanner.ShareTotalIsProportional | main.py:77 | the exact shares of a prefix add up to `daily_hours` times its weight over the total weight |
| StudyPlanner.SharesSumToDailyHours | main.py:71-78 | the exact shares of a non-empty subject list add up to `daily_hours` |
| StudyPlanner.SharesProportionalToWeights | main.py:77 | shares are proportional to weights |
| StudyPlanner.SingleSubjectGetsAll | main.py:71-78 | a single subject receives the whole daily budget |
| StudyPlanner.MathsShare | main.py:77-78 | weight 3 of 4 at 6 hours renders as "4 hrs 30 mins" |
| StudyPlanner.EnglishShare | main.py:77-78 | weight 1 of 4 at 6 hours renders as "1 hrs 30 mins" |
| StudyPlanner.TwoSubjectExample | main.py:70-78 | Maths (Hard) with English (Easy) at 6 hours a day gives 4 hrs 30 mins and 1 hrs 30 mins |
| QuestionBank.CorrectAnswer | main.py:814 | the correct answer of a record under the falsy-empty fallback from short to long key; `QuestionBank.ShapesReadAlike` states that both shapes give the same answer |
| QuestionBank.PromptText | main.py:817 | the prompt of a record under the same fallback; `QuestionBank.ShapesReadAlike` states that both shapes give the same prompt |
| QuestionBank.ShapesReadAlike | main.py:814-817 | a short-keys and a long-keys record with the same non-empty prompt and answer give the same prompt, answer and options to the grading |
| QuestionBank.Pool | main.py:479-483 | `get_available_questions`: the questions for a subject and difficulty; `QuestionBank.PoolIgnoresCase` and `QuestionBank.SampleQuestions` state its properties |
| QuestionBank.PoolIgnoresCase | main.py:481 | subjects that lower-case alike get the same pool |
| QuestionBank.SwapPermutes | main.py:492 | one swap of the shuffle only reorders |
| QuestionBank.Partner | main.py:492 | the position swapped with position i is at most i |
| QuestionBank.ShuffleFromPermutes | main.py:492 | the swaps from position i down keep length and elements |
| QuestionBank.ShuffledPermutes | main.py:492 | a shuffled list has the same length and elements as the original |
| QuestionBank.Shuffled | main.py:492 | the order `random.shuffle` leaves for given draws; `QuestionBank.ShuffledPermutes` states it is a permutation |
| QuestionBank.Shuffle | main.py:492 | the in-place shuffle leaves the array holding the shuffled contents of its old value |
| QuestionBank.Sample | main.py:485-495 | the questions `sample_questions` returns for given draws; `QuestionBank.SampleWithinPool` and `QuestionBank.SampleNoRepeats` state their properties |
| QuestionBank.SampleQuestions | main.py:485-495 | an empty pool gives []; otherwise the first n of the shuffled copy, with exactly min(n, pool size) questions, never more copies than the pool holds |
| QuestionBank.SampleWithinPool | main.py:485-495 | every sample is a sub-multiset of the pool of size min(n, pool size) |
| QuestionBank.DistinctCounts | main.py:486 | a list without duplicates holds each element at most once |
| QuestionBank.CountsDistinct | main.py:486 | a list holding each element at most once has no duplicates |
| QuestionBank.SampleNoRepeats | main.py:486-495 | a pool without duplicates gives a sample without repeats |
| QuestionBank.SampleWholePool | main.py:493-494 | asking for at least the whole pool returns all of it, reordered |
| QuizSession.Attempted | main.py:800 | the attempted count is at most the number of slots |
| QuizSession.AttemptedCount | main.py:800 | at most every slot is attempted; all are exactly when none is None, and none is exactly when all are None |
| QuizSession.CorrectCount | main.py:820-821 | the number of correct rows is at most the number of rows |
| QuizSession.CorrectCountBounds | main.py:820-823 | the count of correct rows is at most the number of rows, and it reaches that exactly when every row is correct |
| QuizSession.ScoreAnswers | main.py:810-823 | the loop's rows are the grading of the quiz, and its count is the number of correct rows, at most the quiz size, equal to it exactly when every answer matches |
| QuizSession.GradeAllCorrect | main.py:812-821 | all questions count as correct exactly when each chosen answer equals the correct one |
| QuizSession.ScorePercent | main.py:831 | the percentage times the total is 100 times the correct count, and it is 0 for an empty quiz |
| QuizSession.BandOfPercent | main.py:848-854 | the feedback band chosen from the percentage |
| QuizSession.Classify | main.py:848-854 | the band decided on whole numbers; `QuizSession.ClassifyMatchesPercent` proves it equal to the band of the percentage |
| QuizSession.ClassifyMatchesPercent | main.py:831-854 | comparing `correct*100` with `70*total` and `50*total` picks the same band as the exact percentage |
| QuizSession.PercentInRange | main.py:831 | a score of at most the total lies between 0 and 100 percent |
| QuizSession.BandExamples | main.py:848-854 | 7, 5 and 3 of 10 fall in the three bands; a zero total gives 0 percent and the lowest band |
| QuizSession.Topic | main.py:843-844 | a revision topic consists of words 2 to 4 of the question text, at most three words |
| QuizSession.WrongTopics | main.py:833-858 | the set of topics of the wrongly answered questions; `QuizSession.WrongTopicsOfGrade` characterises it |
| QuizSession.WrongTopicsOfGrade | main.py:810-858 | after grading, a topic is suggested exactly when some question was answered, the answer differs from its correct answer, and its text yields the topic |
| QuizSession.PerfectScoreNoTopics | main.py:833-858 | a perfect score suggests no topics |
| QuizSession.Session.constructor | main.py:735-736 | a new session holds none of the quiz keys, so it is consistent, given other keys that do not reuse the quiz keys' names |
| QuizSession.Session.Valid | main.py:742-747 | the consistency every handler keeps: the keys kept by name never include the six quiz keys, recorded parameters come with a quiz of that size and one answer slot per question, and a submitted quiz carries its grading and score |
| QuizSession.Session.Rebuild | main.py:742-747 | a rebuild records the parameters, samples the quiz and resets every answer to None and submission to false |
| QuizSession.Session.SelectParametersAsWritten | main.py:703-749 | the selector handler as written, branch by branch, with the no-rebuild path reaching a missing quiz when the keys were popped |
| QuizSession.Session.SelectParameters | main.py:703-749 | the corrected handler: it keeps the session consistent and never reaches a missing quiz; it rebuilds exactly when the clamped choice differs from the recorded one, and otherwise leaves quiz and answers unchanged |
| QuizSession.Session.Answer | main.py:765-780 | a choice among the question's options is recorded only while not submitted; nothing else changes |
| QuizSession.Session.Submit | main.py:799-825 | submission happens exactly when the quiz is non-empty and fully attempted; it then stores the grading and a score of at most the total, and sets the "rerun" key; nothing else changes |
| QuizSession.Session.Restart | main.py:862-873 | restart forgets every quiz key and exactly the `marker_q` keys, keeping all other keys |
| QuizSession.SubmitGate | main.py:799-805 | the submit gate opens exactly when the quiz is non-empty and no answer is None |
| QuizSession.ReturnAfterClearAsWritten | main.py:703-749 | choosing a quiz, clearing a selector and choosing the same quiz again reaches the popped quiz |
| QuizSession.ReturnAfterClearCorrected | main.py:703-749 | with the correction the same steps load a fresh quiz of min(requested, pool size) questions |
| QuizSession.ReturnAfterEmptyPoolAsWritten | main.py:721-749 | visiting an empty pool and returning shows an empty quiz that cannot be submitted |
| QuizSession.ReturnAfterEmptyPoolCorrected | main.py:721-749 | with the correction the return loads a fresh quiz of min(requested, pool size) questions |
| TextQuestions.Shorten | main.py:570-572 | `shorten`; its words are stated by `TextQuestions.ShortenWords` |
| TextQuestions.ShortenWords | main.py:570-572 | `shorten` keeps min(5, n) words of an n-word question, and up to case they are its first five words |
| TextQuestions.LongOnes | main.py:576 | every piece the filter keeps is longer than 30 characters |
| TextQuestions.LongOnesSound | main.py:576 | every kept piece is one of the candidates |
| TextQuestions.LongOnesComplete | main.py:576 | every candidate longer than 30 characters is kept |
| TextQuestions.KeepLongSound | main.py:576 | every sentence is the stripped form of some piece |
| TextQuestions.KeepLongComplete | main.py:576 | every piece whose stripped form is longer than 30 characters yields a sentence |
| TextQuestions.Sentences | main.py:576 | the sentence list; `TextQuestions.SentenceShape` and `TextQuestions.SentenceKept` state which pieces it holds |
| TextQuestions.SentenceShape | main.py:576 | every sentence is longer than 30 characters, contains no ".", and neither starts nor ends with whitespace |
| TextQuestions.SentenceKept | main.py:576 | every long piece between full stops becomes a sentence |
| TextQuestions.Concept | main.py:590-591 | the concept of a sentence; `TextQuestions.ConceptWords` states its words |
| TextQuestions.ConceptWords | main.py:590-591 | a concept is the sentence's first five words, or all of them |
| TextQuestions.BucketGrow | main.py:593-611 | each step adds one question to the list whose range holds its position, and none to the others |
| TextQuestions.QuestionsOf | main.py:589-611 | the four lists built position by position: MCQs for 0-4, very-short for 5-9, short for 10-14 and long for 15-19 |
| TextQuestions.Built | main.py:589-611 | the lists after the first n loop steps over the sentences' concepts, one question added per step |
| TextQuestions.Generated | main.py:589-611 | the questions of a shuffled sentence list: the position-based lists over its first twenty concepts |
| TextQuestions.QuestionsFrom | main.py:589-611 | the loop over the first twenty sentences adds each one's question to the list its position selects |
| TextQuestions.BuiltIsQuestionsOf | main.py:589-611 | adding one question at a time yields, position by position, MCQs for 0-4, very-short for 5-9, short for 10-14 and long for 15-19 |
| TextQuestions.QuestionsFromSentences | main.py:577-611 | the generator shuffles the sentences and buckets the first twenty |
| TextQuestions.GenerateQuestionsFromText | main.py:574-613 | the generator's question set is the bucketing of the shuffled long sentences of the text |
| TextQuestions.GeneratedSizes | main.py:589-611 | at most twenty questions, at most five per kind, filled in the order MCQ, very short, short, long |
| TextQuestions.GeneratedCount | main.py:576-611 | the number of questions is min(20, number of long sentences) |
| TextQuestions.McqWellFormed | main.py:594-598 | every MCQ has four distinct options, and its answer is the first of them |

## Left out

- The Streamlit user interface: widgets, tabs, messages, balloons and reruns. Only the state the logic reads and writes is modelled; the "rerun" key the submit handler sets is kept among the other session keys.
- The radio-button marker workaround and its fallback branch: answering is a direct update of one slot. Restart's removal of the `marker_q` keys is modelled.
- The rendering of the quiz display loop: it prints each question's prompt and options.
- PDF, Excel and text extraction and export (FPDF, reportlab, PyPDF2, pandas). These are foreign libraries and I/O. The generator starts from the extracted text.
- The regular-expression cleaners `clean_question_text` and `clean_text`. They depend on Python's regex engine.
- The earlier `generate_questions_from_text` at main.py:97-115, which the tab-2 definition shadows and which nothing can call.
- The literal contents of the question bank. The bank is any immutable map.
- The date arithmetic and the `strftime` day labels. The planner receives the number of days left, and a row carries its day offset.
- Binary floating point. Shares and percentages are exact rationals, so a minute count that a float would round differently at an exact half is not captured. Score bands are decided on integers and proved equal to the exact percentage bands.
- Case mapping beyond ASCII letters, and Unicode properties other than Python's whitespace set.
- QuizSession.WrongTopics: a wrongly answered question whose text is None is skipped. The application would raise an error splitting None.
- The input widget's bounds on the daily hours (1..12) and on the number of subject rows are not modelled. The planner accepts any integer.
- `shorten` is defined but never called by the application. It is modelled on its own.

## Findings

| source | as written | input that shows it | evidently intended | confidence | as-written member | corrected member |
|---|---|---|---|---|---|---|
| main.py:703-712 | the "None" branch pops quiz3, answers3 and submitted3 but keeps quiz_params | choose a subject and difficulty with a non-empty pool, set the difficulty to "None", then choose the same difficulty again: no rebuild happens and main.py:749 reads the popped quiz3 | forgetting quiz_params together with the quiz, so that returning samples a new quiz | not executed | QuizSession.ReturnAfterClearAsWritten | QuizSession.ReturnAfterClearCorrected |
| main.py:721-725 | the empty-pool branch sets quiz3 to [] but keeps quiz_params | choose a quiz, switch to a subject and difficulty with no questions, then switch back: no rebuild, zero questions shown, and submission disabled | forgetting quiz_params when the quiz is emptied, so that returning samples a new quiz | not executed | QuizSession.ReturnAfterEmptyPoolAsWritten | QuizSession.ReturnAfterEmptyPoolCorrected |

The rest of the model uses the corrected handler, `QuizSession.Session.SelectParameters`. The handler as written, `QuizSession.Session.SelectParametersAsWritten`, is kept alongside it.
