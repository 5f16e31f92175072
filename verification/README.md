# IELTS listening quiz scoring, modelled in Dafny

The model covers two pages of an IELTS listening quiz repository. Each page
loads an exam (a JSON object whose "Part …" entries hold question lists), renders form
widgets, and on submit grades every question of every "Part" entry, counts
correct, incorrect and unanswered answers, and reports a band score from 0
to 9 with a skill-level description. This project models the scoring core
of both pages:

- `strings.dfy` (module `Strings`): the string handling both pages apply
  before comparing, that is `str.strip()`, `str.lower()` and
  `s.split(')')[0]`, over ASCII. The functions carry their bounds. Lemmas
  characterise them: strip removes exactly the surrounding whitespace,
  lowering is idempotent, and the cut before `)` is the longest prefix
  without one.
- `exam.dfy` (module `Exam`): the exam and answer data as values. Question
  shapes are `Diagram`, `Matching` and `Standard`. Answers are `None`, a
  string, a list or a dict. The Python exceptions a malformed shape raises
  (`KeyError`, `AttributeError`) become a `Result`.
- `band.dfy` (module `Band`): `calculate_band_score` and
  `get_band_description`. Both pages define them identically
  (2ndexam.py:9-48 and app2.py:9-48), so they are modelled once.
- `second_exam.dfy` (module `SecondExam`): the submit handler of
  2ndexam.py.
  - Diagram labels are graded one by one.
  - A multiple-answer question compares sets of option letters.
  - A single answer is cut before its first `)`.
  - `total_questions` counts questions and `incorrect` is derived by
    subtraction.
  - The nested loops are methods (`Grade`, `GradeQuestions`, `GradeStep`,
    `TallyLabels`), each proved equal to a prefix fold (`GradeAll`,
    `DiagramTally`). Counting lemmas are proved about that fold.
- `app2.py` is modelled in `app2.dfy` (module `App2`).
  - A diagram or matching question is graded as a whole, by comparing the
    stored dict with the key dict.
  - Every other question compares `strip().lower()` forms.
  - The total is the sum of the three counters.
  - The loops are methods proved equal to the fold `GradeAll`.

The model follows the code as written; in particular:

- app2.py grades diagrams and matchings all-or-nothing, not per label or
  per pair.
- 2ndexam.py counts a diagram once in the total (see Findings).
- 2ndexam.py decides "unanswered" on the raw stripped answer. So an answer
  of just `)` is judged: it is incorrect against a non-blank key such as
  "b", and correct against a missing or whitespace-only key, whose
  compared form is also empty (`SecondExam.BareParenIsJudged`).
- The matching answer key of app2.py reads only the apartment/person and
  facility/work field names (app2.py:139), while the page shows items
  under four synonyms each (app2.py:102-103). As written, a question of
  strategy or feature items (with any right side) is never graded correct
  (`App2.MatchingSynonymsNeverCorrect`). It is modelled as written.

## Model

| member | source | states |
|---|---|---|
| Band.BandScore | 2ndexam.py:9-32 | band in 0..9; 0 for no questions; the band reached is the highest whose inclusive threshold (10·band − 5 percent) the score meets |
| Band.BandScoreMonotone | 2ndexam.py:12-32 | for a fixed total, more correct answers never lower the band |
| Band.FullMarks | 2ndexam.py:12-14 | a correct count at or above a positive total, which 2ndexam.py can produce, gives band 9 |
| Band.SeventeenOfTwenty | 2ndexam.py:10-16 | 17 of 20 is band 9, 16 of 20 is band 8, 0 questions is band 0 |
| Band.BandDescription | 2ndexam.py:35-48 | a score in 0..9 gets its own table entry, and exactly those scores do; every other integer gets the "Unknown" fallback |
| Band.Rate | 2ndexam.py:153-155 | the band shown is calculate_band_score of correct over total, and its descriptor is that band's table entry, never the fallback |
| Strings.StripSpec | 2ndexam.py:113 | strip() returns the middle slice; everything cut is whitespace and the result has none at either end |
| Strings.StripBlankIff | 2ndexam.py:144 | a stripped string is empty exactly when the string is whitespace only |
| Strings.LowerSpec | 2ndexam.py:112 | lower() leaves no ASCII capital, keeps whitespace and `)` in place, and is idempotent |
| Strings.NormTrimmed | 2ndexam.py:112 | strip().lower() leaves no surrounding whitespace |
| Strings.NormBlankIff | 2ndexam.py:113 | strip().lower() is empty exactly when the string is whitespace only |
| Strings.NormIdempotent | 2ndexam.py:112 | normalising twice is normalising once |
| Strings.NormKeepsParenFree | 2ndexam.py:141 | normalisation never introduces a `)` |
| Strings.NormKeepsParen | app2.py:152 | normalisation keeps a `)` |
| Strings.BeforeParenSpec | 2ndexam.py:128 | split(')')[0] is the longest prefix without `)`, followed by `)` unless it is the whole string |
| Strings.BeforeParenOfOption | 2ndexam.py:141 | cutting "letter) text" before its first `)` gives the letter back |
| Exam.PartQuestionsAppend | 2ndexam.py:102-104 | the questions visited over two runs of entries are those of the first run followed by those of the second |
| SecondExam.LabelStatusSpec | 2ndexam.py:110-122 | a label is unanswered iff its answer is missing, not a string, or blank; correct iff it equals the correct label up to case and surrounding whitespace; a blank correct label is never matched |
| SecondExam.DiagramTallyRows | 2ndexam.py:110-122 | a diagram adds one feedback entry per label, in label order, each holding that label's verdict |
| SecondExam.DiagramTallyCounts | 2ndexam.py:110-122 | a diagram's correct and unanswered counters equal the number of its feedback entries with that status, and it adds nothing to the total |
| SecondExam.CountLabel | 2ndexam.py:115-122 | one label appends its feedback entry and moves only the counter of its status (none when incorrect) |
| SecondExam.TallyLabels | 2ndexam.py:110-122 | the label loop leaves the counters and feedback list equal to the starting ones plus the diagram's fold |
| SecondExam.OptionLetterSpec | 2ndexam.py:128 | an option letter holds no `)` and no surrounding whitespace, and the letter of "letter) text" is the normalised letter |
| SecondExam.SelectionPrefixSet | 2ndexam.py:128 | the letters kept from a selection are exactly the letters of its entries that contain `)` |
| SecondExam.ChoicesStatusSpec | 2ndexam.py:125-137 | unanswered iff no selection holds a `)`; correct iff the set of their letters equals the set of normalised key entries |
| SecondExam.ChoicesOrderIrrelevant | 2ndexam.py:133 | selections with the same entries get the same verdict, whatever their order or repetitions |
| SecondExam.ChoiceTextSpec | 2ndexam.py:142 | the compared form of a single answer has no `)` and no surrounding whitespace, and is the normalised answer when it holds no `)` |
| SecondExam.TextStatusSpec | 2ndexam.py:140-151 | a single answer raises exactly when the key is a list; otherwise it is unanswered exactly when blank, and correct exactly when not blank and its compared form (text before the first ')', stripped and lowered) equals the stripped, lowered key, or the empty string when the key is absent |
| SecondExam.OptionMatchesLetter | 2ndexam.py:140-149 | an answer "letter) text" is correct against a key equal to the letter up to case and whitespace, a blank letter included |
| SecondExam.CentralLibrary | 2ndexam.py:140-149 | "B) Central Library" is correct against the key "b" |
| SecondExam.BareParenIsJudged | 2ndexam.py:143-149 | the answer ")" is not unanswered, although its compared form is empty; it is incorrect against the key "b" and correct against a missing or whitespace-only key |
| SecondExam.ErrorIsFinal | 2ndexam.py:101-151 | once an exception is raised, grading more questions leaves the outcome unchanged |
| SecondExam.GradeQuestionCounts | 2ndexam.py:104-151 | one question adds exactly 1 to total_questions, at most one feedback entry per unit, and counters that count their entries |
| SecondExam.GradeAllCounts | 2ndexam.py:101-151 | over a pass, total_questions is the number of questions, and correct plus unanswered never exceeds the number of units |
| SecondExam.GradeStep | 2ndexam.py:104-151 | the question loop body gives exactly the fold's next step: diagram labels, a list or string verdict, or the exception |
| SecondExam.GradeAnswer | 2ndexam.py:125-151 | once the verdict is known: an exception propagates, an ungraded answer moves only the total, a judged one appends its entry and counter |
| SecondExam.GradeQuestions | 2ndexam.py:103-151 | the loop over one entry's questions continues the fold over the questions before it |
| SecondExam.Grade | 2ndexam.py:101-151 | the submit loops return the fold over the questions of the "Part" entries in order, or its first exception |
| SecondExam.Summarize | 2ndexam.py:153-160 | as written, the correct and unanswered counts shown are the tally's, incorrect is total_questions minus both, so the three add up to total_questions; the band is that of correct over total_questions, shown with its descriptor |
| SecondExam.TwoLabelsCorrect | 2ndexam.py:110-120 | answers "valve" and " Pump" are correct for labels "valve" and "pump" |
| SecondExam.AllLabelsCorrect | 2ndexam.py:110-120 | a diagram whose labels are all correct adds one correct per label and one to the total |
| SecondExam.DiagramTallyAllCorrect | 2ndexam.py:110-120 | labels all answered correctly give as many correct as labels and no unanswered |
| SecondExam.OneQuestionExam | 2ndexam.py:101-104 | a "Part" entry holding one question is graded as that question alone, including the exception it raises |
| SecondExam.DiagramOvercount | 2ndexam.py:104-160 | as written, one diagram of n ≥ 2 correct labels reports n correct of 1 question, 1 − n incorrect, and band 9 |
| SecondExam.ReportByUnits | 2ndexam.py:153-160 | corrected: the correct and unanswered counts are those of the grading pass, and it raises exactly when the pass does; counting each label as a unit, the counts add up to the units, none is negative, and correct never exceeds the total; the band is that of correct over the units, shown with its descriptor |
| SecondExam.DiagramByUnits | 2ndexam.py:110-160 | corrected: the same diagram reports n correct of n units, none incorrect, band 9 |
| App2.DiagramVerdictSpec | app2.py:129-137 | a diagram is correct iff the stored dict (a missing one reads as {}) has exactly the label ids as keys, each holding the correct label of the last label with that id; otherwise unanswered iff the stored value is falsy; with nothing stored it is unanswered, or correct when it has no labels |
| App2.HoldsLabelsIff | app2.py:130 | the dict comprehension over the labels is the one dict whose keys are the label ids, each holding the last such label's correct label |
| App2.LabelMapEmpty | app2.py:130 | the diagram's answer key is empty exactly when the diagram has no labels |
| App2.MissingMatchingVerdict | app2.py:138-146 | with nothing stored, a matching question is unanswered, or correct when it has no items |
| App2.PairMapSpec | app2.py:130 | a dict comprehension has every element's left side as a key, and each key holds the right side of the last element with that left side |
| App2.LabelMapSpec | app2.py:130 | the diagram key maps each label id to the correct label of the last label with that id, and has no other keys |
| App2.SynonymsMissKey | app2.py:102-139 | for items named by strategy or feature and by neither apartment nor person, the pairs shown are not empty and differ from the answer key |
| App2.MatchingSynonymsNeverCorrect | app2.py:138-146 | as written, a matching question of strategy or feature items left at the options shown is graded incorrect |
| App2.ShownMatchesAgree | app2.py:102-139 | for apartment/person and facility/work items, the pairs shown are the answer key |
| App2.MatchingShownCorrect | app2.py:138-146 | such a matching question left at the options shown is graded correct |
| App2.TextVerdictSpec | app2.py:147-155 | a string answer is unanswered iff blank, and correct iff it equals the key after strip().lower() |
| App2.TextVerdictErrors | app2.py:148-152 | a missing "answer" raises KeyError whatever the answer; otherwise only a list or dict answer, or a list key, raises, and no stored answer (None) is unanswered |
| App2.ParenAnswerNeverMatches | app2.py:152 | with no cut before `)`, an answer holding `)` never matches a key without one |
| App2.StepSum | app2.py:132-155 | a graded question raises the sum of the three counters by exactly one |
| App2.TotalsConserve | app2.py:132-157 | over any run of verdicts that raises nothing, the three counters add up to the number of verdicts |
| App2.CountsConserve | app2.py:125-157 | after a pass, correct + incorrect + unanswered is the number of questions graded |
| App2.ErrorIsFinal | app2.py:125-155 | once an exception is raised, grading more questions leaves the outcome unchanged |
| App2.CountVerdict | app2.py:132-155 | the loop body gives the fold's next step: an exception propagates, a status moves its own counter |
| App2.GradeQuestions | app2.py:127-155 | the loop over one entry's questions continues the fold over the questions before it |
| App2.Grade | app2.py:125-155 | the submit loops return the fold over the questions of the "Part" entries in order, or its first exception |
| App2.Summarize | app2.py:157-159 | the total is the sum of the counters, so none is negative and correct never exceeds it; the band is that of correct over total, shown with its descriptor |
| App2.ReportCountsQuestions | app2.py:125-157 | a completed pass reports as many questions as the "Part" entries hold |

## Left out

- Band.BandScore: compares the percentage exactly, as `100 * correct >= p * total`. Python computes `(correct / total) * 100` in floating point, and rounding at a threshold is not modelled.
- Strings.Lower, Strings.Strip: ASCII only. Python's Unicode case mapping and Unicode whitespace are not modelled.
- All Streamlit calls are left out, as user interface: title, audio, image, widgets, button, and the results and feedback display.
- The rendering loops that fill `user_answers` are left out, so the answer map is an input. Only the item fields the matching page shows (app2.py:102-103) are modelled, in `App2.ShownMatches`, where the pairs shown assume each dropdown keeps the one option it offers.
- Loading the JSON file is left out as I/O. The exam is the list of entries of the first JSON object, in its key order.
- Malformed exam data beyond the question fields is left out:
  - a "Part" entry without "questions";
  - a diagram without "labels";
  - a label without "id" or "correct_label";
  - values of a shape the model does not give the field. The model's shapes are:
    - a stored user answer is None, a string, a list of strings or a dict;
    - "answer" is a string, a list of strings or absent, never an object or a number;
    - "question" is a string or absent;
    - "id", "correct_label" and every field of a "matches" item are strings;
  - a question carrying both "matches" and "answer", which the question datatype cannot hold. 2ndexam.py ignores "matches", so for that page such a question can be given as `Standard`; given as `Matching`, the model reads its key as missing (`SecondExam.KeyOf`), whereas 2ndexam.py reads the answer.
- The fields of a feedback entry are reduced to the subject and the status. The user and correct answers it also shows are left out.

## Findings

| source | as written | input that shows it | evidently intended | confidence | as-written member | corrected member |
|---|---|---|---|---|---|---|
| 2ndexam.py:104-160 | `total_questions` counts a diagram once, but `correct_count` and `unanswered_count` count each of its labels; the incorrect count is their difference | one "Part 1" holding one diagram with labels X1 "valve" and X2 "pump", answered X1 "valve" and X2 " Pump": 2 correct of 1 question, −1 incorrect, band 9 | count every label as a unit in the total, so the counts add up and none is negative | not executed | SecondExam.DiagramOvercount | SecondExam.ReportByUnits |
