/** The submit handler of the second exam page (2ndexam.py): diagram labels
    graded one by one, multiple-answer questions compared as sets of option
    letters, single answers cut at their first ')'. */
module SecondExam {
  import opened Strings
  import opened Exam
  import opened Band

  /** One entry of the feedback list: what was asked and how it was judged. */
  datatype Feedback = Feedback(subject: string, status: Status)

  /** correct_count, unanswered_count, total_questions and the feedback list. */
  datatype Tally = Tally(correct: nat, unanswered: nat, total: nat, feedback: seq<Feedback>) {
    function Plus(t: Tally): Tally {
      Tally(correct + t.correct, unanswered + t.unanswered, total + t.total, feedback + t.feedback)
    }
  }

  const Zero := Tally(0, 0, 0, [])

  /** What visiting one question adds before it is judged: total_questions += 1. */
  const Visited := Tally(0, 0, 1, [])

  /** One feedback entry together with the counter it moves; an Incorrect
      verdict moves no counter. */
  function Row(subject: string, status: Status): Tally {
    Tally(if status == Correct then 1 else 0, if status == Unanswered then 1 else 0, 0,
          [Feedback(subject, status)])
  }

  /** The number of feedback entries with a given status. */
  function CountOf(feedback: seq<Feedback>, status: Status): nat {
    if feedback == [] then 0
    else CountOf(feedback[..|feedback| - 1], status) + (if feedback[|feedback| - 1].status == status then 1 else 0)
  }

  // Diagram labels

  /** The user's label for a diagram point, stripped and lowered; "" when it is
      missing or not a string. */
  function LabelAnswer(answers: map<string, Answer>, id: string): string {
    match Lookup(answers, id)
    case Text(s) => Norm(s)
    case _ => ""
  }

  /** The verdict on one diagram label. */
  function LabelStatus(point: Label, answers: map<string, Answer>): Status {
    var user := LabelAnswer(answers, point.id);
    if user == [] then Unanswered else if user == Norm(point.correctLabel) then Correct else Incorrect
  }

  /** A label is unanswered exactly when its answer is missing, not a string,
      or whitespace only; it is correct exactly when the answer and the
      correct label agree up to case and surrounding whitespace, and a
      whitespace-only correct label is never matched. */
  lemma LabelStatusSpec(point: Label, answers: map<string, Answer>)
    ensures var user := Lookup(answers, point.id);
      && (LabelStatus(point, answers) == Unanswered <==> !user.Text? || AllSpace(user.s))
      && (LabelStatus(point, answers) == Correct <==> user.Text? && !AllSpace(user.s) && Norm(user.s) == Norm(point.correctLabel))
      && (LabelStatus(point, answers) == Correct ==> !AllSpace(point.correctLabel))
  {
    var user := Lookup(answers, point.id);
    if user.Text? {
      NormBlankIff(user.s);
    }
    NormBlankIff(point.correctLabel);
  }

  /** What the labels of one diagram add, one feedback entry per label in order. */
  function DiagramTally(labels: seq<Label>, answers: map<string, Answer>): Tally {
    if labels == [] then Zero
    else
      var point := labels[|labels| - 1];
      DiagramTally(labels[..|labels| - 1], answers).Plus(Row("Label for " + point.id, LabelStatus(point, answers)))
  }

  // Multiple-answer questions

  /** a.split(')')[0].strip().lower(): the option letter of a selection "A) text". */
  function OptionLetter(a: string): string {
    Norm(BeforeParen(a))
  }

  /** An option letter holds no ')' and no surrounding whitespace, and the
      letter of "letter) text" is the normalised letter. */
  lemma OptionLetterSpec(a: string)
    ensures ')' !in OptionLetter(a) && Trimmed(OptionLetter(a))
    ensures forall letter, rest | a == letter + ")" + rest && ')' !in letter :: OptionLetter(a) == Norm(letter)
  {
    BeforeParenSpec(a);
    NormKeepsParenFree(BeforeParen(a));
    NormTrimmed(BeforeParen(a));
    forall letter, rest | a == letter + ")" + rest && ')' !in letter ensures OptionLetter(a) == Norm(letter) {
      BeforeParenOfOption(letter, rest);
    }
  }

  /** [a.split(')')[0].strip().lower() for a in xs if ')' in a] */
  function SelectionPrefixes(xs: seq<string>): seq<string> {
    if xs == [] then []
    else (if ')' in xs[0] then [OptionLetter(xs[0])] else []) + SelectionPrefixes(xs[1..])
  }

  /** The answer key as the list branch reads it: every entry stripped and
      lowered; a string key is iterated character by character; a missing key is []. */
  function KeyItems(key: AnswerKey): seq<string> {
    match key
    case KeyList(items) => seq(|items|, i requires 0 <= i < |items| => Norm(items[i]))
    case KeyText(text) => seq(|text|, i requires 0 <= i < |text| => Norm([text[i]]))
    case KeyMissing => []
  }

  function Elems(s: seq<string>): set<string> {
    set x | x in s
  }

  /** The selections that carry an option letter. */
  function Lettered(xs: seq<string>): set<string> {
    set a | a in xs && ')' in a
  }

  /** The letters kept from a selection are exactly the option letters of its
      entries that contain ')'. */
  lemma {:induction false} SelectionPrefixSet(xs: seq<string>)
    ensures forall a | a in Lettered(xs) :: OptionLetter(a) in SelectionPrefixes(xs)
    ensures forall p | p in SelectionPrefixes(xs) :: exists a :: a in Lettered(xs) && p == OptionLetter(a)
  {
    if xs != [] {
      var rest := xs[1..];
      SelectionPrefixSet(rest);
      var head: seq<string> := if ')' in xs[0] then [OptionLetter(xs[0])] else [];
      var all := SelectionPrefixes(xs);
      assert all == head + SelectionPrefixes(rest);
      forall a | a in Lettered(xs) ensures OptionLetter(a) in all {
        if a != xs[0] {
          assert a in rest by { assert xs == [xs[0]] + rest; }
          assert a in Lettered(rest);
        }
      }
      forall p | p in all ensures exists a :: a in Lettered(xs) && p == OptionLetter(a) {
        if p in head {
          assert xs[0] in Lettered(xs);
        } else {
          assert p in SelectionPrefixes(rest);
          var a :| a in Lettered(rest) && p == OptionLetter(a);
          assert a in Lettered(xs);
        }
      }
    }
  }

  /** The verdict on a multiple-answer question. */
  function ChoicesStatus(xs: seq<string>, key: AnswerKey): Status {
    var picked := SelectionPrefixes(xs);
    if picked == [] then Unanswered
    else if Elems(picked) == Elems(KeyItems(key)) then Correct
    else Incorrect
  }

  /** A multiple-answer question is unanswered exactly when no selection
      carries a ')', and correct exactly when the set of option letters of
      those that do equals the set of normalised key entries. */
  lemma ChoicesStatusSpec(xs: seq<string>, key: AnswerKey)
    ensures ChoicesStatus(xs, key) == Unanswered <==> Lettered(xs) == {}
    ensures ChoicesStatus(xs, key) == Correct <==>
      Lettered(xs) != {} && (set a | a in Lettered(xs) :: OptionLetter(a)) == Elems(KeyItems(key))
  {
    var picked := SelectionPrefixes(xs);
    SelectionPrefixSet(xs);
    assert picked != [] ==> picked[0] in picked;
    assert Elems(picked) == (set a | a in Lettered(xs) :: OptionLetter(a));
  }

  /** Selections with the same entries get the same verdict, whatever their
      order or repetitions. */
  lemma ChoicesOrderIrrelevant(xs: seq<string>, ys: seq<string>, key: AnswerKey)
    requires Elems(xs) == Elems(ys)
    ensures ChoicesStatus(xs, key) == ChoicesStatus(ys, key)
  {
    assert Lettered(xs) == Lettered(ys) by {
      assert forall a :: a in xs <==> a in Elems(xs);
      assert forall a :: a in ys <==> a in Elems(ys);
    }
    SelectionPrefixSet(xs);
    SelectionPrefixSet(ys);
    var px, py := SelectionPrefixes(xs), SelectionPrefixes(ys);
    assert Elems(px) == Elems(py);
    assert px == [] <==> py == [] by {
      assert px != [] ==> px[0] in px;
      assert py != [] ==> py[0] in py;
    }
  }

  // Single-answer questions

  /** user_answer_normalized: the text before the first ')' when there is
      one, otherwise the whole answer, stripped and lowered. */
  function ChoiceText(s: string): string {
    if ')' in s then Norm(BeforeParen(s)) else Norm(s)
  }

  /** The compared form of a single answer holds no ')' and no surrounding
      whitespace, and it is the normalised answer itself when there is no ')'. */
  lemma ChoiceTextSpec(s: string)
    ensures ')' !in ChoiceText(s) && Trimmed(ChoiceText(s))
    ensures ')' !in s ==> ChoiceText(s) == Norm(s)
  {
    BeforeParenSpec(s);
    NormKeepsParenFree(BeforeParen(s));
    NormTrimmed(BeforeParen(s));
    NormTrimmed(s);
  }

  /** The verdict on an answered or blank single answer against the
      normalised key. Blankness is judged on the raw answer. */
  function SingleStatus(s: string, expected: string): Status {
    if Strip(s) == [] then Unanswered
    else if ChoiceText(s) == expected then Correct
    else Incorrect
  }

  /** The verdict on a single-answer question: q.get("answer", "") is
      stripped and lowered, and a list-valued key has no strip() and raises. */
  function TextStatus(s: string, key: AnswerKey): Result<Status> {
    match key
    case KeyList(_) => Err(AttributeError("'list' object has no attribute 'strip'"))
    case KeyText(text) => Ok(SingleStatus(s, Norm(text)))
    case KeyMissing => Ok(SingleStatus(s, ""))
  }

  /** A single answer raises exactly when the key is a list; otherwise it is
      unanswered exactly when it is whitespace only, and correct exactly when
      it is not blank and its compared form equals the normalised key (the
      empty string when the key is absent). */
  lemma TextStatusSpec(s: string, key: AnswerKey)
    ensures TextStatus(s, key).Err? <==> key.KeyList?
    ensures TextStatus(s, key) == Ok(Unanswered) <==> !key.KeyList? && AllSpace(s)
    ensures key.KeyText? ==> (TextStatus(s, key) == Ok(Correct) <==> !AllSpace(s) && ChoiceText(s) == Norm(key.text))
    ensures key.KeyMissing? ==> (TextStatus(s, key) == Ok(Correct) <==> !AllSpace(s) && ChoiceText(s) == "")
  {
    StripBlankIff(s);
  }

  /** An option chosen as "letter) text" matches a key equal to the letter up
      to case and surrounding whitespace; the ')' alone makes it non-blank,
      so a blank letter matches a blank key. */
  lemma OptionMatchesLetter(letter: string, text: string, key: string)
    requires ')' !in letter
    requires Norm(key) == Norm(letter)
    ensures TextStatus(letter + ")" + text, KeyText(key)) == Ok(Correct)
  {
    var s := letter + ")" + text;
    BeforeParenOfOption(letter, text);
    assert s[|letter|] == ')';
    assert ChoiceText(s) == Norm(letter);
    assert !AllSpace(s) by {
      assert !IsSpace(s[|letter|]);
    }
    StripBlankIff(s);
  }

  /** "B) Central Library" is graded correct against the key "b". */
  lemma CentralLibrary()
    ensures TextStatus("B) Central Library", KeyText("b")) == Ok(Correct)
  {
    assert "B) Central Library" == "B" + ")" + " Central Library";
    assert Norm("b") == Norm("B") by {
      assert Strip("b") == "b" && Strip("B") == "B";
    }
    assert !IsSpace("B"[0]);
    OptionMatchesLetter("B", " Central Library", "b");
  }

  /** An answer that is only ")" is not blank, so it is judged although its
      compared form is empty: incorrect against a non-blank key such as "b",
      but correct against a missing or whitespace-only key. */
  lemma BareParenIsJudged()
    ensures ChoiceText(")") == [] && TextStatus(")", KeyText("b")) == Ok(Incorrect)
    ensures TextStatus(")", KeyMissing) == Ok(Correct) && TextStatus(")", KeyText(" ")) == Ok(Correct)
  {
    assert Norm(" ") == [] by { NormBlankIff(" "); }
    assert BeforeParen(")") == [];
    assert !AllSpace(")") by { assert !IsSpace(")"[0]); }
    assert Norm("b") != [] by { NormBlankIff("b"); assert !IsSpace("b"[0]); }
  }

  // One question, and the whole pass

  /** The answer key the list and string branches read: q.get("answer").
      Only standard questions carry one here. */
  function KeyOf(q: Question): AnswerKey {
    if q.Standard? then q.answer else KeyMissing
  }

  /** Appending the feedback entry reads q["question"], which raises when the
      question has no prompt. */
  function Judged(q: Question, status: Status): Result<Tally> {
    if q.prompt.None? then Err(KeyError("question"))
    else Ok(Visited.Plus(Row(q.prompt.value, status)))
  }

  /** The verdict on a question that is not a diagram, given the user's
      answer to it: None when the answer is neither a list nor a string
      (missing, None, a dict), which no branch grades. */
  function Verdict(q: Question, user: Answer): Option<Result<Status>> {
    match user
    case Choices(xs) => Some(Ok(ChoicesStatus(xs, KeyOf(q))))
    case Text(s) => Some(TextStatus(s, KeyOf(q)))
    case _ => None
  }

  /** The key of the user's answer: user_answers.get(q.get("question", "")),
      so a missing prompt looks up the empty key. */
  function PromptKey(q: Question): string {
    if q.prompt.Some? then q.prompt.value else ""
  }

  /** What one question adds to the counters and the feedback list. */
  function GradeQuestion(q: Question, answers: map<string, Answer>): Result<Tally> {
    if q.Diagram? then Ok(Visited.Plus(DiagramTally(q.labels, answers)))
    else Resolve(q, Verdict(q, Lookup(answers, PromptKey(q))))
  }

  /** What a question that is not a diagram adds once its verdict is known:
      only the visit when no branch grades it, and otherwise the exception
      or the judged feedback entry. */
  function Resolve(q: Question, verdict: Option<Result<Status>>): Result<Tally> {
    match verdict
    case None => Ok(Visited)
    case Some(Err(e)) => Err(e)
    case Some(Ok(status)) => Judged(q, status)
  }

  /** Grading one more question after a run of them; the first exception ends the pass. */
  function Step(before: Result<Tally>, q: Question, answers: map<string, Answer>): Result<Tally> {
    match before
    case Err(e) => Err(e)
    case Ok(t) =>
      match GradeQuestion(q, answers)
      case Err(e) => Err(e)
      case Ok(d) => Ok(t.Plus(d))
  }

  /** The counters and feedback after grading the questions in order. */
  function GradeAll(qs: seq<Question>, answers: map<string, Answer>): Result<Tally> {
    if qs == [] then Ok(Zero)
    else Step(GradeAll(qs[..|qs| - 1], answers), qs[|qs| - 1], answers)
  }

  /** The number of gradable units: one per question, one per label of a diagram. */
  function Units(q: Question): nat {
    if q.Diagram? then |q.labels| else 1
  }

  function UnitTotal(qs: seq<Question>): nat {
    if qs == [] then 0 else UnitTotal(qs[..|qs| - 1]) + Units(qs[|qs| - 1])
  }

  lemma GradeAllSnoc(qs: seq<Question>, q: Question, answers: map<string, Answer>)
    ensures GradeAll(qs + [q], answers) == Step(GradeAll(qs, answers), q, answers)
  {
    assert (qs + [q])[..|qs|] == qs;
  }

  /** Once an exception is raised, grading further questions does not resume. */
  lemma {:induction false} ErrorIsFinal(qs: seq<Question>, more: seq<Question>, answers: map<string, Answer>)
    requires GradeAll(qs, answers).Err?
    ensures GradeAll(qs + more, answers) == GradeAll(qs, answers)
    decreases |more|
  {
    if more == [] {
      assert qs + more == qs;
    } else {
      var n := |more| - 1;
      ErrorIsFinal(qs, more[..n], answers);
      assert qs + more == (qs + more[..n]) + [more[n]];
      GradeAllSnoc(qs + more[..n], more[n], answers);
    }
  }

  lemma {:induction false} CountOfAppend(a: seq<Feedback>, b: seq<Feedback>, status: Status)
    ensures CountOf(a + b, status) == CountOf(a, status) + CountOf(b, status)
    decreases |b|
  {
    if b == [] {
      assert a + b == a;
    } else {
      var n := |b| - 1;
      assert (a + b)[..|a + b| - 1] == a + b[..n];
      CountOfAppend(a, b[..n], status);
    }
  }

  lemma {:induction false} CountsWithinRows(feedback: seq<Feedback>)
    ensures CountOf(feedback, Correct) + CountOf(feedback, Unanswered) <= |feedback|
  {
    if feedback != [] {
      CountsWithinRows(feedback[..|feedback| - 1]);
    }
  }

  /** Each label adds exactly one feedback entry, for that label and with
      its verdict, in the order of the labels. */
  lemma {:induction false} DiagramTallyRows(labels: seq<Label>, answers: map<string, Answer>)
    ensures var fb := DiagramTally(labels, answers).feedback;
      && |fb| == |labels|
      && forall i | 0 <= i < |labels| :: fb[i] == Feedback("Label for " + labels[i].id, LabelStatus(labels[i], answers))
  {
    if labels != [] {
      var n := |labels| - 1;
      DiagramTallyRows(labels[..n], answers);
      var before := DiagramTally(labels[..n], answers).feedback;
      var fb := DiagramTally(labels, answers).feedback;
      var row := Feedback("Label for " + labels[n].id, LabelStatus(labels[n], answers));
      assert fb == before + [row];
      forall i | 0 <= i < |labels|
        ensures fb[i] == Feedback("Label for " + labels[i].id, LabelStatus(labels[i], answers))
      {
        if i < n {
          assert fb[i] == before[i] && labels[..n][i] == labels[i];
        }
      }
    }
  }

  /** The counters of a diagram's labels count its feedback entries, one per label. */
  lemma {:induction false} DiagramTallyCounts(labels: seq<Label>, answers: map<string, Answer>)
    ensures var t := DiagramTally(labels, answers);
      && t.total == 0 && |t.feedback| == |labels|
      && t.correct == CountOf(t.feedback, Correct) && t.unanswered == CountOf(t.feedback, Unanswered)
  {
    if labels != [] {
      var n := |labels| - 1;
      DiagramTallyCounts(labels[..n], answers);
      var before := DiagramTally(labels[..n], answers);
      var row := Row("Label for " + labels[n].id, LabelStatus(labels[n], answers));
      CountOfAppend(before.feedback, row.feedback, Correct);
      CountOfAppend(before.feedback, row.feedback, Unanswered);
      assert row.feedback[..0] == [];
    }
  }

  lemma RowCounts(subject: string, status: Status)
    ensures var t := Visited.Plus(Row(subject, status));
      && t.total == 1 && |t.feedback| == 1
      && t.correct == CountOf(t.feedback, Correct) && t.unanswered == CountOf(t.feedback, Unanswered)
  {
    var t := Visited.Plus(Row(subject, status));
    assert t.feedback[..0] == [];
  }

  /** One question moves total_questions by exactly 1 and adds at most one
      feedback entry per unit, with the counters matching the entries. */
  lemma GradeQuestionCounts(q: Question, answers: map<string, Answer>, d: Tally)
    requires GradeQuestion(q, answers) == Ok(d)
    ensures d.total == 1 && |d.feedback| <= Units(q)
    ensures d.correct == CountOf(d.feedback, Correct) && d.unanswered == CountOf(d.feedback, Unanswered)
  {
    if q.Diagram? {
      DiagramQuestion(q, answers);
      VisitedDiagramCounts(q.labels, answers, d);
    } else {
      OtherQuestion(q, answers);
      ResolveCounts(q, Verdict(q, Lookup(answers, PromptKey(q))), d);
    }
  }

  lemma DiagramQuestion(q: Question, answers: map<string, Answer>)
    requires q.Diagram?
    ensures GradeQuestion(q, answers) == Ok(Visited.Plus(DiagramTally(q.labels, answers)))
  {
  }

  lemma OtherQuestion(q: Question, answers: map<string, Answer>)
    requires !q.Diagram?
    ensures GradeQuestion(q, answers) == Resolve(q, Verdict(q, Lookup(answers, PromptKey(q))))
  {
  }

  lemma VisitedDiagramCounts(labels: seq<Label>, answers: map<string, Answer>, d: Tally)
    requires d == Visited.Plus(DiagramTally(labels, answers))
    ensures d.total == 1 && |d.feedback| == |labels|
    ensures d.correct == CountOf(d.feedback, Correct) && d.unanswered == CountOf(d.feedback, Unanswered)
  {
    DiagramTallyCounts(labels, answers);
    VisitedCounts(DiagramTally(labels, answers));
  }

  lemma VisitedCounts(t: Tally)
    ensures Visited.Plus(t).total == t.total + 1 && Visited.Plus(t).feedback == t.feedback
    ensures Visited.Plus(t).correct == t.correct && Visited.Plus(t).unanswered == t.unanswered
  {
    assert [] + t.feedback == t.feedback;
  }

  lemma ResolveCounts(q: Question, v: Option<Result<Status>>, d: Tally)
    requires Resolve(q, v) == Ok(d)
    ensures d.total == 1 && |d.feedback| <= 1
    ensures d.correct == CountOf(d.feedback, Correct) && d.unanswered == CountOf(d.feedback, Unanswered)
  {
    if v.Some? {
      RowCounts(q.prompt.value, v.value.value);
    }
  }

  /** Counter conservation over a whole pass: total_questions is the number of
      questions, correct_count and unanswered_count count their feedback
      entries, and there is at most one entry per unit. */
  lemma {:induction false} GradeAllCounts(qs: seq<Question>, answers: map<string, Answer>, t: Tally)
    requires GradeAll(qs, answers) == Ok(t)
    ensures t.total == |qs| && |t.feedback| <= UnitTotal(qs)
    ensures t.correct == CountOf(t.feedback, Correct) && t.unanswered == CountOf(t.feedback, Unanswered)
    ensures t.correct + t.unanswered <= UnitTotal(qs)
  {
    if qs != [] {
      var n := |qs| - 1;
      var before := GradeAll(qs[..n], answers);
      assert before.Ok?;
      var d := GradeQuestion(qs[n], answers).value;
      GradeAllCounts(qs[..n], answers, before.value);
      GradeQuestionCounts(qs[n], answers, d);
      CountOfAppend(before.value.feedback, d.feedback, Correct);
      CountOfAppend(before.value.feedback, d.feedback, Unanswered);
    }
    CountsWithinRows(t.feedback);
  }

  // The imperative pass

  lemma DiagramTallySnoc(labels: seq<Label>, l: nat, answers: map<string, Answer>)
    requires l < |labels|
    ensures DiagramTally(labels[..l + 1], answers)
         == DiagramTally(labels[..l], answers).Plus(Row("Label for " + labels[l].id, LabelStatus(labels[l], answers)))
  {
    assert labels[..l + 1][..l] == labels[..l];
  }

  lemma PlusAssociative(a: Tally, b: Tally, c: Tally)
    ensures a.Plus(b).Plus(c) == a.Plus(b.Plus(c))
  {
    assert (a.feedback + b.feedback) + c.feedback == a.feedback + (b.feedback + c.feedback);
  }

  /** The body of the label loop: one feedback entry, and the counter its
      status moves. */
  method CountLabel(subject: string, status: Status, correct0: nat, unanswered0: nat, feedback0: seq<Feedback>)
    returns (correct: nat, unanswered: nat, feedback: seq<Feedback>)
    ensures Tally(correct, unanswered, 0, feedback) == Tally(correct0, unanswered0, 0, feedback0).Plus(Row(subject, status))
  {
    correct, unanswered := correct0, unanswered0;
    if status == Unanswered {
      unanswered := unanswered + 1;
    } else if status == Correct {
      correct := correct + 1;
    }
    feedback := feedback0 + [Feedback(subject, status)];
  }

  /** The inner loop over a diagram's labels, moving the running counters. */
  method TallyLabels(labels: seq<Label>, answers: map<string, Answer>,
                     correct0: nat, unanswered0: nat, feedback0: seq<Feedback>)
    returns (correct: nat, unanswered: nat, feedback: seq<Feedback>)
    ensures Tally(correct, unanswered, 0, feedback)
         == Tally(correct0, unanswered0, 0, feedback0).Plus(DiagramTally(labels, answers))
  {
    correct, unanswered, feedback := correct0, unanswered0, feedback0;
    ghost var start := Tally(correct0, unanswered0, 0, feedback0);
    assert labels[..0] == [];
    for l := 0 to |labels|
      invariant Tally(correct, unanswered, 0, feedback) == start.Plus(DiagramTally(labels[..l], answers))
    {
      var point := labels[l];
      var row := Row("Label for " + point.id, LabelStatus(point, answers));
      DiagramTallySnoc(labels, l, answers);
      PlusAssociative(start, DiagramTally(labels[..l], answers), row);
      correct, unanswered, feedback := CountLabel("Label for " + point.id, LabelStatus(point, answers), correct, unanswered, feedback);
    }
    assert labels[..|labels|] == labels;
  }

  /** An exception raised while grading the entries up to k is the outcome of the whole pass. */
  lemma AbortAt(exam: seq<Entry>, k: nat, answers: map<string, Answer>)
    requires k < |exam|
    requires GradeAll(PartQuestions(exam[..k + 1]), answers).Err?
    ensures GradeAll(PartQuestions(exam), answers) == GradeAll(PartQuestions(exam[..k + 1]), answers)
  {
    SplitAt(exam, k + 1);
    PartQuestionsAppend(exam[..k + 1], exam[k + 1..]);
    ErrorIsFinal(PartQuestions(exam[..k + 1]), PartQuestions(exam[k + 1..]), answers);
  }

  lemma PlusVisited(t: Tally, d: Tally)
    ensures t.Plus(Visited.Plus(d))
         == Tally(t.correct + d.correct, t.unanswered + d.unanswered, t.total + 1 + d.total, t.feedback + d.feedback)
  {
    assert [] + d.feedback == d.feedback;
  }

  /** The cases of one grading step, one per branch of the loop body. */
  lemma StepCases(t: Tally, q: Question, answers: map<string, Answer>)
    ensures q.Diagram? ==> Step(Ok(t), q, answers) == Ok(t.Plus(Visited.Plus(DiagramTally(q.labels, answers))))
    ensures var v := Verdict(q, Lookup(answers, PromptKey(q)));
      && (!q.Diagram? && v.None? ==> Step(Ok(t), q, answers) == Ok(t.Plus(Visited)))
      && (!q.Diagram? && v.Some? && v.value.Err? ==> Step(Ok(t), q, answers) == Err(v.value.failure))
      && (!q.Diagram? && v.Some? && v.value.Ok? && q.prompt.None? ==> Step(Ok(t), q, answers) == Err(KeyError("question")))
      && (!q.Diagram? && v.Some? && v.value.Ok? && q.prompt.Some? ==>
            Step(Ok(t), q, answers) == Ok(t.Plus(Visited.Plus(Row(q.prompt.value, v.value.value)))))
  {
  }

  /** The body of the question loop: bump total_questions, then grade the
      question by its shape, moving the counters and the feedback list, or
      raise. */
  method GradeStep(q: Question, answers: map<string, Answer>, t: Tally) returns (r: Result<Tally>)
    ensures r == Step(Ok(t), q, answers)
  {
    StepCases(t, q, answers);
    if q.Diagram? {
      var correct, unanswered, feedback := TallyLabels(q.labels, answers, t.correct, t.unanswered, t.feedback);
      PlusVisited(t, DiagramTally(q.labels, answers));
      r := Ok(Tally(correct, unanswered, t.total + 1, feedback));
    } else {
      r := GradeAnswer(q, Verdict(q, Lookup(answers, PromptKey(q))), t);
    }
  }

  /** The list and string branches once the verdict is known: a raised
      exception, an unread answer, or one feedback entry with its counter. */
  method GradeAnswer(q: Question, verdict: Option<Result<Status>>, t: Tally) returns (r: Result<Tally>)
    ensures verdict.None? ==> r == Ok(t.Plus(Visited))
    ensures verdict.Some? && verdict.value.Err? ==> r == Err(verdict.value.failure)
    ensures verdict.Some? && verdict.value.Ok? && q.prompt.None? ==> r == Err(KeyError("question"))
    ensures verdict.Some? && verdict.value.Ok? && q.prompt.Some? ==>
      r == Ok(t.Plus(Visited.Plus(Row(q.prompt.value, verdict.value.value))))
  {
    var correct, unanswered, total, feedback := t.correct, t.unanswered, t.total + 1, t.feedback;
    if verdict.None? {
      assert t.feedback + [] == t.feedback;
      return Ok(Tally(correct, unanswered, total, feedback));
    }
    if verdict.value.Err? {
      return Err(verdict.value.failure);
    }
    var status := verdict.value.value;
    if q.prompt.None? {
      return Err(KeyError("question"));
    }
    if status == Unanswered {
      unanswered := unanswered + 1;
    } else if status == Correct {
      correct := correct + 1;
    }
    feedback := feedback + [Feedback(q.prompt.value, status)];
    PlusVisited(t, Row(q.prompt.value, status));
    return Ok(Tally(correct, unanswered, total, feedback));
  }

  /** One more question of a part extends the graded prefix by one step.
      The step lemmas here and in the other page's module have the same shape
      but are about different GradeAll folds. */
  lemma PrefixStep(done: seq<Question>, qs: seq<Question>, j: nat, answers: map<string, Answer>)
    requires j < |qs|
    ensures GradeAll(done + qs[..j + 1], answers) == Step(GradeAll(done + qs[..j], answers), qs[j], answers)
  {
    Exam.ExtendPrefix(done, qs, j);
    GradeAllSnoc(done + qs[..j], qs[j], answers);
  }

  /** An exception raised at question j of a part is the outcome of the whole part. */
  lemma PrefixAbort(done: seq<Question>, qs: seq<Question>, j: nat, answers: map<string, Answer>)
    requires j < |qs| && GradeAll(done + qs[..j + 1], answers).Err?
    ensures GradeAll(done + qs, answers) == GradeAll(done + qs[..j + 1], answers)
  {
    Exam.SplitAfter(done, qs, j);
    ErrorIsFinal(done + qs[..j + 1], qs[j + 1..], answers);
  }

  /** The loop over the questions of one "Part" entry, continuing a pass
      that has graded `done` so far; the first exception ends it. */
  method GradeQuestions(done: seq<Question>, qs: seq<Question>, answers: map<string, Answer>, t0: Tally)
    returns (r: Result<Tally>)
    requires GradeAll(done, answers) == Ok(t0)
    ensures r == GradeAll(done + qs, answers)
  {
    var t := t0;
    assert done + qs[..0] == done;
    for j := 0 to |qs|
      invariant GradeAll(done + qs[..j], answers) == Ok(t)
    {
      PrefixStep(done, qs, j, answers);
      var next := GradeStep(qs[j], answers, t);
      if next.Err? {
        PrefixAbort(done, qs, j, answers);
        return next;
      }
      t := next.value;
    }
    assert qs[..|qs|] == qs;
    return Ok(t);
  }

  /** One more entry of the exam extends the graded questions by its part's
      questions, or by none when its name does not start with "Part". */
  lemma PartStep(exam: seq<Entry>, k: nat, answers: map<string, Answer>)
    requires k < |exam|
    ensures "Part" <= exam[k].key ==>
      GradeAll(PartQuestions(exam[..k + 1]), answers) == GradeAll(PartQuestions(exam[..k]) + exam[k].questions, answers)
    ensures !("Part" <= exam[k].key) ==>
      GradeAll(PartQuestions(exam[..k + 1]), answers) == GradeAll(PartQuestions(exam[..k]), answers)
  {
    assert exam[..k + 1][..k] == exam[..k];
    assert PartQuestions(exam[..k]) + [] == PartQuestions(exam[..k]);
  }

  /** The submit handler's grading loops: for every "Part" entry, for every
      question, grade it; the first exception ends the pass. */
  method Grade(exam: seq<Entry>, answers: map<string, Answer>) returns (r: Result<Tally>)
    ensures r == GradeAll(PartQuestions(exam), answers)
  {
    var t := Zero;
    for k := 0 to |exam|
      invariant GradeAll(PartQuestions(exam[..k]), answers) == Ok(t)
    {
      var entry := exam[k];
      PartStep(exam, k, answers);
      if "Part" <= entry.key {
        var graded := GradeQuestions(PartQuestions(exam[..k]), entry.questions, answers, t);
        if graded.Err? {
          AbortAt(exam, k, answers);
          return graded;
        }
        t := graded.value;
      }
    }
    assert exam[..|exam|] == exam;
    return Ok(t);
  }

  // The results section

  /** The results the page shows, as written: the incorrect count is
      total_questions minus the other two counters. */
  function Summarize(t: Tally): (r: Report)
    ensures r.correct == t.correct && r.unanswered == t.unanswered
    ensures r.incorrect == t.total - t.correct - t.unanswered
    ensures r.correct + r.incorrect + r.unanswered == r.total == t.total
    ensures r.band == BandScore(t.correct, t.total) && r.info == BandDescription(r.band) && r.info != Unknown
  {
    var (band, info) := Rate(t.correct, t.total);
    Report(t.correct, t.total - t.correct - t.unanswered, t.unanswered, t.total, band, info)
  }

  /** The answers of a diagram whose two labels are both answered
      correctly, one with different case and a leading space. */
  const TwoLabelAnswers := map["X1" := Text("valve"), "X2" := Text(" Pump")]

  lemma TwoLabelsCorrect()
    ensures LabelStatus(Label("X1", "valve"), TwoLabelAnswers) == Correct
    ensures LabelStatus(Label("X2", "pump"), TwoLabelAnswers) == Correct
  {
    assert Norm("valve") == "valve" by {
      assert SkipStart("valve", 0) == 0 && SkipEnd("valve", 0, 5) == 5;
    }
    assert Norm(" Pump") == "pump" by {
      assert SkipStart(" Pump", 1) == 1;
      assert SkipEnd(" Pump", 1, 5) == 5;
      assert Strip(" Pump") == "Pump";
    }
    assert Norm("pump") == "pump" by {
      assert SkipStart("pump", 0) == 0 && SkipEnd("pump", 0, 4) == 4;
    }
  }

  lemma OnePartEntry(key: string, qs: seq<Question>)
    requires "Part" <= key
    ensures PartQuestions([Entry(key, qs)]) == qs
  {
    assert [Entry(key, qs)][..0] == [];
  }

  lemma GradeAllSingle(q: Question, answers: map<string, Answer>)
    ensures GradeAll([q], answers) == Step(Ok(Zero), q, answers)
  {
    assert [q][..0] == [];
  }

  lemma StepFromZero(q: Question, answers: map<string, Answer>)
    requires GradeQuestion(q, answers).Ok?
    ensures Step(Ok(Zero), q, answers) == Ok(Zero.Plus(GradeQuestion(q, answers).value))
  {
  }

  lemma ZeroPlus(d: Tally)
    ensures Zero.Plus(d) == d
  {
    assert [] + d.feedback == d.feedback;
  }

  /** A "Part" entry holding one question is graded as that question alone. */
  lemma OneQuestionExam(key: string, q: Question, answers: map<string, Answer>)
    requires "Part" <= key
    ensures GradeAll(PartQuestions([Entry(key, [q])]), answers) == GradeQuestion(q, answers)
  {
    OnePartEntry(key, [q]);
    GradeAllSingle(q, answers);
    if GradeQuestion(q, answers).Ok? {
      StepFromZero(q, answers);
      ZeroPlus(GradeQuestion(q, answers).value);
    }
  }


  /** What a diagram with every label answered correctly adds. */
  lemma AllLabelsCorrect(q: Question, answers: map<string, Answer>)
    requires q.Diagram?
    requires forall i | 0 <= i < |q.labels| :: LabelStatus(q.labels[i], answers) == Correct
    ensures GradeQuestion(q, answers).Ok?
    ensures var d := GradeQuestion(q, answers).value;
      d.correct == |q.labels| && d.unanswered == 0 && d.total == 1
  {
    DiagramTallyAllCorrect(q.labels, answers);
    DiagramQuestion(q, answers);
    VisitedCounts(DiagramTally(q.labels, answers));
  }



  lemma {:induction false} DiagramTallyAllCorrect(labels: seq<Label>, answers: map<string, Answer>)
    requires forall i | 0 <= i < |labels| :: LabelStatus(labels[i], answers) == Correct
    ensures var t := DiagramTally(labels, answers);
      t.correct == |labels| && t.unanswered == 0 && t.total == 0
  {
    if labels != [] {
      var n := |labels| - 1;
      assert forall i | 0 <= i < n :: labels[..n][i] == labels[i];
      DiagramTallyAllCorrect(labels[..n], answers);
      assert LabelStatus(labels[n], answers) == Correct;
    }
  }

  /** As written, a diagram counts once in total_questions but once per label
      in correct_count: a "Part" holding one diagram of n >= 2 labels, all
      answered correctly, reports n correct of 1 question, 1 - n incorrect
      (a negative count) and band 9. */
  lemma DiagramOvercount(key: string, q: Question, answers: map<string, Answer>)
    requires "Part" <= key && q.Diagram? && |q.labels| >= 2
    requires forall i | 0 <= i < |q.labels| :: LabelStatus(q.labels[i], answers) == Correct
    ensures GradeAll(PartQuestions([Entry(key, [q])]), answers).Ok?
    ensures var t := GradeAll(PartQuestions([Entry(key, [q])]), answers).value;
      && t.correct == |q.labels| && t.total == 1
      && Summarize(t).incorrect == 1 - |q.labels| < 0 && Summarize(t).band == 9
  {
    AllLabelsCorrect(q, answers);
    OneQuestionExam(key, q, answers);
    var t := GradeQuestion(q, answers).value;
    FullMarks(t.correct, t.total);
  }

  /** The results with every diagram label counted as a unit of its own: the
      three counts then add up to the number of units, none is negative, and
      the percentage never exceeds 100. */
  function ReportByUnits(exam: seq<Entry>, answers: map<string, Answer>): (r: Result<Report>)
    ensures r.Err? <==> GradeAll(PartQuestions(exam), answers).Err?
    ensures r.Ok? ==> var rep := r.value;
      && rep.total == UnitTotal(PartQuestions(exam))
      && rep.incorrect >= 0 && rep.correct + rep.incorrect + rep.unanswered == rep.total
      && rep.correct <= rep.total
      && rep.band == BandScore(rep.correct, rep.total)
      && rep.info == BandDescription(rep.band) && rep.info != Unknown
    ensures r.Ok? ==>
      && r.value.correct == GradeAll(PartQuestions(exam), answers).value.correct
      && r.value.unanswered == GradeAll(PartQuestions(exam), answers).value.unanswered
  {
    var qs := PartQuestions(exam);
    match GradeAll(qs, answers)
    case Err(e) => Err(e)
    case Ok(t) =>
      GradeAllCounts(qs, answers, t);
      var units := UnitTotal(qs);
      var (band, info) := Rate(t.correct, units);
      Ok(Report(t.correct, units - t.correct - t.unanswered, t.unanswered, units, band, info))
  }

  /** Counted by units, the same diagram is n correct out of n, none
      incorrect, and band 9 when it has a label at all. */
  lemma DiagramByUnits(key: string, q: Question, answers: map<string, Answer>)
    requires "Part" <= key && q.Diagram?
    requires forall i | 0 <= i < |q.labels| :: LabelStatus(q.labels[i], answers) == Correct
    ensures ReportByUnits([Entry(key, [q])], answers).Ok?
    ensures var rep := ReportByUnits([Entry(key, [q])], answers).value;
      && rep.correct == rep.total == |q.labels| && rep.incorrect == 0
      && (|q.labels| > 0 ==> rep.band == 9)
  {
    var n := |q.labels|;
    AllLabelsCorrect(q, answers);
    OneQuestionExam(key, q, answers);
    var t := GradeQuestion(q, answers).value;
    assert UnitTotal(PartQuestions([Entry(key, [q])])) == n by {
      assert [Entry(key, [q])][..0] == [];
      assert PartQuestions([Entry(key, [q])]) == [q];
      assert [q][..0] == [];
    }
    var (band, info) := Rate(n, n);
    assert ReportByUnits([Entry(key, [q])], answers) == Ok(Report(n, 0, 0, n, band, info));
    if n > 0 {
      FullMarks(n, n);
    }
  }
}
