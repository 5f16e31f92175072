/** The submit handler of the first exam page (app2.py): a diagram or a
    matching question is one question graded by comparing the user's
    dictionary with the answer key as a whole; any other question compares
    one stripped, lowercased string. */
module App2 {
  import opened Strings
  import opened Exam
  import opened Band

  /** Python's truthiness on answer values: None, "", [] and {} are false. */
  predicate Falsy(a: Answer) {
    a == Null || a == Text("") || a == Choices([]) || a == Mapping(map[])
  }

  /** A question whose answer is a dictionary: the user's value, compared as
      a whole with the key before its emptiness is looked at. */
  function MappingStatus(user: Answer, key: map<Field, Field>): Status {
    if user == Mapping(key) then Correct
    else if Falsy(user) then Unanswered
    else Incorrect
  }

  // Dictionaries built by comprehension

  /** {left(x): right(x) for x in xs}: a later element with the same left
      side overwrites an earlier one. */
  function PairMap<T>(xs: seq<T>, left: T -> Field, right: T -> Field): map<Field, Field> {
    if xs == [] then map[]
    else
      var x := xs[|xs| - 1];
      PairMap(xs[..|xs| - 1], left, right)[left(x) := right(x)]
  }

  /** The keys of a comprehension are the left sides of its elements, and
      each key holds the right side of the last element with that left side. */
  lemma {:induction false} PairMapSpec<T>(xs: seq<T>, left: T -> Field, right: T -> Field)
    ensures forall i | 0 <= i < |xs| :: left(xs[i]) in PairMap(xs, left, right)
    ensures forall k | k in PairMap(xs, left, right) :: exists i | 0 <= i < |xs| ::
      && left(xs[i]) == k && PairMap(xs, left, right)[k] == right(xs[i])
      && forall j | i < j < |xs| :: left(xs[j]) != k
  {
    if xs != [] {
      var n := |xs| - 1;
      var before := xs[..n];
      var m := PairMap(xs, left, right);
      PairMapSpec(before, left, right);
      forall i | 0 <= i < |xs| ensures left(xs[i]) in m {
        if i < n {
          assert before[i] == xs[i];
        }
      }
      forall k | k in m ensures exists i | 0 <= i < |xs| ::
        && left(xs[i]) == k && m[k] == right(xs[i])
        && forall j | i < j < |xs| :: left(xs[j]) != k
      {
        if k == left(xs[n]) {
          assert left(xs[n]) == k && m[k] == right(xs[n]);
        } else {
          var i :| 0 <= i < n && left(before[i]) == k && PairMap(before, left, right)[k] == right(before[i])
            && forall j | i < j < n :: left(before[j]) != k;
          assert before[i] == xs[i];
          forall j | i < j < |xs| ensures left(xs[j]) != k {
            if j < n {
              assert before[j] == xs[j];
            }
          }
        }
      }
    }
  }

  /** A comprehension is empty exactly when its list is. */
  lemma PairMapEmpty<T>(xs: seq<T>, left: T -> Field, right: T -> Field)
    ensures PairMap(xs, left, right) == map[] <==> xs == []
  {
    if xs != [] {
      PairMapSpec(xs, left, right);
      assert left(xs[0]) in PairMap(xs, left, right);
    }
  }

  // Diagrams

  /** {label['id']: label['correct_label'] for label in labels}. */
  function LabelMap(labels: seq<Label>): map<Field, Field> {
    PairMap(labels, (point: Label) => Some(point.id), (point: Label) => Some(point.correctLabel))
  }

  /** Every label's id is a key of the diagram's answer key, and every key
      is an id holding the correct label of the last label with that id. */
  lemma LabelMapSpec(labels: seq<Label>)
    ensures forall i | 0 <= i < |labels| :: Some(labels[i].id) in LabelMap(labels)
    ensures forall k | k in LabelMap(labels) :: exists i | 0 <= i < |labels| ::
      && Some(labels[i].id) == k && LabelMap(labels)[k] == Some(labels[i].correctLabel)
      && forall j | i < j < |labels| :: labels[j].id != labels[i].id
  {
    PairMapSpec(labels, (point: Label) => Some(point.id), (point: Label) => Some(point.correctLabel));
  }

  /** The label ids of a diagram, as dictionary keys. */
  function LabelIds(labels: seq<Label>): set<Field> {
    set i | 0 <= i < |labels| :: Some(labels[i].id)
  }

  /** The label at i is the last one with its id. */
  predicate LastOfId(labels: seq<Label>, i: int)
    requires 0 <= i < |labels|
  {
    forall j | i < j < |labels| :: labels[j].id != labels[i].id
  }

  /** A dict holds a diagram's key: its keys are exactly the label ids, and
      each id holds the correct label of the last label with that id. */
  predicate HoldsLabels(m: map<Field, Field>, labels: seq<Label>) {
    && m.Keys == LabelIds(labels)
    && forall i | 0 <= i < |labels| && LastOfId(labels, i) ::
         Some(labels[i].id) in m && m[Some(labels[i].id)] == Some(labels[i].correctLabel)
  }

  /** The keys of the diagram's key are the label ids. */
  lemma LabelMapKeys(labels: seq<Label>)
    ensures LabelMap(labels).Keys == LabelIds(labels)
  {
    var key := LabelMap(labels);
    LabelMapSpec(labels);
    forall k | k in key ensures k in LabelIds(labels) {
      var i :| 0 <= i < |labels| && Some(labels[i].id) == k;
    }
  }

  /** The diagram's key holds its labels. */
  lemma LabelMapHolds(labels: seq<Label>)
    ensures HoldsLabels(LabelMap(labels), labels)
  {
    var key := LabelMap(labels);
    LabelMapKeys(labels);
    forall i | 0 <= i < |labels| && LastOfId(labels, i)
      ensures Some(labels[i].id) in key && key[Some(labels[i].id)] == Some(labels[i].correctLabel)
    {
      LastLabelHeld(labels, i);
    }
  }

  /** The last label with an id is the one whose correct label the key holds. */
  lemma LastLabelHeld(labels: seq<Label>, i: int)
    requires 0 <= i < |labels| && LastOfId(labels, i)
    ensures Some(labels[i].id) in LabelMap(labels)
    ensures LabelMap(labels)[Some(labels[i].id)] == Some(labels[i].correctLabel)
  {
    var key := LabelMap(labels);
    var k := Some(labels[i].id);
    LabelMapSpec(labels);
    var i' :| 0 <= i' < |labels| && Some(labels[i'].id) == k && key[k] == Some(labels[i'].correctLabel)
      && forall j | i' < j < |labels| :: labels[j].id != labels[i'].id;
    assert !(i < i') && !(i' < i);
  }

  /** No other dict holds a diagram's labels. */
  lemma HoldsLabelsUnique(m: map<Field, Field>, labels: seq<Label>)
    requires HoldsLabels(m, labels)
    ensures m == LabelMap(labels)
  {
    var key := LabelMap(labels);
    LabelMapHolds(labels);
    forall k | k in m ensures m[k] == key[k] {
      LabelMapSpec(labels);
      var i :| 0 <= i < |labels| && Some(labels[i].id) == k && key[k] == Some(labels[i].correctLabel)
        && forall j | i < j < |labels| :: labels[j].id != labels[i].id;
      assert LastOfId(labels, i);
    }
  }

  /** The diagram's key is the one dict that holds its labels. */
  lemma HoldsLabelsIff(m: map<Field, Field>, labels: seq<Label>)
    ensures HoldsLabels(m, labels) <==> m == LabelMap(labels)
  {
    LabelMapHolds(labels);
    if HoldsLabels(m, labels) {
      HoldsLabelsUnique(m, labels);
    }
  }

  /** A diagram's key is empty exactly when it has no labels. */
  lemma LabelMapEmpty(labels: seq<Label>)
    ensures LabelMap(labels) == map[] <==> labels == []
  {
    PairMapEmpty(labels, (point: Label) => Some(point.id), (point: Label) => Some(point.correctLabel));
  }

  // Matching questions

  /** item.get(k, otherwise) on one JSON object of a "matches" list. */
  function Get(item: MatchItem, k: string, otherwise: Field): Field {
    if k in item then Some(item[k]) else otherwise
  }

  /** The left side the answer key reads: item.get('apartment', item.get('person')). */
  function KeyLeft(item: MatchItem): Field {
    Get(item, "apartment", Get(item, "person", None))
  }

  /** The right side the answer key reads: item.get('facility', item.get('work')). */
  function KeyRight(item: MatchItem): Field {
    Get(item, "facility", Get(item, "work", None))
  }

  /** The left side the page shows, probing four field names. */
  function ShownLeft(item: MatchItem): Field {
    Get(item, "apartment", Get(item, "person", Get(item, "strategy", Get(item, "feature", None))))
  }

  /** The single option the page offers for an item, probing four field names. */
  function ShownRight(item: MatchItem): Field {
    Get(item, "facility", Get(item, "work", Get(item, "benefit", Get(item, "description", None))))
  }

  /** correct_matches, as written: only the apartment/person and
      facility/work field names are read. */
  function MatchKeyMap(items: seq<MatchItem>): map<Field, Field> {
    PairMap(items, KeyLeft, KeyRight)
  }

  /** The pairs the page shows: dropdown_answers when every dropdown keeps
      the one option it offers, which is its preselected value. */
  function ShownMatches(items: seq<MatchItem>): map<Field, Field> {
    PairMap(items, ShownLeft, ShownRight)
  }

  /** Pair maps built with sides that agree on every item are equal. */
  lemma {:induction false} PairMapAgree<T>(xs: seq<T>, l1: T -> Field, r1: T -> Field, l2: T -> Field, r2: T -> Field)
    requires forall i | 0 <= i < |xs| :: l1(xs[i]) == l2(xs[i]) && r1(xs[i]) == r2(xs[i])
    ensures PairMap(xs, l1, r1) == PairMap(xs, l2, r2)
  {
    if xs != [] {
      var n := |xs| - 1;
      assert forall i | 0 <= i < n :: xs[..n][i] == xs[i];
      PairMapAgree(xs[..n], l1, r1, l2, r2);
    }
  }

  /** Items whose left side is named only by strategy or feature, whatever
      their right side: the page shows them with their own left sides, but
      the key reads every one of them under the single key None. */
  predicate OnlyOtherNames(items: seq<MatchItem>) {
    forall i | 0 <= i < |items| ::
      "apartment" !in items[i] && "person" !in items[i] && ("strategy" in items[i] || "feature" in items[i])
  }

  /** As written, a matching question of strategy or feature items is never
      graded correct when every dropdown keeps the option it offers: the key
      has only the key None, the answer has a left side that is a string. */
  lemma MatchingSynonymsNeverCorrect(qid: string, items: seq<MatchItem>, answers: map<string, Answer>)
    requires items != [] && OnlyOtherNames(items)
    requires LookupOr(answers, qid, Null) == Mapping(ShownMatches(items))
    ensures Verdict(Matching(Some(qid), items), answers) == Ok(Incorrect)
  {
    SynonymsMissKey(items);
  }

  /** The shown pairs of strategy or feature items are not empty and have a
      left side the key lacks. */
  lemma SynonymsMissKey(items: seq<MatchItem>)
    requires items != [] && OnlyOtherNames(items)
    ensures ShownMatches(items) != map[] && ShownMatches(items) != MatchKeyMap(items)
  {
    var n := |items| - 1;
    PairMapSpec(items, ShownLeft, ShownRight);
    PairMapSpec(items, KeyLeft, KeyRight);
    var shown := ShownMatches(items);
    var left := ShownLeft(items[n]);
    assert left.Some?;
    assert left in shown;
    assert left !in MatchKeyMap(items) by {
      forall i | 0 <= i < |items| ensures KeyLeft(items[i]) == None {
      }
    }
  }

  /** The pairs shown and the answer key agree on the items the key
      understands: those with an apartment or person and a facility or work. */
  lemma ShownMatchesAgree(items: seq<MatchItem>)
    requires forall i | 0 <= i < |items| ::
      ("apartment" in items[i] || "person" in items[i]) && ("facility" in items[i] || "work" in items[i])
    ensures ShownMatches(items) == MatchKeyMap(items)
  {
    PairMapAgree(items, ShownLeft, ShownRight, KeyLeft, KeyRight);
  }

  // Fill-in and single-choice questions

  /** The AttributeError a value without strip() raises. */
  function NoStrip(typeName: string): Failure {
    AttributeError("'" + typeName + "' object has no attribute 'strip'")
  }

  /** The verdict on a question graded as a string: question['answer'] is
      read first and must exist; a missing or None answer is unanswered; a
      string is unanswered when blank and otherwise compared with the key,
      both stripped and lowered; lists and dicts have no strip(). */
  function TextVerdict(key: AnswerKey, user: Answer): Result<Status> {
    match key
    case KeyMissing => Err(KeyError("answer"))
    case _ =>
      match user
      case Null => Ok(Unanswered)
      case Text(s) =>
        if Strip(s) == [] then Ok(Unanswered)
        else (
          match key
          case KeyText(k) => Ok(if Norm(s) == Norm(k) then Correct else Incorrect)
          case _ => Err(NoStrip("list")))
      case Choices(_) => Err(NoStrip("list"))
      case Mapping(_) => Err(NoStrip("dict"))
  }

  /** A string answer against a string key: unanswered exactly when it is
      whitespace only, correct exactly when otherwise equal to the key up to
      case and surrounding whitespace. */
  lemma TextVerdictSpec(key: string, s: string)
    ensures TextVerdict(KeyText(key), Text(s)) == Ok(Unanswered) <==> AllSpace(s)
    ensures TextVerdict(KeyText(key), Text(s)) == Ok(Correct) <==> !AllSpace(s) && Norm(s) == Norm(key)
    ensures TextVerdict(KeyText(key), Text(s)).Ok?
  {
    StripBlankIff(s);
  }

  /** Only a missing key or a non-string answer or key raises, and a missing
      key raises whatever the answer; with a key present, no stored answer
      is unanswered. */
  lemma TextVerdictErrors(key: AnswerKey, user: Answer)
    ensures key.KeyMissing? ==> TextVerdict(key, user) == Err(KeyError("answer"))
    ensures TextVerdict(key, user).Err? ==> key.KeyMissing? || user.Choices? || user.Mapping? || key.KeyList?
    ensures key.KeyText? && (user.Null? || user.Text?) ==> TextVerdict(key, user).Ok?
    ensures !key.KeyMissing? ==> TextVerdict(key, Null) == Ok(Unanswered)
  {
  }

  /** No option letter is cut off here: an answer holding a ')' never
      matches a key without one, so "B) Central Library" is wrong against "b". */
  lemma ParenAnswerNeverMatches(key: string, s: string)
    requires ')' in s && ')' !in key
    ensures TextVerdict(KeyText(key), Text(s)) != Ok(Correct)
  {
    NormKeepsParen(s);
    NormKeepsParenFree(key);
  }

  // One question, and the whole pass

  /** The verdict on one question: question['question'] is read first and
      must exist; a diagram or matching question compares the stored dict,
      {} when absent, with its answer key; any other question is graded as
      a string. */
  function Verdict(q: Question, answers: map<string, Answer>): Result<Status> {
    if q.prompt.None? then Err(KeyError("question"))
    else
      var qid := q.prompt.value;
      match q
      case Diagram(_, labels) => Ok(MappingStatus(LookupOr(answers, qid, Mapping(map[])), LabelMap(labels)))
      case Matching(_, items) => Ok(MappingStatus(LookupOr(answers, qid, Mapping(map[])), MatchKeyMap(items)))
      case Standard(_, key) => TextVerdict(key, Lookup(answers, qid))
  }

  /** A matching question of apartment/person and facility/work items whose
      dropdowns keep the options the page shows is graded correct. */
  lemma MatchingShownCorrect(qid: string, items: seq<MatchItem>, answers: map<string, Answer>)
    requires forall i | 0 <= i < |items| ::
      ("apartment" in items[i] || "person" in items[i]) && ("facility" in items[i] || "work" in items[i])
    requires LookupOr(answers, qid, Null) == Mapping(ShownMatches(items))
    ensures Verdict(Matching(Some(qid), items), answers) == Ok(Correct)
  {
    ShownMatchesAgree(items);
  }

  /** A diagram is correct exactly when its stored dict holds its labels
      (a missing one reads as {}); otherwise unanswered exactly when the
      stored value is falsy. With nothing stored it is unanswered, unless it
      has no labels, when {} equals {} and it is correct. */
  lemma DiagramVerdictSpec(qid: string, labels: seq<Label>, answers: map<string, Answer>)
    ensures var user := LookupOr(answers, qid, Mapping(map[]));
      Verdict(Diagram(Some(qid), labels), answers) == Ok(Correct) <==> user.Mapping? && HoldsLabels(user.pairs, labels)
    ensures var user := LookupOr(answers, qid, Mapping(map[]));
      Verdict(Diagram(Some(qid), labels), answers) == Ok(Unanswered) <==> !(user.Mapping? && HoldsLabels(user.pairs, labels)) && Falsy(user)
    ensures qid !in answers ==> Verdict(Diagram(Some(qid), labels), answers) == Ok(if labels == [] then Correct else Unanswered)
  {
    var user := LookupOr(answers, qid, Mapping(map[]));
    if user.Mapping? {
      HoldsLabelsIff(user.pairs, labels);
    }
    LabelMapEmpty(labels);
  }

  /** With nothing stored, a matching question is unanswered, unless it has
      no items, when {} equals {} and it is correct. */
  lemma MissingMatchingVerdict(qid: string, items: seq<MatchItem>, answers: map<string, Answer>)
    requires qid !in answers
    ensures Verdict(Matching(Some(qid), items), answers) == Ok(if items == [] then Correct else Unanswered)
  {
    PairMapEmpty(items, KeyLeft, KeyRight);
  }

  /** correct_count, incorrect_count and unanswered_count. */
  datatype Counts = Counts(correct: nat, incorrect: nat, unanswered: nat) {
    function Add(status: Status): Counts {
      match status
      case Correct => Counts(correct + 1, incorrect, unanswered)
      case Incorrect => Counts(correct, incorrect + 1, unanswered)
      case Unanswered => Counts(correct, incorrect, unanswered + 1)
    }
    function Sum(): nat {
      correct + incorrect + unanswered
    }
  }

  /** The verdict on every question, in order. */
  function Verdicts(qs: seq<Question>, answers: map<string, Answer>): (vs: seq<Result<Status>>)
    ensures |vs| == |qs|
  {
    seq(|qs|, i requires 0 <= i < |qs| => Verdict(qs[i], answers))
  }

  lemma VerdictsAppend(qs: seq<Question>, more: seq<Question>, answers: map<string, Answer>)
    ensures Verdicts(qs + more, answers) == Verdicts(qs, answers) + Verdicts(more, answers)
  {
    var all, front, back := Verdicts(qs + more, answers), Verdicts(qs, answers), Verdicts(more, answers);
    forall k | 0 <= k < |all| ensures all[k] == (front + back)[k] {
      if k < |qs| {
        assert (qs + more)[k] == qs[k];
      } else {
        assert (qs + more)[k] == more[k - |qs|];
      }
    }
  }

  /** Grading one more question: an earlier exception stands, a new one ends
      the pass, and a status moves its counter. */
  function Step(sofar: Result<Counts>, verdict: Result<Status>): Result<Counts> {
    match sofar
    case Err(e) => Err(e)
    case Ok(c) =>
      match verdict
      case Err(e) => Err(e)
      case Ok(status) => Ok(c.Add(status))
  }

  /** The counters after a run of verdicts, from zero. */
  function Totals(verdicts: seq<Result<Status>>): Result<Counts> {
    if verdicts == [] then Ok(Counts(0, 0, 0))
    else Step(Totals(verdicts[..|verdicts| - 1]), verdicts[|verdicts| - 1])
  }

  /** The counters after grading the questions in order; the first exception
      ends the pass. */
  function GradeAll(qs: seq<Question>, answers: map<string, Answer>): Result<Counts> {
    Totals(Verdicts(qs, answers))
  }

  lemma TotalsSnoc(verdicts: seq<Result<Status>>, v: Result<Status>)
    ensures Totals(verdicts + [v]) == Step(Totals(verdicts), v)
  {
    assert (verdicts + [v])[..|verdicts|] == verdicts;
  }

  /** A step that succeeds follows a run that succeeded, and adds one to the total. */
  lemma StepSum(sofar: Result<Counts>, verdict: Result<Status>)
    requires Step(sofar, verdict).Ok?
    ensures sofar.Ok? && verdict.Ok?
    ensures Step(sofar, verdict).value.Sum() == sofar.value.Sum() + 1
  {
  }

  /** Every verdict moves exactly one counter, so the three counters add up
      to the number of verdicts. */
  lemma {:induction false} TotalsConserve(verdicts: seq<Result<Status>>)
    requires Totals(verdicts).Ok?
    ensures Totals(verdicts).value.Sum() == |verdicts|
  {
    if verdicts != [] {
      var n := |verdicts| - 1;
      StepSum(Totals(verdicts[..n]), verdicts[n]);
      TotalsConserve(verdicts[..n]);
    }
  }

  /** After a pass, correct + incorrect + unanswered is the number of questions graded. */
  lemma CountsConserve(qs: seq<Question>, answers: map<string, Answer>)
    requires GradeAll(qs, answers).Ok?
    ensures GradeAll(qs, answers).value.Sum() == |qs|
  {
    TotalsConserve(Verdicts(qs, answers));
  }

  lemma {:induction false} TotalsErrorIsFinal(verdicts: seq<Result<Status>>, more: seq<Result<Status>>)
    requires Totals(verdicts).Err?
    ensures Totals(verdicts + more) == Totals(verdicts)
    decreases |more|
  {
    if more == [] {
      assert verdicts + more == verdicts;
    } else {
      var n := |more| - 1;
      TotalsErrorIsFinal(verdicts, more[..n]);
      assert verdicts + more == (verdicts + more[..n]) + [more[n]];
      TotalsSnoc(verdicts + more[..n], more[n]);
    }
  }

  /** Once an exception is raised, grading further questions does not resume. */
  lemma ErrorIsFinal(qs: seq<Question>, more: seq<Question>, answers: map<string, Answer>)
    requires GradeAll(qs, answers).Err?
    ensures GradeAll(qs + more, answers) == GradeAll(qs, answers)
  {
    VerdictsAppend(qs, more, answers);
    TotalsErrorIsFinal(Verdicts(qs, answers), Verdicts(more, answers));
  }

  /** One more question of a part extends the graded prefix by one step.
      The step lemmas here and in the other page's module have the same shape
      but are about different GradeAll folds. */
  lemma PrefixStep(done: seq<Question>, qs: seq<Question>, j: nat, answers: map<string, Answer>)
    requires j < |qs|
    ensures GradeAll(done + qs[..j + 1], answers) == Step(GradeAll(done + qs[..j], answers), Verdict(qs[j], answers))
  {
    Exam.ExtendPrefix(done, qs, j);
    VerdictsAppend(done + qs[..j], [qs[j]], answers);
    TotalsSnoc(Verdicts(done + qs[..j], answers), Verdict(qs[j], answers));
  }

  /** An exception raised at question j of a part is the outcome of the whole part. */
  lemma PrefixAbort(done: seq<Question>, qs: seq<Question>, j: nat, answers: map<string, Answer>)
    requires j < |qs| && GradeAll(done + qs[..j + 1], answers).Err?
    ensures GradeAll(done + qs, answers) == GradeAll(done + qs[..j + 1], answers)
  {
    Exam.SplitAfter(done, qs, j);
    ErrorIsFinal(done + qs[..j + 1], qs[j + 1..], answers);
  }

  /** The body of the inner loop once the verdict is known: an exception
      propagates, a status moves its own counter and no other. */
  method CountVerdict(c: Counts, verdict: Result<Status>) returns (r: Result<Counts>)
    ensures r == Step(Ok(c), verdict)
  {
    if verdict.Err? {
      return Err(verdict.failure);
    }
    var correct, incorrect, unanswered := c.correct, c.incorrect, c.unanswered;
    if verdict.value == Correct {
      correct := correct + 1;
    } else if verdict.value == Unanswered {
      unanswered := unanswered + 1;
    } else {
      incorrect := incorrect + 1;
    }
    return Ok(Counts(correct, incorrect, unanswered));
  }

  /** The loop over the questions of one "Part" entry, continuing a pass that
      has graded `done` so far. */
  method GradeQuestions(done: seq<Question>, qs: seq<Question>, answers: map<string, Answer>, c0: Counts)
    returns (r: Result<Counts>)
    requires GradeAll(done, answers) == Ok(c0)
    ensures r == GradeAll(done + qs, answers)
  {
    var counts := c0;
    assert done + qs[..0] == done;
    for j := 0 to |qs|
      invariant GradeAll(done + qs[..j], answers) == Ok(counts)
    {
      PrefixStep(done, qs, j, answers);
      var next := CountVerdict(counts, Verdict(qs[j], answers));
      if next.Err? {
        PrefixAbort(done, qs, j, answers);
        return next;
      }
      counts := next.value;
    }
    assert qs[..|qs|] == qs;
    return Ok(counts);
  }

  /** One more entry of the exam extends the graded questions by its part's
      questions, or by none when its name does not start with "Part". */
  lemma PartStep(exam: seq<Entry>, k: nat, answers: map<string, Answer>)
    requires k < |exam|
    ensures "Part" <= exam[k].key ==>
      GradeAll(PartQuestions(exam[..k + 1]), answers) == GradeAll(PartQuestions(exam[..k]) + exam[k].questions, answers)
    ensures !("Part" <= exam[k].key) ==>
      GradeAll(PartQuestions(exam[..k + 1]), answers) == GradeAll(PartQuestions(exam[..k]), answers)
  {
    assert exam[..k + 1][..k] == exam[..k];
    assert PartQuestions(exam[..k]) + [] == PartQuestions(exam[..k]);
  }

  /** An exception raised while grading the entries up to k is the outcome of the whole pass. */
  lemma AbortAt(exam: seq<Entry>, k: nat, answers: map<string, Answer>)
    requires k < |exam|
    requires GradeAll(PartQuestions(exam[..k + 1]), answers).Err?
    ensures GradeAll(PartQuestions(exam), answers) == GradeAll(PartQuestions(exam[..k + 1]), answers)
  {
    SplitAt(exam, k + 1);
    PartQuestionsAppend(exam[..k + 1], exam[k + 1..]);
    ErrorIsFinal(PartQuestions(exam[..k + 1]), PartQuestions(exam[k + 1..]), answers);
  }

  /** The submit handler's grading loops: for every "Part" entry, for every
      question, move one counter; the first exception ends the pass. */
  method Grade(exam: seq<Entry>, answers: map<string, Answer>) returns (r: Result<Counts>)
    ensures r == GradeAll(PartQuestions(exam), answers)
  {
    var counts := Counts(0, 0, 0);
    for k := 0 to |exam|
      invariant GradeAll(PartQuestions(exam[..k]), answers) == Ok(counts)
    {
      var entry := exam[k];
      PartStep(exam, k, answers);
      if "Part" <= entry.key {
        var graded := GradeQuestions(PartQuestions(exam[..k]), entry.questions, answers, counts);
        if graded.Err? {
          AbortAt(exam, k, answers);
          return graded;
        }
        counts := graded.value;
      }
    }
    assert exam[..|exam|] == exam;
    return Ok(counts);
  }

  // The results section

  /** The results the page shows: the total is the sum of the three
      counters, so none is negative; the band is that of correct over the
      total, shown with its own descriptor. */
  function Summarize(c: Counts): (r: Report)
    ensures r.total == r.correct + r.incorrect + r.unanswered && r.incorrect >= 0 && r.correct <= r.total
    ensures r.correct == c.correct && r.incorrect == c.incorrect && r.unanswered == c.unanswered
    ensures r.band == BandScore(c.correct, r.total) && r.band <= 9
    ensures r.info == BandDescription(r.band) && r.info != Unknown
  {
    var total := c.Sum();
    var (band, info) := Rate(c.correct, total);
    Report(c.correct, c.incorrect, c.unanswered, total, band, info)
  }

  /** A completed pass reports as many questions as the "Part" entries hold. */
  lemma ReportCountsQuestions(exam: seq<Entry>, answers: map<string, Answer>)
    requires GradeAll(PartQuestions(exam), answers).Ok?
    ensures Summarize(GradeAll(PartQuestions(exam), answers).value).total == |PartQuestions(exam)|
  {
    CountsConserve(PartQuestions(exam), answers);
  }
}
