/** The exam data both quiz pages load from JSON, and the answer dictionary
    their form widgets fill in, as values. */
module Exam {

  datatype Option<T> = None | Some(value: T)

  /** A string-valued JSON field or dict.get() result: None when absent. */
  type Field = Option<string>

  /** A value in the user_answers dictionary. */
  datatype Answer =
    | Null                                // Python None
    | Text(s: string)                     // text_input, radio, selectbox
    | Choices(items: seq<string>)         // multiselect
    | Mapping(pairs: map<Field, Field>)   // a dict of per-item selections

  /** The "answer" field of a question object. */
  datatype AnswerKey = KeyText(text: string) | KeyList(items: seq<string>) | KeyMissing

  /** One point of a diagram: its "id" and its "correct_label". */
  datatype Label = Label(id: string, correctLabel: string)

  /** One element of "matches": a JSON object of string fields such as
      "apartment"/"person"/"strategy"/"feature" on the left and
      "facility"/"work"/"benefit"/"description" on the right. */
  type MatchItem = map<string, string>

  /** A question object, tagged by the field that decides how it is graded:
      "type": "diagram", a "matches" list, or neither. The prompt is the
      "question" field, also the key of the user's answer. */
  datatype Question =
    | Diagram(prompt: Field, labels: seq<Label>)
    | Matching(prompt: Field, items: seq<MatchItem>)
    | Standard(prompt: Field, answer: AnswerKey)

  /** One top-level entry of the exam object, e.g. "Part 1" with its questions.
      Entries whose key does not start with "Part" are never read. */
  datatype Entry = Entry(key: string, questions: seq<Question>)

  datatype Status = Correct | Incorrect | Unanswered

  /** The Python exceptions a malformed exam or answer shape raises. */
  datatype Failure = KeyError(key: string) | AttributeError(message: string)

  datatype Result<T> = Ok(value: T) | Err(failure: Failure)

  /** The questions the submit loops visit, in order: those of every entry
      whose key starts with "Part". */
  function PartQuestions(exam: seq<Entry>): seq<Question> {
    if exam == [] then []
    else
      var last := exam[|exam| - 1];
      PartQuestions(exam[..|exam| - 1]) + (if "Part" <= last.key then last.questions else [])
  }

  /** Visiting the entries in two halves visits the same questions. */
  lemma {:induction false} PartQuestionsAppend(a: seq<Entry>, b: seq<Entry>)
    ensures PartQuestions(a + b) == PartQuestions(a) + PartQuestions(b)
    decreases |b|
  {
    if b == [] {
      assert a + b == a;
    } else {
      var n := |b| - 1;
      assert (a + b)[..|a + b| - 1] == a + b[..n];
      PartQuestionsAppend(a, b[..n]);
    }
  }

  lemma ExtendPrefix<T>(done: seq<T>, xs: seq<T>, j: nat)
    requires j < |xs|
    ensures done + xs[..j + 1] == (done + xs[..j]) + [xs[j]]
  {
    assert xs[..j + 1] == xs[..j] + [xs[j]];
  }

  lemma SplitAfter<T>(done: seq<T>, xs: seq<T>, j: nat)
    requires j < |xs|
    ensures done + xs == (done + xs[..j + 1]) + xs[j + 1..]
  {
    assert xs == xs[..j + 1] + xs[j + 1..];
  }

  lemma SplitAt<T>(xs: seq<T>, j: nat)
    requires j <= |xs|
    ensures xs[..j] + xs[j..] == xs
  {
  }

  /** The answer stored under a key, or a default: user_answers.get(key, otherwise). */
  function LookupOr(answers: map<string, Answer>, key: string, otherwise: Answer): Answer {
    if key in answers then answers[key] else otherwise
  }

  /** The answer stored under a key, or None: user_answers.get(key, None). */
  function Lookup(answers: map<string, Answer>, key: string): Answer {
    LookupOr(answers, key, Null)
  }
}
