/** calculate_band_score and get_band_description, which both quiz pages
    define identically, and the results summary they feed. */
module Band {

  /** Band k (1 to 9) is reached at 10 * k - 5 percent correct. */
  predicate Reaches(correct: nat, total: nat, band: nat) {
    100 * correct >= (10 * band - 5) * total
  }

  /** The band for `correct` right answers out of `total`: 0 when there are no
      questions; otherwise the highest band whose percentage threshold
      (5, 15, ..., 85, inclusive) the score reaches, and 0 below 5 percent.
      Percentages are compared exactly, as 100 * correct against p * total. */
  function BandScore(correct: nat, total: nat): (band: nat)
    ensures band <= 9
    ensures total == 0 ==> band == 0
    ensures total > 0 && band > 0 ==> Reaches(correct, total, band)
    ensures total > 0 && band < 9 ==> !Reaches(correct, total, band + 1)
  {
    if total == 0 then 0
    else if 100 * correct >= 85 * total then 9
    else if 100 * correct >= 75 * total then 8
    else if 100 * correct >= 65 * total then 7
    else if 100 * correct >= 55 * total then 6
    else if 100 * correct >= 45 * total then 5
    else if 100 * correct >= 35 * total then 4
    else if 100 * correct >= 25 * total then 3
    else if 100 * correct >= 15 * total then 2
    else if 100 * correct >= 5 * total then 1
    else 0
  }

  /** Reaching a band implies reaching every lower one. */
  lemma {:induction false} ReachesDownward(correct: nat, total: nat, lo: nat, hi: nat)
    requires 1 <= lo <= hi
    requires Reaches(correct, total, hi)
    ensures Reaches(correct, total, lo)
  {
    assert (10 * lo - 5) * total <= (10 * hi - 5) * total by {
      assert (10 * hi - 5) * total == (10 * lo - 5) * total + 10 * (hi - lo) * total;
    }
  }

  /** For a fixed number of questions, more correct answers never lower the band. */
  lemma BandScoreMonotone(c1: nat, c2: nat, total: nat)
    requires c1 <= c2
    ensures BandScore(c1, total) <= BandScore(c2, total)
  {
    var b1, b2 := BandScore(c1, total), BandScore(c2, total);
    if total > 0 && b1 > b2 {
      assert Reaches(c2, total, b1) by {
        assert 100 * c1 <= 100 * c2;
      }
      ReachesDownward(c2, total, b2 + 1, b1);
      assert false;
    }
  }

  /** A score of all questions or more, which the per-question total of the
      second exam page allows, gives the top band. */
  lemma FullMarks(correct: nat, total: nat)
    requires 0 < total <= correct
    ensures BandScore(correct, total) == 9
  {
  }

  /** 17 correct out of 20 is 85 percent, band 9; 16 out of 20 is band 8. */
  lemma SeventeenOfTwenty()
    ensures BandScore(17, 20) == 9 && BandScore(16, 20) == 8 && BandScore(0, 0) == 0
  {
  }

  datatype Descriptor = Descriptor(skillLevel: string, description: string)

  /** The fallback of get_band_description. */
  const Unknown := Descriptor("Unknown", "No description available.")

  /** The band_descriptions dictionary. */
  const Descriptors: map<int, Descriptor> := map[
    9 := Descriptor("Expert user", "Fully operational command of the language: fluent, precise, and well-understood."),
    8 := Descriptor("Very good user", "Efficient in language use with minor inaccuracies or misunderstandings in unfamiliar contexts."),
    7 := Descriptor("Good user", "Handles language well with occasional lapses; understands detailed arguments effectively."),
    6 := Descriptor("Competent user", "Effective in familiar situations but prone to errors in complex language."),
    5 := Descriptor("Modest user", "Basic command of language, often requiring repetition or clarification for accuracy."),
    4 := Descriptor("Limited user", "Copes with simple situations but struggles with understanding or expressing detailed meaning."),
    3 := Descriptor("Extremely limited user", "Communicates basic needs but suffers frequent communication breakdowns."),
    2 := Descriptor("Intermittent user", "Uses isolated words and phrases to meet immediate needs; struggles with understanding."),
    1 := Descriptor("Non-user", "Unable to use language beyond isolated words."),
    0 := Descriptor("Did not attempt test", "No attempt to answer the test questions.")
  ]

  /** get_band_description: the table entry of a band 0 to 9, the "Unknown"
      fallback for every other integer. */
  function BandDescription(score: int): (d: Descriptor)
    ensures 0 <= score <= 9 <==> d != Unknown
    ensures 0 <= score <= 9 <==> d.skillLevel != "Unknown"
    ensures 0 <= score <= 9 ==> d.description != Unknown.description
    ensures 0 <= score <= 9 ==> score in Descriptors && d == Descriptors[score]
  {
    if score in Descriptors then Descriptors[score] else Unknown
  }

  /** What the results section shows. `incorrect` is an int: the second exam
      page derives it by subtraction. */
  datatype Report = Report(
    correct: nat, incorrect: int, unanswered: nat, total: nat,
    band: nat, info: Descriptor)

  /** The band and descriptor a results section shows: the band score of
      correct over total, and its descriptor, a known one since BandScore
      never leaves 0 to 9. */
  function Rate(correct: nat, total: nat): (r: (nat, Descriptor))
    ensures r.0 == BandScore(correct, total) && r.1 == BandDescription(r.0)
    ensures r.0 <= 9 && r.1 != Unknown && r.1 == Descriptors[r.0]
    ensures total > 0 && r.0 > 0 ==> Reaches(correct, total, r.0)
  {
    var band := BandScore(correct, total);
    (band, BandDescription(band))
  }
}
