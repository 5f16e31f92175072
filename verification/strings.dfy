/** The string operations the scoring code applies before comparing answers:
    Python's str.strip(), str.lower() and s.split(')')[0], restricted to ASCII.
    The functions carry only bounds; what they compute is stated by the lemmas
    after each of them. */
module Strings {

  /** Python's str.isspace() on the ASCII range: \t \n \v \f \r, the four
      separators \x1c to \x1f, and the space itself. */
  predicate IsSpace(c: char) {
    c == ' ' || '\t' <= c <= '\r' || '\U{1C}' <= c <= '\U{1F}'
  }

  predicate AllSpace(s: string) {
    forall i | 0 <= i < |s| :: IsSpace(s[i])
  }

  /** No whitespace at either end: what str.strip() leaves behind. */
  predicate Trimmed(s: string) {
    s == [] || (!IsSpace(s[0]) && !IsSpace(s[|s| - 1]))
  }

  // str.strip()

  /** The index of the first character at or after i that is not whitespace, or |s|. */
  function SkipStart(s: string, i: nat): (j: nat)
    requires i <= |s|
    ensures i <= j <= |s|
    decreases |s| - i
  {
    if i < |s| && IsSpace(s[i]) then SkipStart(s, i + 1) else i
  }

  /** The index just past the last character before j that is not
      whitespace, and never below lo. */
  function SkipEnd(s: string, lo: nat, j: nat): (k: nat)
    requires lo <= j <= |s|
    ensures lo <= k <= j
  {
    if lo < j && IsSpace(s[j - 1]) then SkipEnd(s, lo, j - 1) else j
  }

  /** str.strip(): s without its leading and trailing whitespace. */
  function Strip(s: string): string {
    var i := SkipStart(s, 0);
    s[i..SkipEnd(s, i, |s|)]
  }

  lemma {:induction false} SkipStartSpec(s: string, i: nat)
    requires i <= |s|
    ensures forall k | i <= k < SkipStart(s, i) :: IsSpace(s[k])
    ensures SkipStart(s, i) < |s| ==> !IsSpace(s[SkipStart(s, i)])
    decreases |s| - i
  {
    if i < |s| && IsSpace(s[i]) {
      SkipStartSpec(s, i + 1);
    }
  }

  lemma {:induction false} SkipEndSpec(s: string, lo: nat, j: nat)
    requires lo <= j <= |s|
    ensures forall k | SkipEnd(s, lo, j) <= k < j :: IsSpace(s[k])
    ensures SkipEnd(s, lo, j) > lo ==> !IsSpace(s[SkipEnd(s, lo, j) - 1])
  {
    if lo < j && IsSpace(s[j - 1]) {
      SkipEndSpec(s, lo, j - 1);
    }
  }

  /** Strip removes whitespace only, from both ends, and leaves none at
      either end: it is the slice s[i..j] with all of s[..i] and s[j..]
      whitespace and s[i..j] trimmed. */
  lemma StripSpec(s: string)
    ensures var i := SkipStart(s, 0); var j := SkipEnd(s, i, |s|);
      && Strip(s) == s[i..j] && AllSpace(s[..i]) && AllSpace(s[j..]) && Trimmed(Strip(s))
  {
    var i := SkipStart(s, 0);
    var j := SkipEnd(s, i, |s|);
    StripCuts(s, i, j);
    StripEnds(s, i, j);
  }

  lemma StripCuts(s: string, i: nat, j: nat)
    requires i == SkipStart(s, 0) && j == SkipEnd(s, i, |s|)
    ensures AllSpace(s[..i]) && AllSpace(s[j..])
  {
    SkipStartSpec(s, 0);
    SkipEndSpec(s, i, |s|);
    forall k | 0 <= k < i ensures IsSpace(s[..i][k]) {
      assert s[..i][k] == s[k];
    }
    forall k | 0 <= k < |s| - j ensures IsSpace(s[j..][k]) {
      assert s[j..][k] == s[j + k];
    }
  }

  lemma StripEnds(s: string, i: nat, j: nat)
    requires i == SkipStart(s, 0) && j == SkipEnd(s, i, |s|)
    ensures Trimmed(s[i..j])
  {
    if i < j {
      SkipStartSpec(s, 0);
      SkipEndSpec(s, i, |s|);
      var r := s[i..j];
      assert r[0] == s[i];
      assert r[|r| - 1] == s[j - 1];
    }
  }

  /** A string is blank after stripping exactly when it is whitespace only. */
  lemma StripBlankIff(s: string)
    ensures Strip(s) == [] <==> AllSpace(s)
  {
    StripSpec(s);
    var i := SkipStart(s, 0);
    var j := SkipEnd(s, i, |s|);
    if Strip(s) == [] {
      forall k | 0 <= k < |s| ensures IsSpace(s[k]) {
        if k < i { assert s[k] == s[..i][k]; } else { assert s[k] == s[j..][k - j]; }
      }
    } else {
      assert !IsSpace(s[i]);
    }
  }

  /** Stripping a string that has no surrounding whitespace changes nothing. */
  lemma StripTrimmed(s: string)
    requires Trimmed(s)
    ensures Strip(s) == s
  {
    if s != [] {
      assert SkipStart(s, 0) == 0;
      assert SkipEnd(s, 0, |s|) == |s|;
    }
  }

  // str.lower()

  function LowerChar(c: char): char {
    if 'A' <= c <= 'Z' then (c as int + 32) as char else c
  }

  /** str.lower() on ASCII letters; every other character is kept. */
  function Lower(s: string): (r: string)
    ensures |r| == |s|
  {
    seq(|s|, i requires 0 <= i < |s| => LowerChar(s[i]))
  }

  /** Lowercasing leaves no ASCII capital, keeps whitespace where it was, and
      lowercasing again changes nothing. */
  lemma LowerSpec(s: string)
    ensures forall i | 0 <= i < |s| :: !('A' <= Lower(s)[i] <= 'Z')
    ensures forall i | 0 <= i < |s| :: IsSpace(Lower(s)[i]) == IsSpace(s[i])
    ensures forall i | 0 <= i < |s| :: (Lower(s)[i] == ')') == (s[i] == ')')
    ensures Lower(Lower(s)) == Lower(s)
  {
  }

  // s.strip().lower()

  /** s.strip().lower(): the comparison form of every answer and key. */
  function Norm(s: string): string {
    Lower(Strip(s))
  }

  /** A normalised string has no whitespace at either end. */
  lemma NormTrimmed(s: string)
    ensures Trimmed(Norm(s))
  {
    StripSpec(s);
    LowerSpec(Strip(s));
  }

  /** A string normalises to "" exactly when it is whitespace only. */
  lemma NormBlankIff(s: string)
    ensures Norm(s) == [] <==> AllSpace(s)
  {
    StripBlankIff(s);
  }

  /** Normalising twice is normalising once. */
  lemma NormIdempotent(s: string)
    ensures Norm(Norm(s)) == Norm(s)
  {
    var n := Norm(s);
    NormTrimmed(s);
    StripTrimmed(n);
    LowerSpec(Strip(s));
  }

  /** Normalisation never introduces a ')'. */
  lemma NormKeepsParenFree(s: string)
    requires ')' !in s
    ensures ')' !in Norm(s)
  {
    StripSpec(s);
    var i := SkipStart(s, 0);
    LowerSpec(Strip(s));
    forall k | 0 <= k < |Norm(s)| ensures Norm(s)[k] != ')' {
      assert Strip(s)[k] == s[i + k];
    }
  }

  /** Normalisation keeps a ')': it is not whitespace, so strip() keeps it,
      and lower() leaves it alone. */
  lemma NormKeepsParen(s: string)
    requires ')' in s
    ensures ')' in Norm(s)
  {
    var i := SkipStart(s, 0);
    var j := SkipEnd(s, i, |s|);
    SkipStartSpec(s, 0);
    SkipEndSpec(s, i, |s|);
    var p :| 0 <= p < |s| && s[p] == ')';
    assert i <= p < j;
    assert Strip(s)[p - i] == ')';
    LowerSpec(Strip(s));
    assert Norm(s)[p - i] == ')';
  }

  // s.split(')')[0]

  /** The index of the first ')' at or after i, or |s|. */
  function ParenAt(s: string, i: nat): (j: nat)
    requires i <= |s|
    ensures i <= j <= |s|
    decreases |s| - i
  {
    if i < |s| && s[i] != ')' then ParenAt(s, i + 1) else i
  }

  /** s.split(')')[0]: everything before the first ')', or all of s when there is none. */
  function BeforeParen(s: string): string {
    s[..ParenAt(s, 0)]
  }

  lemma {:induction false} ParenAtSpec(s: string, i: nat)
    requires i <= |s|
    ensures forall k | i <= k < ParenAt(s, i) :: s[k] != ')'
    ensures ParenAt(s, i) < |s| ==> s[ParenAt(s, i)] == ')'
    decreases |s| - i
  {
    if i < |s| && s[i] != ')' {
      ParenAtSpec(s, i + 1);
    }
  }

  /** BeforeParen(s) is the longest prefix of s without a ')': it has none,
      and it is followed by a ')' unless it is all of s. */
  lemma BeforeParenSpec(s: string)
    ensures BeforeParen(s) <= s && ')' !in BeforeParen(s)
    ensures ')' in s ==> |BeforeParen(s)| < |s| && s[|BeforeParen(s)|] == ')'
    ensures ')' !in s ==> BeforeParen(s) == s
  {
    ParenAtSpec(s, 0);
    var j := ParenAt(s, 0);
    assert forall k | 0 <= k < j :: BeforeParen(s)[k] == s[k];
    if j == |s| {
      assert BeforeParen(s) == s;
    }
  }

  /** Cutting before the first ')' of "letter) text" gives back the letter. */
  lemma BeforeParenOfOption(letter: string, rest: string)
    requires ')' !in letter
    ensures BeforeParen(letter + ")" + rest) == letter
  {
    var s := letter + ")" + rest;
    BeforeParenSpec(s);
    assert s[|letter|] == ')';
    assert forall k | 0 <= k < |letter| :: s[k] == letter[k];
  }
}
