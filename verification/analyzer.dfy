/** The heuristic analyser `mockAnalyzeArgument`: keyword tests on the
    lower-cased text give a list of named fallacies, an additive strength
    score clamped to [0, 100], and a feedback text made of fixed sentences. */
module Analyzer {
  import opened Types
  import opened Text

  const HASTY_GENERALIZATION := "Hasty Generalization"
  const APPEAL_TO_AUTHORITY := "Appeal to Authority"
  const BEGGING_THE_QUESTION := "Begging the Question"

  /** Every fallacy the analyser can report, in the order it reports them. */
  const KNOWN_FALLACIES := [HASTY_GENERALIZATION, APPEAL_TO_AUTHORITY, BEGGING_THE_QUESTION]

  const BASE_STRENGTH := 70
  const STRONG_THRESHOLD := 75
  const DECENT_THRESHOLD := 50
  const SHORT_LENGTH := 20
  const LONG_LENGTH := 100

  const STRONG_SENTENCE := "Strong argument with clear reasoning."
  const DECENT_SENTENCE := "Decent argument but could be strengthened."
  const WEAK_SENTENCE := "Weak argument that needs more support."
  const FALLACIES_INTRO := "Contains logical fallacies: "
  const NO_FALLACIES_SENTENCE := "No obvious logical fallacies detected."
  const CITATION_SENTENCE := "Evidence would be stronger with specific data or citations."

  datatype Analysis = Analysis(fallacies: seq<string>, strength: int, feedback: string)

  /** Generalisation words. */
  predicate Generalizes(lower: string) {
    Contains(lower, "everyone") || Contains(lower, "nobody") || Contains(lower, "always") || Contains(lower, "never")
  }

  /** Appeals to the speaker's own authority. */
  predicate AppealsToAuthority(lower: string) {
    Contains(lower, "because i said so") || Contains(lower, "obviously") || Contains(lower, "clearly")
  }

  /** Connectives that draw a conclusion. */
  predicate DrawsConclusion(lower: string) {
    Contains(lower, "therefore") || Contains(lower, "thus") || Contains(lower, "consequently")
  }

  /** A question mark in an argument that is not itself a question; tested on
      the original text. */
  predicate BegsQuestion(content: string, kind: ArgumentType) {
    Contains(content, "?") && kind != Question
  }

  /** The pattern `\d+%|\d+ percent|statistics|study|research`. */
  predicate CitesStatistics(lower: string) {
    || DigitFollowedBy(lower, "%")
    || DigitFollowedBy(lower, " percent")
    || Contains(lower, "statistics")
    || Contains(lower, "study")
    || Contains(lower, "research")
  }

  /** The pattern `\d+|research|study|data`. */
  predicate MentionsData(lower: string) {
    HasDigit(lower) || Contains(lower, "research") || Contains(lower, "study") || Contains(lower, "data")
  }

  /** Evidence that mentions no number, research, study or data. */
  predicate NeedsCitation(lower: string, kind: ArgumentType) {
    kind == Evidence && !MentionsData(lower)
  }

  /** Short texts lose 20 points; long texts gain 10. */
  function LengthAdjustment(length: nat): int {
    if length < SHORT_LENGTH then -20 else if length > LONG_LENGTH then 10 else 0
  }

  /** The score before clamping: the base plus every adjustment whose test
      fired. */
  function Score(hasty: bool, authority: bool, conclusion: bool, begging: bool, statistics: bool, length: nat): int {
    BASE_STRENGTH
    + (if hasty then -15 else 0)
    + (if authority then -10 else 0)
    + (if conclusion then 10 else 0)
    + (if begging then -10 else 0)
    + (if statistics then 15 else 0)
    + LengthAdjustment(length)
  }

  /** The unclamped score of an argument. */
  function RawStrength(content: string, kind: ArgumentType): int {
    var lower := LowerAscii(content);
    Score(Generalizes(lower), AppealsToAuthority(lower), DrawsConclusion(lower),
          BegsQuestion(content, kind), CitesStatistics(lower), Utf16Length(content))
  }

  function Min(a: int, b: int): int {
    if a <= b then a else b
  }

  function Max(a: int, b: int): int {
    if a >= b then a else b
  }

  /** The fallacies whose tests fired, in the fixed order of `KNOWN_FALLACIES`. */
  function Flagged(hasty: bool, authority: bool, begging: bool): seq<string> {
    (if hasty then [HASTY_GENERALIZATION] else [])
    + (if authority then [APPEAL_TO_AUTHORITY] else [])
    + (if begging then [BEGGING_THE_QUESTION] else [])
  }

  /** The fallacies found in an argument. */
  function DetectedFallacies(content: string, kind: ArgumentType): seq<string> {
    var lower := LowerAscii(content);
    Flagged(Generalizes(lower), AppealsToAuthority(lower), BegsQuestion(content, kind))
  }

  /** The opening sentence, chosen by the final strength. */
  function TierSentence(strength: int): string {
    if strength >= STRONG_THRESHOLD then STRONG_SENTENCE
    else if strength >= DECENT_THRESHOLD then DECENT_SENTENCE
    else WEAK_SENTENCE
  }

  /** The second sentence: the fallacies joined by ", ", or that none were found. */
  function FallacySentence(fallacies: seq<string>): string {
    if fallacies == [] then NO_FALLACIES_SENTENCE
    else FALLACIES_INTRO + Join(fallacies, ", ") + "."
  }

  /** The sentences of the feedback, separated by single blanks. */
  function Feedback(strength: int, fallacies: seq<string>, citation: bool): string {
    TierSentence(strength) + " " + FallacySentence(fallacies) + (if citation then " " + CITATION_SENTENCE else "")
  }

  /** The feedback as it is assembled, each sentence followed by a blank,
      before the final trim. */
  function Draft(strength: int, fallacies: seq<string>, citation: bool): string {
    (TierSentence(strength) + " ") + (FallacySentence(fallacies) + " ") + (if citation then CITATION_SENTENCE else "")
  }

  /** Three sentences, the first opening with a non-blank and the others
      closing with a full stop, each followed by a blank and the last one
      possibly absent: trimming removes only the final blank, and the result
      opens and closes as its outer sentences do and is its own trim. */
  lemma TrimSentences(t: string, s: string, c: string)
    requires t != [] && !IsWhitespace(t[0])
    requires s != [] && s[|s| - 1] == '.'
    requires c == [] || c[|c| - 1] == '.'
    ensures var f := t + " " + s + (if c == [] then "" else " " + c);
            && Trim((t + " ") + (s + " ") + c) == f
            && f[0] == t[0] && f[|f| - 1] == '.' && Trim(f) == f
  {
    var f := t + " " + s + (if c == [] then "" else " " + c);
    assert f[0] == t[0];
    if c == [] {
      assert (t + " ") + (s + " ") + c == f + " ";
      assert f[|f| - 1] == s[|s| - 1];
      TrimDropsFinalBlank(f);
    } else {
      assert (t + " ") + (s + " ") + c == f;
      assert f[|f| - 1] == c[|c| - 1];
    }
    TrimUntouched(f);
  }

  /** Trimming the assembled text leaves the sentences separated by single
      blanks, with no blank at the end. */
  lemma TrimmedDraft(strength: int, fallacies: seq<string>, citation: bool)
    ensures Trim(Draft(strength, fallacies, citation)) == Feedback(strength, fallacies, citation)
  {
    FeedbackEnds(strength, fallacies);
    assert CITATION_SENTENCE[|CITATION_SENTENCE| - 1] == '.';
    var c := if citation then CITATION_SENTENCE else "";
    TrimSentences(TierSentence(strength), FallacySentence(fallacies), c);
  }

  /** What `mockAnalyzeArgument(content, type)` returns. */
  function Analyze(content: string, kind: ArgumentType): (r: Analysis)
    ensures 15 <= r.strength <= 100
    ensures |r.fallacies| <= |KNOWN_FALLACIES|
  {
    var strength := Max(0, Min(100, RawStrength(content, kind)));
    var fallacies := DetectedFallacies(content, kind);
    Analysis(fallacies, strength, Feedback(strength, fallacies, NeedsCitation(LowerAscii(content), kind)))
  }

  /** The analyser as the program runs it: the scoring pass, then the
      feedback. */
  method MockAnalyzeArgument(content: string, kind: ArgumentType) returns (result: Analysis)
    ensures result == Analyze(content, kind)
  {
    var fallacies, strength := ScoreArgument(content, kind);
    var feedback := ComposeFeedback(strength, fallacies, LowerAscii(content), kind);
    result := Analysis(fallacies, strength, feedback);
  }

  /** The scoring pass: a running score adjusted test by test, fallacies
      pushed as they are found, and the score clamped to [0, 100]. */
  method ScoreArgument(content: string, kind: ArgumentType) returns (fallacies: seq<string>, strength: int)
    ensures fallacies == DetectedFallacies(content, kind)
    ensures strength == Max(0, Min(100, RawStrength(content, kind)))
  {
    fallacies := [];
    strength := BASE_STRENGTH;
    var lower := LowerAscii(content);

    var hasty := Generalizes(lower);
    if hasty {
      fallacies := fallacies + [HASTY_GENERALIZATION];
      strength := strength - 15;
    }
    var authority := AppealsToAuthority(lower);
    if authority {
      fallacies := fallacies + [APPEAL_TO_AUTHORITY];
      strength := strength - 10;
    }
    assert strength == BASE_STRENGTH + (if hasty then -15 else 0) + (if authority then -10 else 0);
    var conclusion := DrawsConclusion(lower);
    if conclusion {
      strength := strength + 10;
    }
    var begging := BegsQuestion(content, kind);
    if begging {
      fallacies := fallacies + [BEGGING_THE_QUESTION];
      strength := strength - 10;
    }
    assert fallacies == Flagged(hasty, authority, begging);
    var statistics := CitesStatistics(lower);
    if statistics {
      strength := strength + 15;
    }
    var length := Utf16Length(content);
    if length < SHORT_LENGTH {
      strength := strength - 20;
    } else if length > LONG_LENGTH {
      strength := strength + 10;
    }
    assert strength == Score(hasty, authority, conclusion, begging, statistics, length);
    strength := Max(0, Min(100, strength));
  }

  /** The feedback as the program assembles it: the tier sentence, the
      fallacy sentence and, for evidence without data, the citation advice,
      each followed by a blank, and the whole trimmed. */
  method ComposeFeedback(strength: int, fallacies: seq<string>, lower: string, kind: ArgumentType) returns (feedback: string)
    ensures feedback == Feedback(strength, fallacies, NeedsCitation(lower, kind))
  {
    feedback := "";
    if strength >= STRONG_THRESHOLD {
      feedback := STRONG_SENTENCE + " ";
    } else if strength >= DECENT_THRESHOLD {
      feedback := DECENT_SENTENCE + " ";
    } else {
      feedback := WEAK_SENTENCE + " ";
    }
    if |fallacies| > 0 {
      feedback := feedback + (FALLACIES_INTRO + Join(fallacies, ", ") + ". ");
    } else {
      feedback := feedback + (NO_FALLACIES_SENTENCE + " ");
    }
    var citation := kind == Evidence && !MentionsData(lower);
    if citation {
      feedback := feedback + CITATION_SENTENCE;
    }
    assert feedback == Draft(strength, fallacies, citation) by {
      if |fallacies| > 0 {
        var j := Join(fallacies, ", ");
        assert FALLACIES_INTRO + j + ". " == (FALLACIES_INTRO + j + ".") + " ";
      }
    }
    TrimmedDraft(strength, fallacies, citation);
    feedback := Trim(feedback);
  }

  /** The tier sentence opens with a non-blank and the fallacy sentence ends
      with a full stop. */
  lemma FeedbackEnds(strength: int, fallacies: seq<string>)
    ensures var t := TierSentence(strength);
            t != [] && !IsWhitespace(t[0])
    ensures var s := FallacySentence(fallacies);
            |s| >= 2 && s[|s| - 1] == '.'
  {
    var s := FallacySentence(fallacies);
    if fallacies != [] {
      var j := Join(fallacies, ", ");
      assert s == FALLACIES_INTRO + j + ".";
      assert s[|s| - 1] == '.';
    }
  }

  /** Lower clamping never applies: the unclamped score lies in [15, 105]
      and the strength is its minimum with 100. */
  lemma StrengthRange(content: string, kind: ArgumentType)
    ensures 15 <= RawStrength(content, kind) <= 105
    ensures Analyze(content, kind).strength == Min(100, RawStrength(content, kind))
  {
  }

  /** `xs` is `ys` with some entries left out. */
  predicate IsSubsequence(xs: seq<string>, ys: seq<string>)
    decreases |ys|
  {
    if xs == [] then true
    else if ys == [] then false
    else if xs[0] == ys[0] then IsSubsequence(xs[1..], ys[1..])
    else IsSubsequence(xs, ys[1..])
  }

  /** Whatever tests fire, the flagged fallacies follow the fixed order,
      without repeats. */
  lemma FlaggedInOrder(hasty: bool, authority: bool, begging: bool)
    ensures var fs := Flagged(hasty, authority, begging);
            IsSubsequence(fs, KNOWN_FALLACIES) && forall i, j :: 0 <= i < j < |fs| ==> fs[i] != fs[j]
  {
    var fs := Flagged(hasty, authority, begging);
    var k := KNOWN_FALLACIES;
    assert k[0][0] == 'H' && k[1][0] == 'A' && k[2][0] == 'B';
    var tail := if begging then [BEGGING_THE_QUESTION] else [];
    assert IsSubsequence(tail, k[2..]) by {
      assert k[2..][1..] == [];
    }
    var mid := (if authority then [APPEAL_TO_AUTHORITY] else []) + tail;
    assert IsSubsequence(mid, k[1..]) by {
      assert k[1..][1..] == k[2..];
      if authority {
        assert mid[1..] == tail;
      } else if tail != [] {
        assert mid == tail;
      }
    }
    assert fs == (if hasty then [HASTY_GENERALIZATION] else []) + mid;
    if hasty {
      assert fs[1..] == mid;
    } else if mid != [] {
      assert fs == mid;
    }
  }

  /** The reported fallacies follow the fixed order, without repeats. */
  lemma FallaciesInOrder(content: string, kind: ArgumentType)
    ensures var fs := Analyze(content, kind).fallacies;
            IsSubsequence(fs, KNOWN_FALLACIES) && forall i, j :: 0 <= i < j < |fs| ==> fs[i] != fs[j]
  {
    var lower := LowerAscii(content);
    FlaggedInOrder(Generalizes(lower), AppealsToAuthority(lower), BegsQuestion(content, kind));
  }

  /** Each fallacy is reported exactly when its test fires; in particular an
      argument of type question never begs the question. */
  lemma FallacyTriggers(content: string, kind: ArgumentType)
    ensures var fs := Analyze(content, kind).fallacies;
            var lower := LowerAscii(content);
            && (HASTY_GENERALIZATION in fs <==> Generalizes(lower))
            && (APPEAL_TO_AUTHORITY in fs <==> AppealsToAuthority(lower))
            && (BEGGING_THE_QUESTION in fs <==> '?' in content && kind != Question)
  {
    ContainsChar(content, '?');
  }

  /** The feedback opens with the sentence of the strength's tier. */
  lemma FeedbackTier(content: string, kind: ArgumentType)
    ensures var r := Analyze(content, kind);
            && (StartsWith(r.feedback, STRONG_SENTENCE) <==> r.strength >= 75)
            && (StartsWith(r.feedback, DECENT_SENTENCE) <==> 50 <= r.strength < 75)
            && (StartsWith(r.feedback, WEAK_SENTENCE) <==> r.strength < 50)
  {
    var r := Analyze(content, kind);
    var t := TierSentence(r.strength);
    assert r.feedback[..|t|] == t;
    assert r.feedback[0] == t[0];
    assert STRONG_SENTENCE[0] == 'S' && DECENT_SENTENCE[0] == 'D' && WEAK_SENTENCE[0] == 'W';
  }

  /** After the tier sentence and a blank comes the fallacy sentence, which
      says that none were found exactly when the list is empty. */
  lemma FeedbackNamesFallacies(content: string, kind: ArgumentType)
    ensures var r := Analyze(content, kind);
            var rest := r.feedback[|TierSentence(r.strength)| + 1..];
            && StartsWith(rest, FallacySentence(r.fallacies))
            && (StartsWith(rest, NO_FALLACIES_SENTENCE) <==> r.fallacies == [])
            && (r.fallacies != [] ==> StartsWith(rest, FALLACIES_INTRO + Join(r.fallacies, ", ") + "."))
  {
    var r := Analyze(content, kind);
    var t := TierSentence(r.strength);
    var s := FallacySentence(r.fallacies);
    var c := if NeedsCitation(LowerAscii(content), kind) then " " + CITATION_SENTENCE else "";
    assert r.feedback == t + " " + s + c;
    var rest := r.feedback[|t| + 1..];
    assert rest == s + c;
    assert rest[..|s|] == s;
    if r.fallacies != [] {
      assert s == FALLACIES_INTRO + Join(r.fallacies, ", ") + ".";
      assert rest[0] == s[0] == 'C';
      assert NO_FALLACIES_SENTENCE[0] == 'N';
    }
  }

  /** Every fallacy sentence ends in a full stop, and the character before
      it is not `s`. */
  lemma FallacySentenceEnding(fallacies: seq<string>)
    requires forall i :: 0 <= i < |fallacies| ==> fallacies[i] in KNOWN_FALLACIES
    ensures var s := FallacySentence(fallacies);
            |s| >= 2 && s[|s| - 1] == '.' && s[|s| - 2] != 's'
  {
    var s := FallacySentence(fallacies);
    if fallacies != [] {
      var j := Join(fallacies, ", ");
      var last := fallacies[|fallacies| - 1];
      assert last[|last| - 1] != 's' by {
        assert last in KNOWN_FALLACIES;
        forall f | f in KNOWN_FALLACIES
          ensures f[|f| - 1] != 's'
        {
          assert HASTY_GENERALIZATION[19] == 'n' && APPEAL_TO_AUTHORITY[18] == 'y' && BEGGING_THE_QUESTION[19] == 'n';
        }
      }
      JoinEndsWithLast(fallacies, ", ");
      assert j[|j| - 1] == last[|last| - 1] by {
        assert j[|j| - |last|..] == last;
      }
      LastButOne(FALLACIES_INTRO, j);
    }
  }

  /** Appending a full stop puts the last character of a text just before it. */
  lemma LastButOne(intro: string, j: string)
    requires j != []
    ensures var s := intro + j + ".";
            s[|s| - 1] == '.' && s[|s| - 2] == j[|j| - 1]
  {
  }

  /** A closing sentence `c` ends the text exactly when it is appended,
      provided the text without it differs from `c` in its last but one
      character. */
  lemma ClosingSentence(head: string, s: string, c: string)
    requires |s| >= 2 && |c| >= 2 && s[|s| - 2] != c[|c| - 2]
    ensures EndsWith(head + s + (" " + c), c)
    ensures !EndsWith(head + s, c)
  {
    var f := head + s + (" " + c);
    assert f[|f| - |c|..] == c;
    var g := head + s;
    assert g[|g| - 2] == s[|s| - 2];
    assert |c| <= |g| ==> g[|g| - |c|..][|c| - 2] == g[|g| - 2];
  }

  /** The citation sentence closes the feedback exactly when the argument is
      evidence and mentions no number, research, study or data. */
  lemma CitationAdvice(content: string, kind: ArgumentType)
    ensures var r := Analyze(content, kind);
            EndsWith(r.feedback, CITATION_SENTENCE) <==> NeedsCitation(LowerAscii(content), kind)
  {
    var r := Analyze(content, kind);
    var citation := NeedsCitation(LowerAscii(content), kind);
    var head := TierSentence(r.strength) + " ";
    var s := FallacySentence(r.fallacies);
    var c := CITATION_SENTENCE;
    assert r.feedback == head + s + (if citation then " " + c else "");
    FallacySentenceEnding(r.fallacies);
    assert c[|c| - 2] == 's';
    ClosingSentence(head, s, c);
    if !citation {
      assert r.feedback == head + s;
    }
  }

  /** The feedback is never empty and is already trimmed. */
  lemma FeedbackTrimmed(content: string, kind: ArgumentType)
    ensures var f := Analyze(content, kind).feedback;
            f != [] && !IsWhitespace(f[|f| - 1]) && Trim(f) == f
  {
    var r := Analyze(content, kind);
    FeedbackEnds(r.strength, r.fallacies);
    assert CITATION_SENTENCE[|CITATION_SENTENCE| - 1] == '.';
    var c := if NeedsCitation(LowerAscii(content), kind) then CITATION_SENTENCE else "";
    var t := TierSentence(r.strength);
    var s := FallacySentence(r.fallacies);
    assert r.feedback == t + " " + s + (if c == [] then "" else " " + c);
    TrimSentences(t, s, c);
  }

  /** Changing the case of ASCII letters never changes the result: keyword
      tests see the lower-cased text, and the `?` and length tests ignore
      case. */
  lemma CaseInsensitive(content: string, kind: ArgumentType)
    ensures Analyze(LowerAscii(content), kind) == Analyze(content, kind)
    ensures Analyze(UpperAscii(content), kind) == Analyze(content, kind)
  {
    LowerAsciiFacts(content);
    UpperAsciiKeeps(content, '?');
    ContainsChar(content, '?');
    ContainsChar(LowerAscii(content), '?');
    ContainsChar(UpperAscii(content), '?');
    Utf16LengthCase(content);
    var lower := LowerAscii(content);
    assert LowerAscii(lower) == lower;
    assert LowerAscii(UpperAscii(content)) == lower;
    assert RawStrength(lower, kind) == RawStrength(content, kind);
    assert RawStrength(UpperAscii(content), kind) == RawStrength(content, kind);
    assert DetectedFallacies(lower, kind) == DetectedFallacies(content, kind);
    assert DetectedFallacies(UpperAscii(content), kind) == DetectedFallacies(content, kind);
  }
}
