/** The stand-alone heuristic resume score: points for section headings, a
    word-count window, bonus keywords and contact details, clamped to 0..100. */
module Scoring {
  import opened Text

  /** The headings worth 20 points each. */
  const SectionHeadings: seq<string> := ["Work Experience", "Education", "Skills"]

  /** The keywords worth 5 points each. */
  const BonusKeywords: seq<string> := ["Python", "Machine Learning", "Team Leadership"]

  /** +20 for 400 to 800 words inclusive, -10 otherwise. */
  function LengthAdjustment(wordCount: nat): (points: int)
    ensures points == 20 <==> 400 <= wordCount <= 800
    ensures points == 20 || points == -10
  {
    if 400 <= wordCount <= 800 then 20 else -10
  }

  /** Both "Phone" and "Email" occur (case-sensitive substrings). */
  predicate HasContact(content: string) {
    Contains(content, "Phone") && Contains(content, "Email")
  }

  /** A single 20-point deduction when either contact word is missing. */
  function ContactPenalty(content: string): (penalty: nat)
    ensures penalty == 0 <==> HasContact(content)
    ensures penalty <= 20
  {
    if !Contains(content, "Phone") || !Contains(content, "Email") then 20 else 0
  }

  /** The score before clamping: every rule added up. */
  function RawScore(content: string): (raw: int)
    ensures -30 <= raw <= 95
    ensures raw % 5 == 0
  {
    var headings := CountContained(content, SectionHeadings);
    var keywords := CountContained(content, BonusKeywords);
    var length := LengthAdjustment(|Words(content)|);
    var penalty := ContactPenalty(content);
    RuleSum(headings, keywords, length, penalty)
  }

  /** The rules added up: whatever the counts, the sum lies in -30..95 and
      is a multiple of 5. */
  function RuleSum(headings: nat, keywords: nat, length: int, penalty: nat): (sum: int)
    requires headings <= 3 && keywords <= 3
    requires length == 20 || length == -10
    requires penalty == 0 || penalty == 20
    ensures -30 <= sum <= 95
    ensures sum % 5 == 0
  {
    20 * headings + length + 5 * keywords - penalty
  }

  /** Python's max(0, min(100, x)). */
  function Clamp(x: int): (y: int)
    ensures 0 <= y <= 100
    ensures 0 <= x <= 100 ==> y == x
    ensures x < 0 ==> y == 0
    ensures x > 100 ==> y == 100
  {
    var m := if x < 100 then x else 100;
    if 0 < m then m else 0
  }

  /** The score score_resume returns: the clamped raw score. It never reaches
      100 (95 is the most the rules can add up to) and is a multiple of 5. */
  function HeuristicScore(content: string): (score: int)
    ensures 0 <= score <= 95
    ensures score % 5 == 0
    ensures score == 0 <==> RawScore(content) <= 0
    ensures RawScore(content) >= 0 ==> score == RawScore(content)
  {
    Clamp(RawScore(content))
  }

  /** score_resume, rule by rule, as the source accumulates it. */
  method ScoreResume(content: string) returns (score: int)
    ensures score == HeuristicScore(content)
    ensures 0 <= score <= 95 && score % 5 == 0
  {
    score := 0;
    if Contains(content, "Work Experience") {
      score := score + 20;
    }
    if Contains(content, "Education") {
      score := score + 20;
    }
    if Contains(content, "Skills") {
      score := score + 20;
    }
    CountOfThree(content, SectionHeadings);
    assert score == 20 * CountContained(content, SectionHeadings);

    var wordCount := |Words(content)|;
    if 400 <= wordCount && wordCount <= 800 {
      score := score + 20;
    } else {
      score := score - 10;
    }

    var keywords := BonusKeywords;
    ghost var base := score;
    for i := 0 to |keywords|
      invariant score == base + 5 * CountContained(content, keywords[..i])
    {
      assert keywords[..i + 1][..i] == keywords[..i];
      if Contains(content, keywords[i]) {
        score := score + 5;
      }
    }
    assert keywords[..|keywords|] == keywords;
    assert score == 20 * CountContained(content, SectionHeadings) + LengthAdjustment(|Words(content)|)
                    + 5 * CountContained(content, BonusKeywords);

    if !Contains(content, "Phone") || !Contains(content, "Email") {
      score := score - 20;
    }
    assert score == RawScore(content);

    score := Clamp(score);
  }

  /** 1 when `part` occurs in `text`, 0 otherwise. */
  function Indicator(text: string, part: string): (n: nat)
    ensures n == 1 <==> Contains(text, part)
    ensures n <= 1
  {
    if Contains(text, part) then 1 else 0
  }

  /** The count over three parts, one part at a time. */
  lemma CountOfThree(text: string, parts: seq<string>)
    requires |parts| == 3
    ensures CountContained(text, parts)
         == Indicator(text, parts[0]) + Indicator(text, parts[1]) + Indicator(text, parts[2])
  {
    var two := parts[..2];
    var one := two[..1];
    assert one[..0] == [];
    assert CountContained(text, one) == Indicator(text, parts[0]);
    assert CountContained(text, two) == CountContained(text, one) + Indicator(text, parts[1]);
  }

  /** A resume with every heading, a word count in the window, "Python" but
      neither other keyword, and both contact words scores 85. */
  lemma WorkedExample(content: string)
    requires forall j | 0 <= j < |SectionHeadings| :: Contains(content, SectionHeadings[j])
    requires 400 <= |Words(content)| <= 800
    requires Contains(content, "Python")
    requires !Contains(content, "Machine Learning") && !Contains(content, "Team Leadership")
    requires HasContact(content)
    ensures HeuristicScore(content) == 85
  {
    CountOfThree(content, SectionHeadings);
    CountOfThree(content, BonusKeywords);
  }

  /** A short resume with no heading and no phone number clamps to 0, whatever
      keywords it has. */
  lemma BareResumeScoresZero(content: string)
    requires forall j | 0 <= j < |SectionHeadings| :: !Contains(content, SectionHeadings[j])
    requires |Words(content)| < 400
    requires !Contains(content, "Phone")
    ensures HeuristicScore(content) == 0
  {
    CountContainedExtremes(content, SectionHeadings);
  }

  /** Two resumes that differ only in whether one heading occurs are 20
      points apart before clamping. */
  lemma SectionHeadingWorthTwenty(a: string, b: string, k: nat)
    requires k < |SectionHeadings|
    requires !Contains(a, SectionHeadings[k]) && Contains(b, SectionHeadings[k])
    requires forall j | 0 <= j < |SectionHeadings| && j != k :: Contains(a, SectionHeadings[j]) == Contains(b, SectionHeadings[j])
    requires |Words(a)| == |Words(b)|
    requires forall j | 0 <= j < |BonusKeywords| :: Contains(a, BonusKeywords[j]) == Contains(b, BonusKeywords[j])
    requires ContactPenalty(a) == ContactPenalty(b)
    ensures RawScore(b) == RawScore(a) + 20
  {
    CountContainedGainsOne(a, b, SectionHeadings, k);
    CountContainedAgree(a, b, BonusKeywords);
  }

  /** Two resumes that differ only in whether one bonus keyword occurs are 5
      points apart before clamping. */
  lemma BonusKeywordWorthFive(a: string, b: string, k: nat)
    requires k < |BonusKeywords|
    requires !Contains(a, BonusKeywords[k]) && Contains(b, BonusKeywords[k])
    requires forall j | 0 <= j < |BonusKeywords| && j != k :: Contains(a, BonusKeywords[j]) == Contains(b, BonusKeywords[j])
    requires |Words(a)| == |Words(b)|
    requires forall j | 0 <= j < |SectionHeadings| :: Contains(a, SectionHeadings[j]) == Contains(b, SectionHeadings[j])
    requires ContactPenalty(a) == ContactPenalty(b)
    ensures RawScore(b) == RawScore(a) + 5
  {
    CountContainedGainsOne(a, b, BonusKeywords, k);
    CountContainedAgree(a, b, SectionHeadings);
  }

  /** Adding text never removes a heading, keyword or contact word; the only
      rule that can lower the score is the word-count window. */
  lemma OnlyLengthCanHurt(a: string, b: string)
    requires LengthAdjustment(|Words(a)|) == LengthAdjustment(|Words(a + b)|)
    ensures HeuristicScore(a) <= HeuristicScore(a + b)
  {
    forall j | 0 <= j < |SectionHeadings| && Contains(a, SectionHeadings[j])
      ensures Contains(a + b, SectionHeadings[j])
    {
      ContainsExtend(a, b, SectionHeadings[j]);
    }
    forall j | 0 <= j < |BonusKeywords| && Contains(a, BonusKeywords[j])
      ensures Contains(a + b, BonusKeywords[j])
    {
      ContainsExtend(a, b, BonusKeywords[j]);
    }
    CountContainedMonotone(a, a + b, SectionHeadings);
    CountContainedMonotone(a, a + b, BonusKeywords);
    if Contains(a, "Phone") {
      ContainsExtend(a, b, "Phone");
    }
    if Contains(a, "Email") {
      ContainsExtend(a, b, "Email");
    }
  }
}
