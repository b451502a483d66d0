/** The resume ranking service: keyword extraction from a job description,
    keyword relevance, section-based formatting, content quality, their
    weighted combination and the threshold-driven feedback. */
module ResumeRanking {
  import opened Outcomes
  import opened OrderedDict
  import opened Text

  /** Python truthiness of the optional job description: None and "" are falsy. */
  predicate Falsy(text: Option<string>) {
    text.None? || text.value == ""
  }

  /** The section names whose presence the formatting metric rewards. */
  const FormattingSections: seq<string> := ["experience", "education", "skills", "projects"]

  const KeywordAdvice := "Consider including more keywords from the job description to improve relevance."
  const FormattingAdvice := "Improve the resume formatting by ensuring clear sections like 'Experience' and 'Education'."
  const ContentAdvice := "Work on improving the overall clarity and relevance of your resume content."
  const OverallPraise := "Your resume is well-structured and relevant to the job description."

  /** The four keys feedback may hold, in the order generate_feedback inserts them. */
  datatype FeedbackKey = KeywordRelevanceKey | FormattingKey | ContentQualityKey | OverallKey {
    /** The dictionary key the source writes. */
    function Name(): string {
      match this
      case KeywordRelevanceKey => "keyword_relevance"
      case FormattingKey => "formatting"
      case ContentQualityKey => "content_quality"
      case OverallKey => "overall"
    }

    /** The text stored under the key. */
    function Advice(): string {
      match this
      case KeywordRelevanceKey => KeywordAdvice
      case FormattingKey => FormattingAdvice
      case ContentQualityKey => ContentAdvice
      case OverallKey => OverallPraise
    }

    /** Position in insertion order. */
    function Rank(): nat {
      match this
      case KeywordRelevanceKey => 0
      case FormattingKey => 1
      case ContentQualityKey => 2
      case OverallKey => 3
    }
  }

  /** The three metric scores; the source's `scores` dict always has exactly these keys. */
  datatype Scores = Scores(keywordRelevance: real, formatting: real, contentQuality: real)

  datatype RankingResult = RankingResult(overallScore: real, scores: Scores, feedback: Dict<FeedbackKey, string>)

  /** The keyword comprehension: every word longer than two characters
      (before stripping), stripped of ASCII punctuation at both ends. */
  function KeywordsOf(words: seq<string>): (keywords: seq<string>)
    ensures |keywords| <= |words|
  {
    if words == [] then []
    else (if |words[0]| > 2 then [Strip(words[0], IsPunctuation)] else []) + KeywordsOf(words[1..])
  }

  /** The comprehension works word by word: keywords of a concatenation are
      the keywords of each part, in order, repetitions kept. */
  lemma {:induction false} KeywordsOfAppend(a: seq<string>, b: seq<string>)
    ensures KeywordsOf(a + b) == KeywordsOf(a) + KeywordsOf(b)
  {
    if a == [] {
      assert a + b == b;
    } else {
      var head := if |a[0]| > 2 then [Strip(a[0], IsPunctuation)] else [];
      assert (a + b)[0] == a[0];
      assert (a + b)[1..] == a[1..] + b;
      KeywordsOfAppend(a[1..], b);
      calc {
        KeywordsOf(a + b);
        head + KeywordsOf(a[1..] + b);
        head + (KeywordsOf(a[1..]) + KeywordsOf(b));
        (head + KeywordsOf(a[1..])) + KeywordsOf(b);
        KeywordsOf(a) + KeywordsOf(b);
      }
    }
  }

  /** Every keyword is the stripped form of some long word, and every long
      word yields a keyword. */
  lemma {:induction false} KeywordsOfSources(words: seq<string>)
    ensures forall k | k in KeywordsOf(words) :: exists w | w in words :: |w| > 2 && k == Strip(w, IsPunctuation)
    ensures forall w | w in words && |w| > 2 :: Strip(w, IsPunctuation) in KeywordsOf(words)
  {
    if words != [] {
      KeywordsOfSources(words[1..]);
      assert forall w | w in words[1..] :: w in words;
    }
  }

  /** Per-instance state: the job description and the keywords taken from it
      once, at construction. Both are constants; ranking never changes them. */
  class RankingService {
    const jobDescription: Option<string>
    const keywordList: seq<string>

    /** The keyword list is the one extracted from the job description. */
    predicate Valid() {
      keywordList == ExtractKeywords(jobDescription)
    }

    constructor (jobDescription: Option<string>)
      ensures this.jobDescription == jobDescription
      ensures Valid()
      ensures Falsy(jobDescription) ==> keywordList == []
    {
      this.jobDescription := jobDescription;
      this.keywordList := if Falsy(jobDescription) then [] else ExtractKeywords(jobDescription);
    }

    /** Lowercase, split on whitespace, keep the words longer than two
        characters and strip punctuation from both ends of each. A falsy text
        gives no keywords, and there are never more keywords than words. */
    static function ExtractKeywords(text: Option<string>): (keywords: seq<string>)
      ensures Falsy(text) ==> keywords == []
      ensures text.Some? ==> |keywords| <= |Words(Lower(text.value))|
    {
      if Falsy(text) then [] else KeywordsOf(Words(Lower(text.value)))
    }

    /** 100 times the number of resume words (lowercased, not stripped) that
        are in the keyword list, divided by the length of the list; 0 when
        the list is empty. Not clamped. */
    function ScoreKeywordRelevance(resume: string): (score: real)
      ensures keywordList == [] ==> score == 0.0
      ensures score >= 0.0
      ensures keywordList != [] ==>
        score == 100.0 * (MatchCount(Words(Lower(resume)), keywordList) as real) / (|keywordList| as real)
      ensures keywordList != [] ==>
        (score == 0.0 <==> forall j | 0 <= j < |Words(Lower(resume))| :: Words(Lower(resume))[j] !in keywordList)
    {
      if keywordList == [] then 0.0
      else
        var words := Words(Lower(resume));
        var matches := MatchCount(words, keywordList) as real;
        var total := |keywordList| as real;
        MatchCountZero(words, keywordList);
        Percentage(matches, total);
        (matches / total) * 100.0
    }

    /** 25 points for each of experience, education, skills and projects that
        occurs in the lowercased resume: one of 0, 25, 50, 75, 100, and 100
        exactly when all four occur. */
    static function EvaluateFormatting(resume: string): (score: real)
      ensures score == 0.0 || score == 25.0 || score == 50.0 || score == 75.0 || score == 100.0
      ensures score == 25.0 * (CountContained(Lower(resume), FormattingSections) as real)
      ensures score == 100.0 <==> forall j | 0 <= j < 4 :: Contains(Lower(resume), FormattingSections[j])
    {
      var found := CountContained(Lower(resume), FormattingSections);
      CountContainedExtremes(Lower(resume), FormattingSections);
      QuarterPoints(found);
      (found as real / |FormattingSections| as real) * 100.0
    }

    /** Arithmetic of the formatting score: n of the four sections found is
        worth 25 n points. */
    static lemma QuarterPoints(n: nat)
      requires n <= 4
      ensures (n as real / |FormattingSections| as real) * 100.0 == 25.0 * (n as real)
      ensures 25.0 * (n as real) in {0.0, 25.0, 50.0, 75.0, 100.0}
      ensures 25.0 * (n as real) == 100.0 <==> n == 4
    {
    }

    /** With no job description the score is the neutral 50; otherwise it is
        100 times the TF-IDF cosine similarity of resume and job description,
        which `similarity` stands for. */
    function EvaluateContentQuality(resume: string, similarity: (string, string) -> real): (score: real)
      ensures Falsy(jobDescription) ==> score == 50.0
      ensures !Falsy(jobDescription) ==> score == 100.0 * similarity(resume, jobDescription.value)
      ensures !Falsy(jobDescription) && 0.0 <= similarity(resume, jobDescription.value) <= 1.0 ==>
        0.0 <= score <= 100.0
    {
      if Falsy(jobDescription) then 50.0
      else similarity(resume, jobDescription.value) * 100.0
    }

    /** The three metrics, their weighted sum (not clamped) and the feedback. */
    method RankResume(resume: string, similarity: (string, string) -> real) returns (result: RankingResult)
      requires Valid()
      ensures result.scores == Scores(ScoreKeywordRelevance(resume), EvaluateFormatting(resume),
                                      EvaluateContentQuality(resume, similarity))
      ensures result.overallScore == OverallScore(result.scores)
      ensures IsFeedbackFor(result.scores, result.feedback)
      ensures Falsy(jobDescription) ==>
        && result.scores.keywordRelevance == 0.0
        && result.scores.contentQuality == 50.0
        && HasKey(result.feedback, KeywordRelevanceKey)
        && HasKey(result.feedback, ContentQualityKey)
        && !HasKey(result.feedback, OverallKey)
        && result.overallScore == 0.3 * result.scores.formatting + 15.0
    {
      var scores := Scores(ScoreKeywordRelevance(resume), EvaluateFormatting(resume),
                           EvaluateContentQuality(resume, similarity));
      var overallScore := 0.4 * scores.keywordRelevance + 0.3 * scores.formatting + 0.3 * scores.contentQuality;
      var feedback := GenerateFeedback(scores);
      result := RankingResult(overallScore, scores, feedback);
      if Falsy(jobDescription) {
        GetFindsKeys(feedback, KeywordRelevanceKey);
        GetFindsKeys(feedback, ContentQualityKey);
        GetFindsKeys(feedback, OverallKey);
      }
    }

    /** One entry per metric strictly below its threshold (70, 80, 75), in
        that order, and the OverallKey praise only when no other entry was
        added. */
    method GenerateFeedback(scores: Scores) returns (feedback: Dict<FeedbackKey, string>)
      ensures IsFeedbackFor(scores, feedback)
    {
      feedback := [];
      NextEntry(scores, feedback, 0);
      if scores.keywordRelevance < 70.0 {
        feedback := Set(feedback, KeywordRelevanceKey, KeywordAdvice);
      }
      NextEntry(scores, feedback, 1);
      if scores.formatting < 80.0 {
        feedback := Set(feedback, FormattingKey, FormattingAdvice);
      }
      NextEntry(scores, feedback, 2);
      if scores.contentQuality < 75.0 {
        feedback := Set(feedback, ContentQualityKey, ContentAdvice);
      }
      NextEntry(scores, feedback, 3);
      MetricEntriesEmpty(scores);
      if feedback == [] {
        feedback := Set(feedback, OverallKey, OverallPraise);
      }
      FeedbackOfEntries(scores);
    }
  }

  /** Every key has rank below `rank`, and the ranks strictly increase. */
  predicate RankedBelow(keys: seq<FeedbackKey>, rank: nat) {
    && (forall i | 0 <= i < |keys| :: keys[i].Rank() < rank)
    && (forall i, j | 0 <= i < j < |keys| :: keys[i].Rank() < keys[j].Rank())
  }

  /** The keys in the order generate_feedback considers them. */
  const RankedKeys: seq<FeedbackKey> := [KeywordRelevanceKey, FormattingKey, ContentQualityKey, OverallKey]

  /** Whether generate_feedback adds `key`: a metric below its threshold, or,
      for OverallKey, no metric below its threshold. */
  predicate Triggered(scores: Scores, key: FeedbackKey) {
    match key
    case KeywordRelevanceKey => scores.keywordRelevance < 70.0
    case FormattingKey => scores.formatting < 80.0
    case ContentQualityKey => scores.contentQuality < 75.0
    case OverallKey => !(scores.keywordRelevance < 70.0 || scores.formatting < 80.0 || scores.contentQuality < 75.0)
  }

  /** The entry `key: advice` when `cond` holds, nothing otherwise. */
  function EntryIf(cond: bool, key: FeedbackKey, advice: string): Dict<FeedbackKey, string> {
    if cond then [(key, advice)] else []
  }

  /** The feedback after the first `n` tests, in test order. */
  function Entries(scores: Scores, n: nat): Dict<FeedbackKey, string>
    requires n <= 4
  {
    if n == 0 then []
    else
      var key := RankedKeys[n - 1];
      Entries(scores, n - 1) + EntryIf(Triggered(scores, key), key, key.Advice())
  }

  /** The keys the first `n` tests insert, in test order. */
  function EntryKeys(scores: Scores, n: nat): seq<FeedbackKey>
    requires n <= 4
  {
    if n == 0 then []
    else
      var key := RankedKeys[n - 1];
      EntryKeys(scores, n - 1) + (if Triggered(scores, key) then [key] else [])
  }

  lemma {:induction false} EntriesKeys(scores: Scores, n: nat)
    requires n <= 4
    ensures Keys(Entries(scores, n)) == EntryKeys(scores, n)
  {
    if n > 0 {
      var key := RankedKeys[n - 1];
      EntriesKeys(scores, n - 1);
      KeysOfEntryIf(Entries(scores, n - 1), Triggered(scores, key), key, key.Advice());
    }
  }

  lemma KeysOfEntryIf(d: Dict<FeedbackKey, string>, cond: bool, key: FeedbackKey, advice: string)
    ensures Keys(d + EntryIf(cond, key, advice)) == Keys(d) + (if cond then [key] else [])
  {
    var e := d + EntryIf(cond, key, advice);
    assert forall i | 0 <= i < |e| :: Keys(e)[i] == (Keys(d) + (if cond then [key] else []))[i];
  }

  /** The keys after `n` tests all come before the `n`-th in rank order. */
  lemma {:induction false} EntryKeysRanked(scores: Scores, n: nat)
    requires n <= 4
    ensures RankedBelow(EntryKeys(scores, n), n)
  {
    if n > 0 {
      var key := RankedKeys[n - 1];
      var cond := Triggered(scores, key);
      EntryKeysRanked(scores, n - 1);
      assert key.Rank() == n - 1;
      RankedExtend(EntryKeys(scores, n - 1), cond, key, n - 1);
    }
  }

  /** The feedback after `n` tests holds keys of rank below `n`, in rank order. */
  lemma EntriesRanked(scores: Scores, n: nat)
    requires n <= 4
    ensures RankedBelow(Keys(Entries(scores, n)), n)
  {
    EntriesKeys(scores, n);
    EntryKeysRanked(scores, n);
  }

  /** Appending at most one key of the next rank keeps the ranks increasing. */
  lemma RankedExtend(keys: seq<FeedbackKey>, cond: bool, key: FeedbackKey, rank: nat)
    requires RankedBelow(keys, rank) && key.Rank() == rank
    ensures RankedBelow(keys + (if cond then [key] else []), rank + 1)
  {
    var longer := keys + (if cond then [key] else []);
    assert forall i | 0 <= i < |keys| :: longer[i] == keys[i];
  }

  /** One more test: `feedback[key] = advice` appends the entry when the test
      fires, and otherwise nothing changes. */
  lemma NextEntry(scores: Scores, feedback: Dict<FeedbackKey, string>, n: nat)
    requires n < 4 && feedback == Entries(scores, n)
    ensures Triggered(scores, RankedKeys[n]) ==>
      Set(feedback, RankedKeys[n], RankedKeys[n].Advice()) == Entries(scores, n + 1)
    ensures !Triggered(scores, RankedKeys[n]) ==> feedback == Entries(scores, n + 1)
  {
    var key := RankedKeys[n];
    EntriesRanked(scores, n);
    assert key.Rank() == n;
    forall j | 0 <= j < |feedback| ensures feedback[j].0 != key {
      assert Keys(feedback)[j] == feedback[j].0;
    }
    SetFresh(feedback, key, key.Advice());
    assert Entries(scores, n + 1) == feedback + EntryIf(Triggered(scores, key), key, key.Advice());
  }

  /** The three metric tests add nothing exactly when the praise is due. */
  lemma MetricEntriesEmpty(scores: Scores)
    ensures Entries(scores, 3) == [] <==> Triggered(scores, OverallKey)
  {
    assert |Entries(scores, 3)| == |Entries(scores, 2)| + |EntryIf(Triggered(scores, ContentQualityKey), ContentQualityKey, ContentAdvice)|;
    assert |Entries(scores, 2)| == |Entries(scores, 1)| + |EntryIf(Triggered(scores, FormattingKey), FormattingKey, FormattingAdvice)|;
    assert |Entries(scores, 1)| == |EntryIf(Triggered(scores, KeywordRelevanceKey), KeywordRelevanceKey, KeywordAdvice)|;
  }

  /** All four tests together give exactly what generate_feedback promises. */
  lemma FeedbackOfEntries(scores: Scores)
    ensures IsFeedbackFor(scores, Entries(scores, 4))
  {
    var e := Entries(scores, 4);
    EntriesLookup(scores);
    EntriesRanked(scores, 4);
    RankedDistinct(Keys(e), 4);
    assert forall i | 0 <= i < |e| :: Keys(e)[i] == e[i].0;
  }

  /** After all four tests each key holds its advice exactly when its test fired. */
  lemma EntriesLookup(scores: Scores)
    ensures forall key :: Get(Entries(scores, 4), key) == if Triggered(scores, key) then Some(key.Advice()) else None
  {
    var e1 := EntryIf(Triggered(scores, KeywordRelevanceKey), KeywordRelevanceKey, KeywordAdvice);
    var e2 := EntryIf(Triggered(scores, FormattingKey), FormattingKey, FormattingAdvice);
    var e3 := EntryIf(Triggered(scores, ContentQualityKey), ContentQualityKey, ContentAdvice);
    var e4 := EntryIf(Triggered(scores, OverallKey), OverallKey, OverallPraise);
    EntriesSpelledOut(scores);
    GetEntryIf(Triggered(scores, KeywordRelevanceKey), KeywordRelevanceKey, KeywordAdvice);
    GetEntryIf(Triggered(scores, FormattingKey), FormattingKey, FormattingAdvice);
    GetEntryIf(Triggered(scores, ContentQualityKey), ContentQualityKey, ContentAdvice);
    GetEntryIf(Triggered(scores, OverallKey), OverallKey, OverallPraise);
    GetConcat(e1 + e2 + e3, e4);
    GetConcat(e1 + e2, e3);
    GetConcat(e1, e2);
  }

  /** The four tests' entries, one after the other. */
  lemma EntriesSpelledOut(scores: Scores)
    ensures Entries(scores, 4)
         == EntryIf(Triggered(scores, KeywordRelevanceKey), KeywordRelevanceKey, KeywordAdvice)
          + EntryIf(Triggered(scores, FormattingKey), FormattingKey, FormattingAdvice)
          + EntryIf(Triggered(scores, ContentQualityKey), ContentQualityKey, ContentAdvice)
          + EntryIf(Triggered(scores, OverallKey), OverallKey, OverallPraise)
  {
    var e1 := EntryIf(Triggered(scores, KeywordRelevanceKey), KeywordRelevanceKey, KeywordAdvice);
    var e2 := EntryIf(Triggered(scores, FormattingKey), FormattingKey, FormattingAdvice);
    var e3 := EntryIf(Triggered(scores, ContentQualityKey), ContentQualityKey, ContentAdvice);
    var e4 := EntryIf(Triggered(scores, OverallKey), OverallKey, OverallPraise);
    assert Entries(scores, 1) == [] + e1 == e1;
    assert Entries(scores, 2) == e1 + e2;
    assert Entries(scores, 3) == e1 + e2 + e3;
  }

  lemma GetEntryIf(cond: bool, key: FeedbackKey, advice: string)
    ensures forall k :: Get(EntryIf(cond, key, advice), k) == if cond && k == key then Some(advice) else None
  {
    forall k ensures Get(EntryIf(cond, key, advice), k) == if cond && k == key then Some(advice) else None {
      if cond && k != key {
        assert EntryIf(cond, key, advice)[1..] == [];
      }
    }
  }

  /** Increasing ranks mean no key occurs twice. */
  lemma RankedDistinct(keys: seq<FeedbackKey>, rank: nat)
    requires RankedBelow(keys, rank)
    ensures Distinct(keys)
  {
    forall i, j | 0 <= i < j < |keys|
      ensures keys[i] != keys[j]
    {
      assert keys[i].Rank() < keys[j].Rank();
    }
  }

  /** Number of `words` that are members of `keywords`, each occurrence
      counted (the source's `sum(1 for word in ... if word in ...)`). */
  function MatchCount(words: seq<string>, keywords: seq<string>): (n: nat)
    ensures n <= |words|
  {
    if words == [] then 0
    else MatchCount(words[..|words| - 1], keywords) + (if words[|words| - 1] in keywords then 1 else 0)
  }

  /** No word matches exactly when the count is zero. */
  lemma {:induction false} MatchCountZero(words: seq<string>, keywords: seq<string>)
    ensures MatchCount(words, keywords) == 0 <==> forall j | 0 <= j < |words| :: words[j] !in keywords
  {
    if words != [] {
      var init := words[..|words| - 1];
      MatchCountZero(init, keywords);
      assert forall j | 0 <= j < |init| :: init[j] == words[j];
    }
  }

  /** Matches in a concatenation add up. */
  lemma {:induction false} MatchCountAppend(a: seq<string>, b: seq<string>, keywords: seq<string>)
    ensures MatchCount(a + b, keywords) == MatchCount(a, keywords) + MatchCount(b, keywords)
    decreases |b|
  {
    if b == [] {
      assert a + b == a;
    } else {
      var init := b[..|b| - 1];
      assert (a + b)[..|a + b| - 1] == a + init;
      MatchCountAppend(a, init, keywords);
    }
  }

  /** Facts about `(part / whole) * 100` for a positive whole. */
  lemma Percentage(part: real, whole: real)
    requires part >= 0.0 && whole > 0.0
    ensures (part / whole) * 100.0 >= 0.0
    ensures (part / whole) * 100.0 == 100.0 * part / whole
    ensures (part / whole) * 100.0 == 0.0 <==> part == 0.0
  {
    var ratio := part / whole;
    assert ratio * whole == part;
  }

  /** The weighted combination 0.4 / 0.3 / 0.3, not clamped. */
  function OverallScore(s: Scores): real {
    0.4 * s.keywordRelevance + 0.3 * s.formatting + 0.3 * s.contentQuality
  }

  /** The weights sum to one, so the overall score lies between the smallest
      and the largest metric; it stays within [0, 100] when the metrics do. */
  lemma OverallBetweenMetrics(s: Scores, lo: real, hi: real)
    requires lo <= s.keywordRelevance <= hi && lo <= s.formatting <= hi && lo <= s.contentQuality <= hi
    ensures lo <= OverallScore(s) <= hi
  {
  }

  /** Nothing clamps the combination: a relevance above 100 carries through. */
  lemma OverallNotClamped()
    ensures OverallScore(Scores(150.0, 100.0, 100.0)) == 120.0
  {
  }

  /** What generate_feedback promises for `scores`: each metric key with its
      advice exactly when the metric is below its threshold, OverallKey with
      the praise exactly when none is, no other keys, no key twice, keys in
      insertion order. */
  predicate IsFeedbackFor(scores: Scores, feedback: Dict<FeedbackKey, string>) {
    var anyBelow := scores.keywordRelevance < 70.0 || scores.formatting < 80.0 || scores.contentQuality < 75.0;
    && DistinctKeys(feedback)
    && Get(feedback, KeywordRelevanceKey) == (if scores.keywordRelevance < 70.0 then Some(KeywordAdvice) else None)
    && Get(feedback, FormattingKey) == (if scores.formatting < 80.0 then Some(FormattingAdvice) else None)
    && Get(feedback, ContentQualityKey) == (if scores.contentQuality < 75.0 then Some(ContentAdvice) else None)
    && Get(feedback, OverallKey) == (if anyBelow then None else Some(OverallPraise))
    && (forall i, j | 0 <= i < j < |feedback| :: feedback[i].0.Rank() < feedback[j].0.Rank())
  }

  /** Feedback is never empty, and OverallKey never appears beside another key. */
  lemma FeedbackShape(scores: Scores, feedback: Dict<FeedbackKey, string>)
    requires IsFeedbackFor(scores, feedback)
    ensures |feedback| >= 1
    ensures HasKey(feedback, OverallKey) ==> |feedback| == 1
  {
    GetFindsKeys(feedback, KeywordRelevanceKey);
    GetFindsKeys(feedback, FormattingKey);
    GetFindsKeys(feedback, ContentQualityKey);
    GetFindsKeys(feedback, OverallKey);
    if HasKey(feedback, OverallKey) && |feedback| > 1 {
      assert false;
    }
  }

  /** Keywords distribute over whitespace: those of `a`, then those of `b`. */
  lemma ExtractKeywordsAroundSpace(a: string, c: char, b: string)
    requires IsSpace(c)
    ensures RankingService.ExtractKeywords(Some(a + [c] + b))
         == RankingService.ExtractKeywords(Some(a)) + RankingService.ExtractKeywords(Some(b))
  {
    var la, lb := Lower(a), Lower(b);
    assert Lower(a + [c] + b) == la + [c] + lb by {
      LowerAppend(a + [c], b);
      LowerAppend(a, [c]);
      assert Lower([c]) == [c];
    }
    WordsAroundSpace(la, c, lb);
    KeywordsOfAppend(Words(la), Words(lb));
    KeywordsOfLower(a);
    KeywordsOfLower(b);
  }

  /** Keyword extraction from a present text is KeywordsOf its lowercased
      words, the empty text included. */
  lemma KeywordsOfLower(a: string)
    ensures RankingService.ExtractKeywords(Some(a)) == KeywordsOf(Words(Lower(a)))
  {
    if a == [] {
      assert Lower(a) == [];
      assert Words([]) == [];
    }
  }

  /** A single word yields its lowercased, punctuation-stripped form when it
      is longer than two characters, and nothing otherwise. */
  lemma ExtractKeywordsOfWord(w: string)
    requires w != [] && NoSpace(w)
    ensures RankingService.ExtractKeywords(Some(w))
         == if |w| > 2 then [Strip(Lower(w), IsPunctuation)] else []
  {
    LowerKeepsSpaces(w);
    WordsOfWord(Lower(w));
  }

  /** A job description of whitespace only is truthy, so it is kept, yet it
      yields no keywords, and every resume then scores 0 for relevance. */
  lemma BlankDescriptionHasNoKeywords(service: RankingService, s: string)
    requires service.Valid() && service.jobDescription == Some(s)
    requires forall i | 0 <= i < |s| :: IsSpace(s[i])
    ensures service.keywordList == []
    ensures forall resume :: service.ScoreKeywordRelevance(resume) == 0.0
  {
    LowerKeepsSpaces(s);
    WordsOfBlank(Lower(s));
  }

  /** Length is tested before stripping, so a keyword may be shorter than
      three characters: "ab," gives "ab". */
  lemma StrippedKeywordMayBeShort()
    ensures RankingService.ExtractKeywords(Some("ab,")) == ["ab"]
  {
    var w := "ab,";
    ExtractKeywordsOfWord(w);
    assert Lower(w) == w by {
      LowerOfLowercase(w);
    }
    StripTrailingComma();
  }

  lemma StripTrailingComma()
    ensures Strip("ab,", IsPunctuation) == "ab"
  {
    var w := "ab,";
    assert !IsPunctuation('a') && !IsPunctuation('b') && IsPunctuation(',');
    assert LeadingCount(w, IsPunctuation) == 0;
    assert w[0..] == w && w[..2] == "ab";
    assert TrailingCount(w[..2], IsPunctuation) == 0;
    assert TrailingCount(w, IsPunctuation) == 1;
  }

  /** A word made of punctuation gives the empty keyword: "..." gives "". */
  lemma StrippedKeywordMayBeEmpty()
    ensures RankingService.ExtractKeywords(Some("...")) == [""]
  {
    var w := "...";
    ExtractKeywordsOfWord(w);
    assert Lower(w) == w by {
      LowerOfLowercase(w);
    }
    StripAllDots();
  }

  lemma StripAllDots()
    ensures Strip("...", IsPunctuation) == ""
  {
    var w := "...";
    var w1 := w[1..];
    var w2 := w1[1..];
    assert IsPunctuation('.');
    assert w2 == "." && w2[1..] == [];
    assert LeadingCount(w2, IsPunctuation) == 1;
    assert LeadingCount(w1, IsPunctuation) == 2;
    assert LeadingCount(w, IsPunctuation) == 3;
    assert w[3..] == [];
  }

  /** A repeated candidate word counts at every occurrence, so relevance can
      exceed 100: a lone keyword written twice scores 200. */
  lemma RelevanceCanExceedHundred(service: RankingService, w: string)
    requires service.keywordList == [w]
    requires w != [] && NoSpace(w)
    requires forall i | 0 <= i < |w| :: !('A' <= w[i] <= 'Z')
    ensures service.ScoreKeywordRelevance(w + " " + w) == 200.0
  {
    var text := w + " " + w;
    assert Lower(text) == text by {
      assert forall i | 0 <= i < |text| :: !('A' <= text[i] <= 'Z');
      LowerOfLowercase(text);
    }
    assert Words(text) == [w, w] by {
      assert text == w + [' '] + w;
      WordsAroundSpace(w, ' ', w);
      WordsOfWord(w);
    }
    var words := [w, w];
    assert MatchCount(words, [w]) == 2 by {
      assert words[..1] == [w];
      assert words[..1][..0] == [];
    }
  }

  /** Appending or prepending text never lowers the formatting score. */
  lemma FormattingNeverDrops(a: string, b: string)
    ensures RankingService.EvaluateFormatting(a) <= RankingService.EvaluateFormatting(a + b)
    ensures RankingService.EvaluateFormatting(b) <= RankingService.EvaluateFormatting(a + b)
  {
    LowerAppend(a, b);
    forall j | 0 <= j < |FormattingSections| && Contains(Lower(a), FormattingSections[j])
      ensures Contains(Lower(a + b), FormattingSections[j])
    {
      ContainsExtend(Lower(a), Lower(b), FormattingSections[j]);
    }
    forall j | 0 <= j < |FormattingSections| && Contains(Lower(b), FormattingSections[j])
      ensures Contains(Lower(a + b), FormattingSections[j])
    {
      ContainsExtend(Lower(b), Lower(a), FormattingSections[j]);
    }
    CountContainedMonotone(Lower(a), Lower(a + b), FormattingSections);
    CountContainedMonotone(Lower(b), Lower(a + b), FormattingSections);
  }
}
