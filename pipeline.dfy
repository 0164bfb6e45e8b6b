/**
 * The recommendation pipeline `get_recommendations_pipeline`: extract the
 * official symptoms from the search term, score the candidate next
 * symptoms, personalise them when both age and gender are given, and
 * return the first `top_n` of them.
 */
module Pipeline {
  import opened Optional
  import opened Sorting
  import opened Text
  import opened Ranking
  import opened Extraction
  import opened Scoring
  import opened Rerank

  /** The loaded model artefacts the pipeline reads. */
  datatype Artefacts = Artefacts(
    knowledgeBase: KnowledgeBase,
    aliasMap: AliasMap,
    rules: Rules,
    similarity: Matrix)

  /** The dictionary the pipeline returns. */
  datatype Recommendation = Recommendation(
    initialSearchTerm: SearchTerm,
    officialSymptoms: seq<string>,
    nextSymptoms: seq<string>)

  /**
   * Python's `s[:n]`: everything for `None`, the first `n` elements for
   * `n >= 0`, and all but the last `-n` elements for a negative `n`.
   */
  function SliceTo(s: seq<string>, n: Option<int>): (r: seq<string>)
    ensures r <= s
    ensures n.None? ==> r == s
    ensures n.Some? && n.value >= 0 ==> |r| == if n.value <= |s| then n.value else |s|
    ensures n.Some? && n.value < 0 ==> |r| == if |s| + n.value >= 0 then |s| + n.value else 0
  {
    match n
    case None => s
    case Some(k) =>
      if k >= 0 then (if k <= |s| then s[..k] else s)
      else (if |s| + k >= 0 then s[..|s| + k] else [])
  }

  /** The official symptoms extracted from the search term. */
  function OfficialSymptoms(term: SearchTerm, art: Artefacts, ratio: PartialRatio): seq<string> {
    Extracted(term, art.knowledgeBase, art.aliasMap, ratio, DefaultThreshold)
  }

  /** Personalisation happens iff both age and gender are given. */
  predicate Personalises(age: Option<int>, gender: Option<string>) {
    age.Some? && gender.Some?
  }

  /** The ranked candidates, personalised when both age and gender are given. */
  function RankedCandidates(term: SearchTerm, art: Artefacts, ratio: PartialRatio,
                            age: Option<int>, gender: Option<string>): seq<Entry>
  {
    var candidates := CandidateScores(OfficialSymptoms(term, art, ratio), art.similarity);
    if Personalises(age, gender) then Reranked(candidates, art.rules, User(age.value, gender.value))
    else candidates
  }

  /** The result of the pipeline. */
  function Recommended(term: SearchTerm, art: Artefacts, ratio: PartialRatio,
                       age: Option<int>, gender: Option<string>, topN: Option<int>): Recommendation
  {
    Recommendation(term, OfficialSymptoms(term, art, ratio),
                   SliceTo(Keys(RankedCandidates(term, art, ratio, age, gender)), topN))
  }

  /** `get_recommendations_pipeline`. */
  method RecommendationsPipeline(searchTerm: SearchTerm, art: Artefacts, ratio: PartialRatio,
                                 age: Option<int> := None, gender: Option<string> := None,
                                 topN: Option<int> := Some(5))
    returns (result: Recommendation)
    ensures result == Recommended(searchTerm, art, ratio, age, gender, topN)
  {
    var official := ExtractSymptoms(searchTerm, art.knowledgeBase, art.aliasMap, ratio);
    var candidateRecs := ScoreCandidates(official, art.similarity);
    if age.Some? && gender.Some? {
      var personalizedRecs := FilterAndRerank(candidateRecs, art.rules, User(age.value, gender.value));
      return Recommendation(searchTerm, official, SliceTo(Keys(personalizedRecs), topN));
    }
    return Recommendation(searchTerm, official, SliceTo(Keys(candidateRecs), topN));
  }

  // ---------------------------------------------------------------------
  // What the pipeline promises.

  /**
   * The result echoes the search term, and its official symptoms are in
   * strictly descending order (none for a search term that is not a string).
   */
  lemma EchoesSearchTerm(term: SearchTerm, art: Artefacts, ratio: PartialRatio,
                         age: Option<int>, gender: Option<string>, topN: Option<int>)
    ensures var res := Recommended(term, art, ratio, age, gender, topN);
      && res.initialSearchTerm == term
      && StrictlyDescending(res.officialSymptoms)
      && (term.NonStr? ==> res.officialSymptoms == [] && res.nextSymptoms == [])
  {
    if term.NonStr? {
      NoExtractedNoCandidates(art.similarity);
      var candidates := CandidateScores([], art.similarity);
      if Personalises(age, gender) {
        RerankedKeys(candidates, art.rules, User(age.value, gender.value));
      }
    }
  }

  /** `top_n = 0` recommends nothing. */
  lemma TopZeroIsEmpty(term: SearchTerm, art: Artefacts, ratio: PartialRatio,
                       age: Option<int>, gender: Option<string>)
    ensures Recommended(term, art, ratio, age, gender, Some(0)).nextSymptoms == []
  {
  }

  /**
   * The ranked candidates form a dictionary ordered by non-increasing
   * score, and the recommendations are its first keys.
   */
  lemma RecommendationsRanked(term: SearchTerm, art: Artefacts, ratio: PartialRatio,
                              age: Option<int>, gender: Option<string>, topN: Option<int>)
    ensures var ranked := RankedCandidates(term, art, ratio, age, gender);
      && IsDict(ranked)
      && (forall i, j :: 0 <= i < j < |ranked| ==> ranked[i].score >= ranked[j].score)
      && Recommended(term, art, ratio, age, gender, topN).nextSymptoms <= Keys(ranked)
  {
    var extracted := OfficialSymptoms(term, art, ratio);
    CandidatesRanked(extracted, art.similarity);
    if Personalises(age, gender) {
      RerankedRanked(CandidateScores(extracted, art.similarity), art.rules, User(age.value, gender.value));
    }
  }

  /** No recommendation repeats and none is already one of the user's symptoms. */
  lemma NoSelfOrRepeatedRecommendation(term: SearchTerm, art: Artefacts, ratio: PartialRatio,
                                       age: Option<int>, gender: Option<string>, topN: Option<int>)
    ensures var res := Recommended(term, art, ratio, age, gender, topN);
      && (forall i, j :: 0 <= i < j < |res.nextSymptoms| ==> res.nextSymptoms[i] != res.nextSymptoms[j])
      && (forall k :: k in res.nextSymptoms ==> k !in res.officialSymptoms)
  {
    var extracted := OfficialSymptoms(term, art, ratio);
    var candidates := CandidateScores(extracted, art.similarity);
    var ranked := RankedCandidates(term, art, ratio, age, gender);
    var next := Recommended(term, art, ratio, age, gender, topN).nextSymptoms;
    RecommendationsRanked(term, art, ratio, age, gender, topN);
    CandidateKeys(extracted, art.similarity);
    if Personalises(age, gender) {
      RerankedKeys(candidates, art.rules, User(age.value, gender.value));
    }
    forall i, j | 0 <= i < j < |next|
      ensures next[i] != next[j]
    {
      assert next[i] == Keys(ranked)[i] && next[j] == Keys(ranked)[j];
    }
    forall k | k in next
      ensures k !in extracted
    {
      var i :| 0 <= i < |next| && next[i] == k;
      assert Keys(ranked)[i] == k;
    }
  }

  /**
   * With both age and gender given, no recommendation is a symptom the
   * user's gender excludes.
   */
  lemma ExclusionHonoured(term: SearchTerm, art: Artefacts, ratio: PartialRatio,
                          age: int, gender: string, topN: Option<int>)
    ensures forall k :: k in Recommended(term, art, ratio, Some(age), Some(gender), topN).nextSymptoms ==>
      !Excluded(art.rules, User(age, gender), k)
  {
    var candidates := CandidateScores(OfficialSymptoms(term, art, ratio), art.similarity);
    var ranked := RankedCandidates(term, art, ratio, Some(age), Some(gender));
    var next := Recommended(term, art, ratio, Some(age), Some(gender), topN).nextSymptoms;
    RerankedKeys(candidates, art.rules, User(age, gender));
    forall k | k in next
      ensures !Excluded(art.rules, User(age, gender), k)
    {
      var i :| 0 <= i < |next| && next[i] == k;
      assert Keys(ranked)[i] == k;
    }
  }

  /**
   * Without age or without gender nothing is personalised: the
   * recommendations are the first keys of the plain candidate ranking.
   */
  lemma NoPartialPersonalisation(term: SearchTerm, art: Artefacts, ratio: PartialRatio,
                                 age: Option<int>, gender: Option<string>, topN: Option<int>)
    requires age.None? || gender.None?
    ensures Recommended(term, art, ratio, age, gender, topN).nextSymptoms
         == SliceTo(Keys(CandidateScores(OfficialSymptoms(term, art, ratio), art.similarity)), topN)
  {
  }
}
