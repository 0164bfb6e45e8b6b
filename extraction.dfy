/**
 * The symptom extractor: turns a free-text search term into canonical
 * symptom names (`extract_symptoms_from_search_terms`).
 *
 * An exact alias found among the ", "-separated pieces of the raw text wins
 * outright; otherwise every knowledge-base symptom with an alias whose fuzzy
 * partial-match score reaches the threshold is returned, in descending
 * lexicographic order.
 */
module Extraction {
  import opened Optional
  import opened Sorting
  import opened Text

  /** The threshold the pipeline uses (`confidence_threshold=70`). */
  const DefaultThreshold := 70

  /** `raw_text`: a `str`, or a value of any other type. */
  datatype SearchTerm = Str(text: string) | NonStr

  /** One knowledge-base item: a canonical symptom and its alias phrases. */
  datatype KbEntry = KbEntry(symptom: string, aliases: seq<string>)

  /** The knowledge base, in the dictionary's iteration order. */
  type KnowledgeBase = seq<KbEntry>

  /** Exact phrase to canonical symptom. */
  type AliasMap = map<string, string>

  /** `fuzz.partial_ratio(a, b)`, whose internals are not modelled. */
  type PartialRatio = (string, string) -> int

  /**
   * The loop over `raw_text.split(', ')`: the canonical symptom of the
   * first piece that is a key of the alias map, if any.
   */
  function FirstAliasHit(pieces: seq<string>, aliasMap: AliasMap): (r: Option<string>)
    ensures r.None? <==> forall i :: 0 <= i < |pieces| ==> pieces[i] !in aliasMap
    ensures r.Some? ==> exists i :: && 0 <= i < |pieces| && pieces[i] in aliasMap
                                    && r.value == aliasMap[pieces[i]]
                                    && forall j :: 0 <= j < i ==> pieces[j] !in aliasMap
  {
    if pieces == [] then None
    else if pieces[0] in aliasMap then Some(aliasMap[pieces[0]])
    else
      var r := FirstAliasHit(pieces[1..], aliasMap);
      assert forall i :: 1 <= i < |pieces| ==> pieces[i] == pieces[1..][i - 1];
      r
  }

  /** `sorted(aliases, key=len, reverse=True)` puts `a` before `b` when `a` is longer. */
  predicate LongerThan(a: string, b: string) {
    |a| > |b|
  }

  lemma LongerThanIsStrictWeakOrder()
    ensures StrictWeakOrder(LongerThan)
  {
  }

  /**
   * `sorted(aliases, key=len, reverse=True)`: the same aliases, longest
   * first, aliases of equal length in their original order.
   */
  function SortByLength(aliases: seq<string>): (r: seq<string>)
    ensures multiset(r) == multiset(aliases)
    ensures forall i, j :: 0 <= i < j < |r| ==> |r[i]| >= |r[j]|
  {
    LongerThanIsStrictWeakOrder();
    SortSorted(aliases, LongerThan);
    Sort(aliases, LongerThan)
  }

  /**
   * Stability: the aliases as long as any `v` (those tied with it) keep
   * their original relative order.
   */
  lemma SortByLengthStable(aliases: seq<string>)
    ensures forall v :: Tied(SortByLength(aliases), v, LongerThan) == Tied(aliases, v, LongerThan)
  {
    LongerThanIsStrictWeakOrder();
    SortStable(aliases, LongerThan);
  }

  /** `fuzz.partial_ratio(alias.lower(), clean_text)`. */
  function AliasScore(alias: string, cleanText: string, ratio: PartialRatio): int {
    ratio(Lower(alias), cleanText)
  }

  /** Some alias scores at least `threshold` against the cleaned text. */
  predicate AliasMatches(aliases: seq<string>, cleanText: string, ratio: PartialRatio, threshold: int) {
    exists a :: a in aliases && AliasScore(a, cleanText, ratio) >= threshold
  }

  /**
   * The set `found_symptoms` after the fuzzy loop over the knowledge base,
   * as a list without duplicates in the order the symptoms were added.
   */
  function MatchedSymptoms(kb: KnowledgeBase, cleanText: string, ratio: PartialRatio, threshold: int): (r: seq<string>)
    ensures Pairwise(r, Differ)
    ensures forall s :: s in r <==> exists i :: && 0 <= i < |kb| && kb[i].symptom == s
                                               && AliasMatches(kb[i].aliases, cleanText, ratio, threshold)
  {
    if kb == [] then []
    else
      var last := kb[|kb| - 1];
      var found := MatchedSymptoms(kb[..|kb| - 1], cleanText, ratio, threshold);
      assert forall i :: 0 <= i < |kb| - 1 ==> kb[i] == kb[..|kb| - 1][i];
      if AliasMatches(last.aliases, cleanText, ratio, threshold) && last.symptom !in found then
        found + [last.symptom]
      else
        found
  }

  lemma MatchedSymptomsStep(kb: KnowledgeBase, k: nat, cleanText: string, ratio: PartialRatio, threshold: int)
    requires k < |kb|
    ensures var found := MatchedSymptoms(kb[..k], cleanText, ratio, threshold);
      MatchedSymptoms(kb[..k + 1], cleanText, ratio, threshold)
      == if AliasMatches(kb[k].aliases, cleanText, ratio, threshold) && kb[k].symptom !in found
         then found + [kb[k].symptom] else found
  {
    assert kb[..k + 1][..k] == kb[..k];
  }

  /** Trying the aliases longest first finds a match exactly when one exists. */
  lemma SortedAliasesMatch(aliases: seq<string>, cleanText: string, ratio: PartialRatio, threshold: int)
    ensures AliasMatches(SortByLength(aliases), cleanText, ratio, threshold)
        <==> AliasMatches(aliases, cleanText, ratio, threshold)
  {
    var sorted := SortByLength(aliases);
    forall a
      ensures a in sorted <==> a in aliases
    {
      assert a in sorted <==> a in multiset(sorted);
    }
  }

  /** The normalised text the aliases are scored against: `raw_text.strip().lower()`. */
  function CleanText(text: string): string {
    Lower(Strip(text))
  }

  /** What `extract_symptoms_from_search_terms` returns. */
  function Extracted(raw: SearchTerm, kb: KnowledgeBase, aliasMap: AliasMap, ratio: PartialRatio, threshold: int): (r: seq<string>)
    ensures raw.NonStr? ==> r == []
    ensures StrictlyDescending(r)
  {
    match raw
    case NonStr => []
    case Str(text) =>
      match FirstAliasHit(Split(text), aliasMap)
      case Some(symptom) => [symptom]
      case None =>
        var found := MatchedSymptoms(kb, CleanText(text), ratio, threshold);
        SortDescendingStrict(found);
        SortDescending(found)
  }

  /**
   * Exact alias hit: when the `i`-th piece of `text.split(", ")` is the
   * first that is a key of the alias map, the result is exactly its
   * canonical symptom, whatever the knowledge base and the fuzzy matcher say.
   */
  lemma ExactAliasHit(text: string, kb: KnowledgeBase, aliasMap: AliasMap, ratio: PartialRatio, threshold: int, i: nat)
    requires i < |Split(text)| && Split(text)[i] in aliasMap
    requires forall j :: 0 <= j < i ==> Split(text)[j] !in aliasMap
    ensures Extracted(Str(text), kb, aliasMap, ratio, threshold) == [aliasMap[Split(text)[i]]]
  {
    var pieces := Split(text);
    var hit := FirstAliasHit(pieces, aliasMap);
    var k :| && 0 <= k < |pieces| && pieces[k] in aliasMap && hit.value == aliasMap[pieces[k]]
             && forall j :: 0 <= j < k ==> pieces[j] !in aliasMap;
    assert k == i;
  }

  /**
   * Fuzzy fallback: with no exact alias hit, a symptom is extracted iff one
   * of its aliases scores at least the threshold; the result has no
   * duplicates and is strictly descending.
   */
  lemma FuzzyFallback(text: string, kb: KnowledgeBase, aliasMap: AliasMap, ratio: PartialRatio, threshold: int)
    requires forall p :: p in Split(text) ==> p !in aliasMap
    ensures var r := Extracted(Str(text), kb, aliasMap, ratio, threshold);
      && StrictlyDescending(r)
      && forall s :: s in r <==> exists i :: && 0 <= i < |kb| && kb[i].symptom == s
                                             && AliasMatches(kb[i].aliases, CleanText(text), ratio, threshold)
  {
    var pieces := Split(text);
    assert forall i :: 0 <= i < |pieces| ==> pieces[i] in pieces;
    var found := MatchedSymptoms(kb, CleanText(text), ratio, threshold);
    SortDescendingStrict(found);
    var r := SortDescending(found);
    forall s
      ensures s in r <==> s in found
    {
      assert s in r <==> s in multiset(r);
    }
  }

  /**
   * The fallback result does not depend on the order in which the symptoms
   * were found: any strictly descending list of exactly the matching
   * symptoms is the result.
   */
  lemma FallbackIsCanonical(text: string, kb: KnowledgeBase, aliasMap: AliasMap, ratio: PartialRatio, threshold: int, r: seq<string>)
    requires forall p :: p in Split(text) ==> p !in aliasMap
    requires StrictlyDescending(r)
    requires forall s :: s in r <==> exists i :: && 0 <= i < |kb| && kb[i].symptom == s
                                                 && AliasMatches(kb[i].aliases, CleanText(text), ratio, threshold)
    ensures Extracted(Str(text), kb, aliasMap, ratio, threshold) == r
  {
    FuzzyFallback(text, kb, aliasMap, ratio, threshold);
    DescendingUnique(Extracted(Str(text), kb, aliasMap, ratio, threshold), r);
  }

  /**
   * The loop over `raw_text.split(', ')` that returns early on the first
   * piece that is a key of the alias map.
   */
  method FindExactAlias(pieces: seq<string>, aliasMap: AliasMap) returns (hit: Option<string>)
    ensures hit == FirstAliasHit(pieces, aliasMap)
  {
    for i := 0 to |pieces|
      invariant forall j :: 0 <= j < i ==> pieces[j] !in aliasMap
    {
      if pieces[i] in aliasMap {
        hit := Some(aliasMap[pieces[i]]);
        ghost var r := FirstAliasHit(pieces, aliasMap);
        assert r.Some?;
        ghost var k :| && 0 <= k < |pieces| && pieces[k] in aliasMap && r.value == aliasMap[pieces[k]]
                 && forall j :: 0 <= j < k ==> pieces[j] !in aliasMap;
        assert k == i;
        return;
      }
    }
    return None;
  }

  /**
   * The inner loop over one symptom's aliases, longest first: it stops at
   * the first alias that scores at least the threshold.
   */
  method MatchAliases(aliases: seq<string>, cleanText: string, ratio: PartialRatio, threshold: int)
    returns (matched: bool)
    ensures matched == AliasMatches(aliases, cleanText, ratio, threshold)
  {
    var sortedAliases := SortByLength(aliases);
    SortedAliasesMatch(aliases, cleanText, ratio, threshold);
    for j := 0 to |sortedAliases|
      invariant forall t :: 0 <= t < j ==> AliasScore(sortedAliases[t], cleanText, ratio) < threshold
    {
      var score := AliasScore(sortedAliases[j], cleanText, ratio);
      if score >= threshold {
        assert sortedAliases[j] in sortedAliases;
        return true;
      }
    }
    assert forall a :: a in sortedAliases ==> AliasScore(a, cleanText, ratio) < threshold;
    return false;
  }

  /**
   * The loop over the knowledge base that fills `found_symptoms`: a
   * symptom is added when one of its aliases matches.
   */
  method FuzzyMatch(kb: KnowledgeBase, cleanText: string, ratio: PartialRatio, threshold: int)
    returns (found: seq<string>)
    ensures found == MatchedSymptoms(kb, cleanText, ratio, threshold)
  {
    found := [];
    for k := 0 to |kb|
      invariant found == MatchedSymptoms(kb[..k], cleanText, ratio, threshold)
    {
      var entry := kb[k];
      MatchedSymptomsStep(kb, k, cleanText, ratio, threshold);
      var matched := MatchAliases(entry.aliases, cleanText, ratio, threshold);
      if matched && entry.symptom !in found {
        found := found + [entry.symptom];
      }
    }
    assert kb[..|kb|] == kb;
  }

  /**
   * `extract_symptoms_from_search_terms(raw_text, knowledge_base, ...)`:
   * a non-string yields nothing; an exact alias hit among the pieces of
   * the raw text wins; otherwise the fuzzy matches, sorted descending.
   */
  method ExtractSymptoms(raw: SearchTerm, kb: KnowledgeBase, aliasMap: AliasMap, ratio: PartialRatio,
                         threshold: int := DefaultThreshold)
    returns (symptoms: seq<string>)
    ensures symptoms == Extracted(raw, kb, aliasMap, ratio, threshold)
  {
    if raw.NonStr? {
      return [];
    }
    var text := raw.text;
    var cleanText := Lower(Strip(text));
    var pieces := Split(text);
    var hit := FindExactAlias(pieces, aliasMap);
    if hit.Some? {
      return [hit.value];
    }
    var found := FuzzyMatch(kb, cleanText, ratio, threshold);
    symptoms := SortDescending(found);
  }
}
