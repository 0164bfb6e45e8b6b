# Symptom recommender: a Dafny model of the recommendation pipeline

This project models the core of the symptom recommender in
`app/Main_Recommender_System.py`. The recommender takes a free-text
symptom description. It returns the canonical symptoms found in the text,
plus a ranked list of likely next symptoms, personalised by age and gender.
The pipeline has three stages.

- **Extraction** (`extract_symptoms_from_search_terms`).
  - A search term that is not a string yields nothing.
  - An exact alias among the `", "`-separated pieces of the raw text wins
    outright.
  - Otherwise every knowledge-base symptom with an alias whose fuzzy
    partial-match score reaches the threshold (70) is extracted. Aliases are
    tried longest first. The result is sorted in descending lexicographic
    order.
- **Scoring** (the loops in `get_recommendations_pipeline`).
  - For every extracted symptom that is a column of the similarity matrix,
    the affinities of the rows that are not extracted symptoms are summed
    per row.
  - Each sum is divided by the number of extracted symptoms.
  - The candidates are ranked by non-increasing score with a stable sort.
- **Reranking** (`filter_and_rerank`).
  - Applied only when both age and gender are given.
  - Candidates excluded for the user's gender are dropped.
  - The others are multiplied by the matching gender boost and then the
    matching age boost, and ranked again.
  - The pipeline returns the first `top_n` keys.

Modules:

- `Optional`: the `Option` type.
- `Sorting`: Python's stable `sorted(..., reverse=True)` as a functional
  insertion sort, with proofs of permutation, order and stability.
- `Text`: `str.strip`, `str.lower`, `str.split(", ")` and string
  comparison.
- `Ranking`: insertion-ordered dictionaries, and ranking by score.
- `Extraction`, `Scoring`, `Rerank` and `Pipeline`: the three stages and
  the function that chains them.

Every loop of the source is a method. Each method is proved equal to a
specification function, or, for `Scoring.DivideScores`, given a contract
that states its whole result. The properties the recommender promises are
proved about those functions as lemmas.

Python's insertion-ordered `dict` appears in two forms:

- A dictionary that is built by assignment (`final_scores`,
  `final_recs`) is a `Ranking.Dict`, its key order together with its
  mapping. `d[k] = v` is `Put` and `d.get(k, 0)` is `Get`.
- A dictionary that is only read afterwards is the list of its items.

Scores are mathematical reals.

## Model

| member | source | states |
|---|---|---|
| Sorting.Sort | app/Main_Recommender_System.py:49 | `sorted` returns a permutation of its input (same multiset) |
| Sorting.SortSorted | app/Main_Recommender_System.py:43 | for a strict weak order, no element of the sorted list is placed after one it should precede |
| Sorting.SortStable | app/Main_Recommender_System.py:82 | `sorted` is stable: for every value, the elements tied with it keep their relative order |
| Sorting.SortPairwise | app/Main_Recommender_System.py:104 | a symmetric pairwise property of the input, such as "distinct keys", holds for the sorted output |
| Text.Lower | app/Main_Recommender_System.py:35 | `lower()` keeps the length, leaves no upper-case letter, maps each upper-case letter to its lower-case one and leaves every other character alone |
| Text.IsSpace | app/Main_Recommender_System.py:35 | defines the characters `str.isspace()` accepts, which `strip()` removes |
| Text.LeadingSpace | app/Main_Recommender_System.py:35 | the whitespace prefix that `strip()` removes: all of it is whitespace and the next character is not |
| Text.TrailingSpace | app/Main_Recommender_System.py:35 | the whitespace suffix that `strip()` removes, characterised the same way |
| Text.Strip | app/Main_Recommender_System.py:35 | `strip()` is a contiguous slice of the input, only whitespace lies outside it, and it neither starts nor ends with whitespace |
| Text.Split | app/Main_Recommender_System.py:36 | `split(', ')` gives at least one piece, joining the pieces with `", "` gives back the text, and no piece contains the separator |
| Text.LexIrreflexive | app/Main_Recommender_System.py:49 | no string is less than itself under Python's code-point order |
| Text.LexLess | app/Main_Recommender_System.py:49 | defines Python's `str` `<`: code-point lexicographic order, a proper prefix first |
| Text.LexTransitive | app/Main_Recommender_System.py:49 | the code-point order is transitive |
| Text.LexTotal | app/Main_Recommender_System.py:49 | any two different strings are ordered one way or the other |
| Text.LexAboveIsStrictWeakOrder | app/Main_Recommender_System.py:49 | descending string order is a strict weak order, so sorting by it is well defined |
| Text.LexAbove | app/Main_Recommender_System.py:49 | defines the order of `reverse=True` on strings: the greater string goes first |
| Text.SortDescendingStrict | app/Main_Recommender_System.py:49 | sorting a duplicate-free list in reverse gives the same members in strictly descending order |
| Text.SortDescending | app/Main_Recommender_System.py:49 | defines `sorted(found_symptoms, reverse=True)` as the stable sort in descending string order |
| Text.DescendingUnique | app/Main_Recommender_System.py:41-49 | two strictly descending lists with the same members are equal, so the order in which the set was filled does not matter |
| Extraction.FirstAliasHit | app/Main_Recommender_System.py:36-39 | no hit iff no piece is an alias; a hit is the canonical symptom of the first piece that is an alias |
| Extraction.FindExactAlias | app/Main_Recommender_System.py:37-39 | the early-return loop over the pieces finds exactly the first alias hit |
| Extraction.SortByLength | app/Main_Recommender_System.py:43 | the aliases sorted by length are a permutation of them, longest first |
| Extraction.LongerThan | app/Main_Recommender_System.py:43 | defines the order of `key=len, reverse=True`: a longer alias goes first |
| Extraction.SortByLengthStable | app/Main_Recommender_System.py:43 | aliases of equal length keep their original order |
| Extraction.AliasScore | app/Main_Recommender_System.py:45 | defines the score of one alias: the fuzzy matcher on the lower-cased alias and the cleaned text |
| Extraction.AliasMatches | app/Main_Recommender_System.py:44-47 | defines when a symptom is added: some alias scores at least the threshold |
| Extraction.SortedAliasesMatch | app/Main_Recommender_System.py:43-48 | trying the aliases longest first finds a match exactly when some alias matches |
| Extraction.MatchAliases | app/Main_Recommender_System.py:43-48 | the inner loop breaks at a matching alias iff some alias of the symptom scores at least the threshold |
| Extraction.MatchedSymptoms | app/Main_Recommender_System.py:41-48 | `found_symptoms` has no duplicates and holds a symptom iff one of its aliases scores at least the threshold |
| Extraction.MatchedSymptomsStep | app/Main_Recommender_System.py:42-48 | one pass of the knowledge-base loop adds the symptom exactly when it matches and is new |
| Extraction.CleanText | app/Main_Recommender_System.py:35 | defines `raw_text.strip().lower()`, the text the aliases are scored against |
| Extraction.FuzzyMatch | app/Main_Recommender_System.py:41-48 | the fuzzy loop over the knowledge base computes `found_symptoms` |
| Extraction.Extracted | app/Main_Recommender_System.py:30-50 | a non-string gives `[]`; every result is strictly descending |
| Extraction.ExactAliasHit | app/Main_Recommender_System.py:36-39 | when a piece of the raw text is an alias (the first such), the result is exactly its canonical symptom |
| Extraction.FuzzyFallback | app/Main_Recommender_System.py:41-50 | with no alias hit, a symptom is extracted iff one of its aliases scores at least the threshold, and the result is strictly descending without duplicates |
| Extraction.FallbackIsCanonical | app/Main_Recommender_System.py:41-50 | with no alias hit, the result is the unique strictly descending list of the matching symptoms |
| Extraction.ExtractSymptoms | app/Main_Recommender_System.py:30-50 | the extraction procedure returns exactly `Extracted`; the threshold defaults to 70 |
| Ranking.PutValid | app/Main_Recommender_System.py:99 | assignment keeps a dictionary's keys distinct and in step with its mapping |
| Ranking.Put | app/Main_Recommender_System.py:99 | defines `d[k] = v`: a new key is appended to the key order, an existing key keeps its place, and the key maps to `v` |
| Ranking.Get | app/Main_Recommender_System.py:99 | defines `d.get(k, default)` |
| Ranking.Items | app/Main_Recommender_System.py:82 | the items of a dictionary have distinct keys |
| Ranking.ItemsPutNew | app/Main_Recommender_System.py:80 | assigning a new key appends exactly one item at the end |
| Ranking.ItemsKeys | app/Main_Recommender_System.py:113 | the keys of a dictionary's items are its keys in insertion order |
| Ranking.Keys | app/Main_Recommender_System.py:113 | defines `list(d.keys())` of a dictionary given by its items |
| Ranking.SortByScore | app/Main_Recommender_System.py:104 | ranking is a permutation of the items, by non-increasing score, and keeps keys distinct |
| Ranking.ScoreAbove | app/Main_Recommender_System.py:82 | defines the order of `key=lambda item: item[1], reverse=True`: a higher score goes first |
| Ranking.SortByScoreStable | app/Main_Recommender_System.py:104 | items with equal scores keep their relative order |
| Ranking.TiedIsSameScore | app/Main_Recommender_System.py:104 | the items tied with `v` in the ranking order are exactly those with `v`'s score |
| Ranking.SortByScoreMembers | app/Main_Recommender_System.py:104 | ranking neither adds nor drops an item |
| Ranking.SortByScoreKeys | app/Main_Recommender_System.py:104 | ranking neither adds nor drops a key |
| Scoring.ColumnCells | app/Main_Recommender_System.py:95-96 | a column is found iff the matrix has a column of that name, and it is that column's cells |
| Scoring.Relevant | app/Main_Recommender_System.py:98 | defines the cells that are added: those whose row is not an extracted symptom, in order |
| Scoring.Contributions | app/Main_Recommender_System.py:94-98 | defines every cell the loops add, symptom by symptom, in order |
| Scoring.ColumnContribution | app/Main_Recommender_System.py:95-98 | defines the cells added for one extracted symptom: none without a column, else its relevant cells |
| Scoring.AddCell | app/Main_Recommender_System.py:99 | defines one accumulation step: the row's running total (0 if absent) plus the cell's affinity |
| Scoring.AddCells | app/Main_Recommender_System.py:99 | defines the dictionary after applying the accumulation step to each cell in order |
| Scoring.AddCellsAppend | app/Main_Recommender_System.py:93-99 | accumulating two batches of cells one after the other equals accumulating them together |
| Scoring.AddCellsValues | app/Main_Recommender_System.py:93-99 | the accumulated dictionary maps exactly the rows met, each to the sum of its affinities |
| Scoring.AddCellsOrder | app/Main_Recommender_System.py:93-99 | the accumulated keys are in order of first appearance |
| Scoring.AddCellsTotals | app/Main_Recommender_System.py:93-99 | the accumulated dictionary is well formed, ordered by first appearance and holds the sums |
| Scoring.DedupMembers | app/Main_Recommender_System.py:99 | the first-appearance order of the rows has exactly the rows as members |
| Scoring.DedupDistinct | app/Main_Recommender_System.py:99 | the first-appearance order lists each row once |
| Scoring.TotalAbsent | app/Main_Recommender_System.py:99 | a row that was never met has total 0, which is the `get` default |
| Scoring.RelevantRows | app/Main_Recommender_System.py:98 | the cells that are added are exactly those whose row is not an extracted symptom |
| Scoring.RelevantTotal | app/Main_Recommender_System.py:98-99 | skipping the extracted rows does not change the total of any other row |
| Scoring.ContributionsRows | app/Main_Recommender_System.py:94-98 | a row is met iff it is not extracted and is a row of the column of some extracted symptom |
| Scoring.ContributionsTotal | app/Main_Recommender_System.py:94-99 | the running total of a non-extracted row is its affinity summed over the extracted symptoms |
| Scoring.AccumulateColumn | app/Main_Recommender_System.py:96-99 | the inner loop adds every non-extracted row's affinity into the running totals |
| Scoring.DivideScores | app/Main_Recommender_System.py:101-102 | the division loop keeps the keys and their order and divides every value by `len(extracted)`, dividing nothing when there is no key |
| Scoring.MeanScores | app/Main_Recommender_System.py:101-102 | defines each key with its total divided by the number of extracted symptoms |
| Scoring.ScoreCandidates | app/Main_Recommender_System.py:93-104 | the scoring loops and the ranking compute exactly `CandidateScores` |
| Scoring.Averaged | app/Main_Recommender_System.py:93-102 | defines `final_scores` after the division loop: each candidate in first-appearance order, with its total divided by `len(extracted)` |
| Scoring.CandidateScores | app/Main_Recommender_System.py:104 | defines `candidate_recs`: the averaged scores ranked by non-increasing score (properties in the lemmas below) |
| Scoring.CandidateKeys | app/Main_Recommender_System.py:93-104 | a symptom is a candidate iff it is not extracted and is a row of the column of some extracted symptom |
| Scoring.NoSelfRecommendation | app/Main_Recommender_System.py:98 | no candidate is an extracted symptom |
| Scoring.CandidateScore | app/Main_Recommender_System.py:93-102 | each candidate's score is its summed affinity over all extracted symptoms (missing columns count as 0) divided by their number, which is then positive |
| Scoring.NoExtractedNoCandidates | app/Main_Recommender_System.py:101-104 | no extracted symptom gives no candidate and needs no division |
| Scoring.CandidatesRanked | app/Main_Recommender_System.py:104 | the candidates have distinct keys, are ordered by non-increasing score, and ties keep first-appearance order |
| Scoring.SingleColumnScenario | app/Main_Recommender_System.py:93-104 | one extracted symptom with a single similar row gives that row with its affinity |
| Rerank.PersonalisedValid | app/Main_Recommender_System.py:59-80 | `final_recs` is a well-formed dictionary |
| Rerank.SymptomsToRemove | app/Main_Recommender_System.py:63 | defines `GENDER_RULES.get(user["gender"], [])` |
| Rerank.Excluded | app/Main_Recommender_System.py:64 | defines the exclusion test: the symptom is listed for the user's gender |
| Rerank.GenderFactor | app/Main_Recommender_System.py:68-71 | defines the gender factor: the rule's factor when a rule exists and names the user's gender, else 1 |
| Rerank.AgeFactor | app/Main_Recommender_System.py:75-78 | defines the age factor: the rule's factor when a rule exists and the user is at least its minimum age, else 1 |
| Rerank.Boosted | app/Main_Recommender_System.py:67-78 | defines the boosted score: base times gender factor, then times age factor |
| Rerank.Personalised | app/Main_Recommender_System.py:59-80 | defines `final_recs`: the loop's assignments for every non-excluded candidate, in order |
| Rerank.Reranked | app/Main_Recommender_System.py:82 | defines `sorted_recs`: the items of `final_recs` ranked by non-increasing score |
| Rerank.FilterAndRerank | app/Main_Recommender_System.py:53-83 | the reranking loop and sort compute exactly `Reranked` |
| Rerank.PersonalisedKeys | app/Main_Recommender_System.py:60-80 | `final_recs` holds a key iff it is a candidate and the user's gender does not exclude it |
| Rerank.PersonalisedItems | app/Main_Recommender_System.py:60-80 | for a candidate dictionary, `final_recs` lists the kept candidates in their original order with boosted scores |
| Rerank.KeptMembers | app/Main_Recommender_System.py:60-80 | the kept items are exactly the non-excluded candidates with their boosted scores |
| Rerank.RerankedKeys | app/Main_Recommender_System.py:62-65 | reranking drops every excluded candidate, keeps every other one and adds none |
| Rerank.UnknownGenderKeepsAll | app/Main_Recommender_System.py:63 | a gender without exclusion rules keeps every candidate |
| Rerank.RerankedScores | app/Main_Recommender_System.py:67-80 | each reranked item is a kept candidate with its boosted score, and every kept candidate appears |
| Rerank.BoostFactors | app/Main_Recommender_System.py:67-78 | a matching gender boost and a matching age boost compound as base × gender factor × age factor; with neither, the score is unchanged |
| Rerank.BoostsCompoundInOutput | app/Main_Recommender_System.py:67-82 | a kept candidate matched by both a gender and an age boost appears in the reranked output with base × gender factor × age factor |
| Rerank.RerankedRanked | app/Main_Recommender_System.py:82 | the reranked items have distinct keys, are ordered by non-increasing score, and ties keep their original order |
| Rerank.MaleExclusionScenario | app/Main_Recommender_System.py:62-65 | with `{"male": ["pregnancy_symptom"]}`, a male user never gets `pregnancy_symptom` |
| Rerank.AgeBoostScenario | app/Main_Recommender_System.py:73-78 | an age boost of 1.5 from age 50 turns a score of 2.0 into 3.0 for a 60-year-old |
| Pipeline.SliceTo | app/Main_Recommender_System.py:113 | `[:top_n]` is a prefix: all for `None`, `min(n, len)` elements for `n >= 0`, and all but the last `-n` for negative `n` |
| Pipeline.RecommendationsPipeline | app/Main_Recommender_System.py:86-120 | the pipeline returns exactly `Recommended`; `age` and `gender` default to `None`, `top_n` to 5 and the threshold to 70 |
| Pipeline.Recommended | app/Main_Recommender_System.py:86-120 | defines the returned dictionary: the search term, the extracted symptoms, and the first `top_n` keys of the candidates, reranked iff age and gender are both given |
| Pipeline.Personalises | app/Main_Recommender_System.py:107 | defines the personalisation test: both age and gender are given |
| Pipeline.OfficialSymptoms | app/Main_Recommender_System.py:90 | defines the extractor call with the default threshold of 70 |
| Pipeline.RankedCandidates | app/Main_Recommender_System.py:104-109 | defines the ranking the keys come from: the reranked candidates when both age and gender are given, else the plain candidates |
| Pipeline.EchoesSearchTerm | app/Main_Recommender_System.py:110-112 | the result echoes the search term, its official symptoms are strictly descending, and a non-string term gives no symptoms and no recommendation |
| Pipeline.TopZeroIsEmpty | app/Main_Recommender_System.py:113 | `top_n = 0` recommends nothing |
| Pipeline.RecommendationsRanked | app/Main_Recommender_System.py:104-119 | the final ranking has distinct keys and non-increasing scores, and the recommendations are its first keys |
| Pipeline.NoSelfOrRepeatedRecommendation | app/Main_Recommender_System.py:98 | no recommendation repeats and none is an extracted symptom |
| Pipeline.ExclusionHonoured | app/Main_Recommender_System.py:107-113 | with age and gender given, no recommendation is excluded for the user's gender |
| Pipeline.NoPartialPersonalisation | app/Main_Recommender_System.py:107-120 | if age or gender is missing, the recommendations are the first keys of the plain candidate ranking |

## Left out

- `load_model_artefacts` (file and CSV loading, `print`) is left out. The artefacts are a parameter.
- The HTTP layer in `app/Main_Test_API.py` is left out. It only forwards its request fields to the pipeline.
- The internals of `fuzz.partial_ratio` are left out. The scorer is a function parameter, and its 0–100 range is not relied on.
- Language detection, translation and the plotting imports are unused by the core and left out.
- Floating-point rounding, NaN and infinities are not modelled. Scores are exact reals.
- Text.Lower: only ASCII letters are lower-cased. Python's full Unicode case mapping is not modelled.
- `found_symptoms` is a list without duplicates, in the order symptoms are added. A Python set has no defined order, but the result is sorted afterwards. `Text.DescendingUnique` shows that the order does not matter.
- Malformed rule records are not modelled. A boost rule without `boost_factor`, or an age rule without `min_age`, raises a `TypeError` in Python. Here every rule has both fields. A gender boost rule without a gender is modelled (`None`), and it never matches.
- A user age or gender of a type other than `int` or `str` is not modelled.
- Duplicate column names in the similarity matrix are not modelled: the first column of a name is used. A CSV read with a header row does not produce duplicate names.
- Rerank.RerankedScores, Rerank.PersonalisedItems, Rerank.RerankedRanked, Rerank.BoostsCompoundInOutput: stated only for a candidate mapping with distinct keys, which is what the pipeline passes. `Rerank.FilterAndRerank` itself handles any list of items exactly as `dict` assignment does.
- `top_n`: the code slices with `[:top_n]`. `None` keeps every key, `0` keeps none, and a negative `n` drops the last `-n` keys (all of them when `-n >= len`). `Pipeline.SliceTo` states exactly this.
