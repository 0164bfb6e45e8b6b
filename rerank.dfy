/**
 * The rule-based reranker `filter_and_rerank`: drops the candidates the
 * user's gender excludes, multiplies the others by the gender and age
 * boosts that apply to them, and ranks the result by score.
 */
module Rerank {
  import opened Optional
  import opened Sorting
  import opened Ranking

  /** A gender boost record: the gender it applies to (`rule.get("gender")`) and its factor. */
  datatype GenderBoost = GenderBoost(gender: Option<string>, factor: real)

  /** An age boost record: the minimum age it applies from and its factor. */
  datatype AgeBoost = AgeBoost(minAge: int, factor: real)

  /**
   * The rule tables of the model artefacts: the symptoms each gender
   * excludes, and the gender and age boost per symptom.
   */
  datatype Rules = Rules(
    genderRules: map<string, seq<string>>,
    genderBoostRules: map<string, GenderBoost>,
    ageBoostRules: map<string, AgeBoost>)

  /** The user profile handed to the reranker. */
  datatype User = User(age: int, gender: string)

  /** `GENDER_RULES.get(user["gender"], [])`. */
  function SymptomsToRemove(rules: Rules, user: User): seq<string> {
    if user.gender in rules.genderRules then rules.genderRules[user.gender] else []
  }

  predicate Excluded(rules: Rules, user: User, symptom: string) {
    symptom in SymptomsToRemove(rules, user)
  }

  /** The gender boost factor that applies to `symptom`, or 1. */
  function GenderFactor(rules: Rules, user: User, symptom: string): real {
    if symptom in rules.genderBoostRules && rules.genderBoostRules[symptom].gender == Some(user.gender)
    then rules.genderBoostRules[symptom].factor
    else 1.0
  }

  /** The age boost factor that applies to `symptom`, or 1. */
  function AgeFactor(rules: Rules, user: User, symptom: string): real {
    if symptom in rules.ageBoostRules && user.age >= rules.ageBoostRules[symptom].minAge
    then rules.ageBoostRules[symptom].factor
    else 1.0
  }

  /** The score of a kept candidate: gender boost first, then age boost. */
  function Boosted(rules: Rules, user: User, e: Entry): real {
    e.score * GenderFactor(rules, user, e.symptom) * AgeFactor(rules, user, e.symptom)
  }

  /** `final_recs` after the loop over the candidates `recs`. */
  function Personalised(recs: seq<Entry>, rules: Rules, user: User): Dict {
    if recs == [] then EmptyDict
    else
      var d := Personalised(recs[..|recs| - 1], rules, user);
      var e := recs[|recs| - 1];
      if Excluded(rules, user, e.symptom) then d else Put(d, e.symptom, Boosted(rules, user, e))
  }

  lemma {:induction false} PersonalisedValid(recs: seq<Entry>, rules: Rules, user: User)
    ensures ValidDict(Personalised(recs, rules, user))
  {
    if recs != [] {
      var d := Personalised(recs[..|recs| - 1], rules, user);
      var e := recs[|recs| - 1];
      PersonalisedValid(recs[..|recs| - 1], rules, user);
      PutValid(d, e.symptom, Boosted(rules, user, e));
    }
  }

  /** The reranked candidates: `final_recs` ranked by non-increasing score. */
  function Reranked(recs: seq<Entry>, rules: Rules, user: User): seq<Entry> {
    PersonalisedValid(recs, rules, user);
    SortByScore(Items(Personalised(recs, rules, user)))
  }

  /** `filter_and_rerank`. */
  method FilterAndRerank(recommendations: seq<Entry>, rules: Rules, user: User) returns (sortedRecs: seq<Entry>)
    ensures sortedRecs == Reranked(recommendations, rules, user)
  {
    var finalRecs := EmptyDict;
    for i := 0 to |recommendations|
      invariant finalRecs == Personalised(recommendations[..i], rules, user)
    {
      assert recommendations[..i + 1][..i] == recommendations[..i];
      var symptom, score := recommendations[i].symptom, recommendations[i].score;
      var symptomsToRemove := if user.gender in rules.genderRules then rules.genderRules[user.gender] else [];
      if symptom in symptomsToRemove {
        continue;
      }
      if symptom in rules.genderBoostRules {
        var rule := rules.genderBoostRules[symptom];
        if Some(user.gender) == rule.gender {
          score := score * rule.factor;
        }
      }
      assert score == recommendations[i].score * GenderFactor(rules, user, symptom);
      if symptom in rules.ageBoostRules {
        var rule := rules.ageBoostRules[symptom];
        if user.age >= rule.minAge {
          score := score * rule.factor;
        }
      }
      assert score == Boosted(rules, user, recommendations[i]);
      finalRecs := Put(finalRecs, symptom, score);
    }
    assert recommendations[..|recommendations|] == recommendations;
    PersonalisedValid(recommendations, rules, user);
    sortedRecs := SortByScore(Items(finalRecs));
  }

  // ---------------------------------------------------------------------
  // What reranking does, stated without the loop.

  /** The kept candidates with their boosted scores, in their original order. */
  function Kept(recs: seq<Entry>, rules: Rules, user: User): seq<Entry> {
    if recs == [] then []
    else
      var e := recs[|recs| - 1];
      Kept(recs[..|recs| - 1], rules, user)
      + if Excluded(rules, user, e.symptom) then [] else [Entry(e.symptom, Boosted(rules, user, e))]
  }

  /** A symptom is kept iff it is a candidate that the user's gender does not exclude. */
  lemma {:induction false} PersonalisedKeys(recs: seq<Entry>, rules: Rules, user: User)
    ensures forall k :: k in Personalised(recs, rules, user).values
                        <==> !Excluded(rules, user, k) && k in Keys(recs)
  {
    if recs != [] {
      var init := recs[..|recs| - 1];
      PersonalisedKeys(init, rules, user);
      forall k
        ensures k in Keys(recs) <==> k in Keys(init) || k == recs[|recs| - 1].symptom
      {
        if k in Keys(recs) {
          var i :| 0 <= i < |recs| && Keys(recs)[i] == k;
          if i < |init| {
            assert Keys(init)[i] == k;
          }
        }
        if k in Keys(init) {
          var i :| 0 <= i < |init| && Keys(init)[i] == k;
          assert Keys(recs)[i] == k;
        }
        if k == recs[|recs| - 1].symptom {
          assert Keys(recs)[|recs| - 1] == k;
        }
      }
    }
  }

  /**
   * For a candidate dictionary, `final_recs` lists the kept candidates in
   * their original order, each with its boosted score.
   */
  lemma {:induction false} PersonalisedItems(recs: seq<Entry>, rules: Rules, user: User)
    requires IsDict(recs)
    ensures ValidDict(Personalised(recs, rules, user)) && Items(Personalised(recs, rules, user)) == Kept(recs, rules, user)
  {
    PersonalisedValid(recs, rules, user);
    if recs != [] {
      var init, e := recs[..|recs| - 1], recs[|recs| - 1];
      PersonalisedItems(init, rules, user);
      PersonalisedValid(init, rules, user);
      if !Excluded(rules, user, e.symptom) {
        PersonalisedKeys(init, rules, user);
        ItemsPutNew(Personalised(init, rules, user), e.symptom, Boosted(rules, user, e));
      }
    }
  }

  /** The kept items are the boosted non-excluded candidates. */
  lemma {:induction false} KeptMembers(recs: seq<Entry>, rules: Rules, user: User)
    ensures forall e :: e in Kept(recs, rules, user) <==>
      exists r :: r in recs && !Excluded(rules, user, r.symptom) && e == Entry(r.symptom, Boosted(rules, user, r))
  {
    if recs != [] {
      var init := recs[..|recs| - 1];
      KeptMembers(init, rules, user);
      assert recs == init + [recs[|recs| - 1]];
    }
  }

  /**
   * Reranking keeps exactly the candidates the user's gender does not
   * exclude: it drops every excluded one, keeps every other one and adds
   * none.
   */
  lemma RerankedKeys(recs: seq<Entry>, rules: Rules, user: User)
    ensures forall k :: k in Keys(Reranked(recs, rules, user)) <==> k in Keys(recs) && !Excluded(rules, user, k)
  {
    PersonalisedValid(recs, rules, user);
    PersonalisedKeys(recs, rules, user);
    ItemsKeys(Personalised(recs, rules, user));
    SortByScoreKeys(Items(Personalised(recs, rules, user)));
  }

  /** A gender with no exclusion rule keeps every candidate. */
  lemma UnknownGenderKeepsAll(recs: seq<Entry>, rules: Rules, user: User)
    requires user.gender !in rules.genderRules
    ensures forall k :: k in Keys(Reranked(recs, rules, user)) <==> k in Keys(recs)
  {
    RerankedKeys(recs, rules, user);
  }

  /**
   * For a candidate dictionary, each reranked item is a kept candidate
   * with its boosted score, and every kept candidate appears so.
   */
  lemma RerankedScores(recs: seq<Entry>, rules: Rules, user: User)
    requires IsDict(recs)
    ensures forall e :: e in Reranked(recs, rules, user) <==>
      exists r :: r in recs && !Excluded(rules, user, r.symptom) && e == Entry(r.symptom, Boosted(rules, user, r))
  {
    PersonalisedItems(recs, rules, user);
    assert Reranked(recs, rules, user) == SortByScore(Kept(recs, rules, user));
    KeptMembers(recs, rules, user);
    SortByScoreMembers(Kept(recs, rules, user));
  }

  /**
   * The factors: a gender boost applies iff the rule names the user's
   * gender, an age boost iff the user is at least the minimum age; when
   * both apply they compound.
   */
  lemma BoostFactors(rules: Rules, user: User, e: Entry)
    ensures e.symptom in rules.genderBoostRules && rules.genderBoostRules[e.symptom].gender == Some(user.gender)
            && e.symptom in rules.ageBoostRules && user.age >= rules.ageBoostRules[e.symptom].minAge
            ==> Boosted(rules, user, e)
                == e.score * rules.genderBoostRules[e.symptom].factor * rules.ageBoostRules[e.symptom].factor
    ensures (e.symptom !in rules.genderBoostRules || rules.genderBoostRules[e.symptom].gender != Some(user.gender))
            && (e.symptom !in rules.ageBoostRules || user.age < rules.ageBoostRules[e.symptom].minAge)
            ==> Boosted(rules, user, e) == e.score
  {
  }

  /**
   * A kept candidate that both a gender boost and an age boost match
   * appears in the reranked output with its base score times the gender
   * factor times the age factor.
   */
  lemma BoostsCompoundInOutput(recs: seq<Entry>, rules: Rules, user: User, r: Entry)
    requires IsDict(recs) && r in recs && !Excluded(rules, user, r.symptom)
    requires r.symptom in rules.genderBoostRules && rules.genderBoostRules[r.symptom].gender == Some(user.gender)
    requires r.symptom in rules.ageBoostRules && user.age >= rules.ageBoostRules[r.symptom].minAge
    ensures Entry(r.symptom, r.score * rules.genderBoostRules[r.symptom].factor * rules.ageBoostRules[r.symptom].factor)
            in Reranked(recs, rules, user)
  {
    RerankedScores(recs, rules, user);
    BoostFactors(rules, user, r);
  }

  /**
   * The reranked candidates form a dictionary ranked by non-increasing
   * score, and candidates with equal scores keep their original order.
   */
  lemma RerankedRanked(recs: seq<Entry>, rules: Rules, user: User)
    requires IsDict(recs)
    ensures IsDict(Reranked(recs, rules, user))
    ensures forall i, j :: 0 <= i < j < |Reranked(recs, rules, user)| ==>
      Reranked(recs, rules, user)[i].score >= Reranked(recs, rules, user)[j].score
    ensures forall v :: Tied(Reranked(recs, rules, user), v, ScoreAbove) == Tied(Kept(recs, rules, user), v, ScoreAbove)
  {
    PersonalisedItems(recs, rules, user);
    SortByScoreStable(Kept(recs, rules, user));
  }

  /** A male user never sees a symptom excluded for males. */
  lemma MaleExclusionScenario()
    ensures var rules := Rules(map["male" := ["pregnancy_symptom"]], map[], map[]);
      "pregnancy_symptom" !in Keys(Reranked([Entry("pregnancy_symptom", 5.0)], rules, User(30, "male")))
  {
    var rules := Rules(map["male" := ["pregnancy_symptom"]], map[], map[]);
    var recs := [Entry("pregnancy_symptom", 5.0)];
    assert recs[..0] == [];
    assert Personalised(recs, rules, User(30, "male")) == EmptyDict;
  }

  /** An age boost of 1.5 from age 50 lifts a score of 2.0 to 3.0 at age 60. */
  lemma AgeBoostScenario()
    ensures var rules := Rules(map[], map[], map["joint_pain" := AgeBoost(50, 1.5)]);
      Reranked([Entry("joint_pain", 2.0)], rules, User(60, "female")) == [Entry("joint_pain", 3.0)]
  {
    var rules := Rules(map[], map[], map["joint_pain" := AgeBoost(50, 1.5)]);
    var recs := [Entry("joint_pain", 2.0)];
    var user := User(60, "female");
    assert recs[..0] == [];
    assert Boosted(rules, user, recs[0]) == 3.0;
    assert Personalised(recs, rules, user) == Dict(["joint_pain"], map["joint_pain" := 3.0]);
    assert Items(Personalised(recs, rules, user)) == [Entry("joint_pain", 3.0)];
  }
}
