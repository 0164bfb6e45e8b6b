/**
 * Score dictionaries and their ranking.
 *
 * A Python `dict` from symptom to score keeps insertion order. A
 * dictionary that is built key by key is a `Dict` (its key order and its
 * mapping); a dictionary that is only read is its `items()` list, in which
 * no symptom occurs twice. Ranking is `dict(sorted(d.items(), key=lambda item: item[1], reverse=True))`.
 */
module Ranking {
  import opened Sorting

  /** One `(symptom, score)` item of a score dictionary. */
  datatype Entry = Entry(symptom: string, score: real)

  /** The items of an ordered dictionary: no symptom occurs twice. */
  predicate IsDict(items: seq<Entry>) {
    forall i, j :: 0 <= i < j < |items| ==> items[i].symptom != items[j].symptom
  }

  /**
   * A Python `dict` from symptom to score that is built by assignment: its
   * keys in insertion order and the value of each key.
   */
  datatype Dict = Dict(order: seq<string>, values: map<string, real>)

  /** `{}`. */
  const EmptyDict := Dict([], map[])

  /** The keys are listed once each, and exactly the mapped keys are listed. */
  ghost predicate ValidDict(d: Dict) {
    && (forall i, j :: 0 <= i < j < |d.order| ==> d.order[i] != d.order[j])
    && (forall k :: k in d.values <==> k in d.order)
  }

  /** `d.get(k, default)`. */
  function Get(d: Dict, k: string, default: real): real {
    if k in d.values then d.values[k] else default
  }

  /**
   * `d[k] = v`: a new key goes to the end of the order, an existing key
   * keeps its place.
   */
  function Put(d: Dict, k: string, v: real): Dict {
    if k in d.values then d.(values := d.values[k := v])
    else Dict(d.order + [k], d.values[k := v])
  }

  /** Assignment keeps a dictionary well formed. */
  lemma PutValid(d: Dict, k: string, v: real)
    requires ValidDict(d)
    ensures ValidDict(Put(d, k, v))
  {
  }

  /** `list(d.items())`. */
  function Items(d: Dict): (items: seq<Entry>)
    requires ValidDict(d)
    ensures IsDict(items)
  {
    seq(|d.order|, i requires 0 <= i < |d.order| => Entry(d.order[i], d.values[d.order[i]]))
  }

  /** Assigning a new key appends one item. */
  lemma ItemsPutNew(d: Dict, k: string, v: real)
    requires ValidDict(d) && k !in d.values
    ensures ValidDict(Put(d, k, v)) && Items(Put(d, k, v)) == Items(d) + [Entry(k, v)]
  {
    PutValid(d, k, v);
  }

  /** `list(d.keys())` of a dictionary given by its items. */
  function Keys(items: seq<Entry>): seq<string> {
    seq(|items|, i requires 0 <= i < |items| => items[i].symptom)
  }

  /** The keys of a dictionary's items are its key order. */
  lemma ItemsKeys(d: Dict)
    requires ValidDict(d)
    ensures Keys(Items(d)) == d.order
  {
  }

  /** The order of the ranking sort: higher scores first. */
  predicate ScoreAbove(a: Entry, b: Entry) {
    a.score > b.score
  }

  predicate DifferentSymptom(a: Entry, b: Entry) {
    a.symptom != b.symptom
  }

  lemma ScoreAboveIsStrictWeakOrder()
    ensures StrictWeakOrder(ScoreAbove)
  {
  }

  lemma SortKeepsDict(items: seq<Entry>)
    ensures IsDict(items) ==> IsDict(Sort(items, ScoreAbove))
  {
    if IsDict(items) {
      SortPairwise(items, ScoreAbove, DifferentSymptom);
    }
  }

  /**
   * `dict(sorted(d.items(), key=lambda item: item[1], reverse=True))`: the
   * same items ordered by non-increasing score, still a dictionary.
   */
  function SortByScore(items: seq<Entry>): (r: seq<Entry>)
    ensures multiset(r) == multiset(items)
    ensures forall i, j :: 0 <= i < j < |r| ==> r[i].score >= r[j].score
    ensures IsDict(items) ==> IsDict(r)
  {
    ScoreAboveIsStrictWeakOrder();
    SortSorted(items, ScoreAbove);
    SortKeepsDict(items);
    Sort(items, ScoreAbove)
  }

  /**
   * Stability: for every `v`, the items whose score equals `v.score` keep
   * their relative order from before the sort.
   */
  lemma SortByScoreStable(items: seq<Entry>)
    ensures forall v :: Tied(SortByScore(items), v, ScoreAbove) == Tied(items, v, ScoreAbove)
  {
    ScoreAboveIsStrictWeakOrder();
    SortStable(items, ScoreAbove);
  }

  /** Tied with `v` under `ScoreAbove` means having the same score as `v`. */
  lemma {:induction false} TiedIsSameScore(items: seq<Entry>, v: Entry)
    ensures forall e :: e in Tied(items, v, ScoreAbove) <==> e in items && e.score == v.score
  {
    if items != [] {
      TiedIsSameScore(items[1..], v);
      assert items == [items[0]] + items[1..];
    }
  }

  /** Every element of the sorted items is one of the items (and back). */
  lemma SortByScoreMembers(items: seq<Entry>)
    ensures forall e :: e in SortByScore(items) <==> e in items
  {
    var r := SortByScore(items);
    forall e
      ensures e in r <==> e in items
    {
      assert e in r <==> e in multiset(r);
    }
  }

  /** Ranking keeps the keys. */
  lemma SortByScoreKeys(items: seq<Entry>)
    ensures forall k :: k in Keys(SortByScore(items)) <==> k in Keys(items)
  {
    var r := SortByScore(items);
    SortByScoreMembers(items);
    forall k
      ensures k in Keys(r) <==> k in Keys(items)
    {
      if k in Keys(r) {
        var i :| 0 <= i < |r| && Keys(r)[i] == k;
        assert r[i] in items;
        var j :| 0 <= j < |items| && items[j] == r[i];
        assert Keys(items)[j] == k;
      }
      if k in Keys(items) {
        var j :| 0 <= j < |items| && Keys(items)[j] == k;
        assert items[j] in r;
        var i :| 0 <= i < |r| && r[i] == items[j];
        assert Keys(r)[i] == k;
      }
    }
  }
}
