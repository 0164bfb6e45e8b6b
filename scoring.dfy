/**
 * The similarity scorer, the part of `get_recommendations_pipeline` that
 * turns the extracted symptoms into ranked candidate next-symptoms.
 *
 * For each extracted symptom that is a column of the similarity matrix,
 * the column's affinities are added to a running total per row symptom,
 * skipping rows that are themselves extracted symptoms. Every total is then
 * divided by the number of extracted symptoms (skipped ones included), and
 * the candidates are ranked by score.
 */
module Scoring {
  import opened Optional
  import opened Sorting
  import opened Ranking

  /** One cell of a similarity column: a row symptom and its affinity. */
  datatype Cell = Cell(row: string, affinity: real)

  /** One column of the similarity matrix, its cells in row order. */
  datatype Column = Column(name: string, cells: seq<Cell>)

  /** The similarity matrix (`similarity_df`), its columns in order. */
  type Matrix = seq<Column>

  /**
   * `similarity_df[name]` when `name in similarity_df.columns`, and `None`
   * when it is not a column.
   */
  function ColumnCells(m: Matrix, name: string): (r: Option<seq<Cell>>)
    ensures r.None? <==> forall i :: 0 <= i < |m| ==> m[i].name != name
    ensures r.Some? ==> exists i :: 0 <= i < |m| && m[i].name == name && m[i].cells == r.value
  {
    if m == [] then None
    else if m[0].name == name then Some(m[0].cells)
    else
      assert forall i :: 1 <= i < |m| ==> m[i] == m[1..][i - 1];
      ColumnCells(m[1..], name)
  }

  /** The row symptoms of `cells`, in order. */
  function Rows(cells: seq<Cell>): seq<string> {
    if cells == [] then [] else Rows(cells[..|cells| - 1]) + [cells[|cells| - 1].row]
  }

  /** The sum of the affinities of the cells at row `k`. */
  function Total(cells: seq<Cell>, k: string): real {
    if cells == [] then 0.0
    else
      var last := cells[|cells| - 1];
      Total(cells[..|cells| - 1], k) + (if last.row == k then last.affinity else 0.0)
  }

  /** A row with no cell has total 0. */
  lemma {:induction false} TotalAbsent(cells: seq<Cell>, k: string)
    requires k !in Rows(cells)
    ensures Total(cells, k) == 0.0
  {
    if cells != [] {
      TotalAbsent(cells[..|cells| - 1], k);
    }
  }

  /** The cells whose row is not itself an extracted symptom, in order. */
  function Relevant(cells: seq<Cell>, extracted: seq<string>): seq<Cell> {
    if cells == [] then []
    else
      var last := cells[|cells| - 1];
      Relevant(cells[..|cells| - 1], extracted) + (if last.row in extracted then [] else [last])
  }

  /**
   * Every cell the scoring loop adds into the running totals while it
   * processes the symptoms `done`, in the order it adds them.
   */
  function Contributions(done: seq<string>, extracted: seq<string>, m: Matrix): seq<Cell> {
    if done == [] then []
    else
      Contributions(done[..|done| - 1], extracted, m) + ColumnContribution(m, done[|done| - 1], extracted)
  }

  /** The cells the scoring loop adds for the symptom `s`. */
  function ColumnContribution(m: Matrix, s: string, extracted: seq<string>): seq<Cell> {
    match ColumnCells(m, s)
    case None => []
    case Some(cells) => Relevant(cells, extracted)
  }

  /** The elements of `xs` in order of first occurrence, each once. */
  function Dedup(xs: seq<string>): seq<string> {
    if xs == [] then []
    else
      var d := Dedup(xs[..|xs| - 1]);
      if xs[|xs| - 1] in d then d else d + [xs[|xs| - 1]]
  }

  /** `Dedup` keeps every element and no other. */
  lemma {:induction false} DedupMembers(xs: seq<string>)
    ensures forall y :: y in Dedup(xs) <==> y in xs
  {
    if xs != [] {
      DedupMembers(xs[..|xs| - 1]);
      assert xs == xs[..|xs| - 1] + [xs[|xs| - 1]];
    }
  }

  /** `Dedup` keeps each element once. */
  lemma {:induction false} DedupDistinct(xs: seq<string>)
    ensures forall i, j :: 0 <= i < j < |Dedup(xs)| ==> Dedup(xs)[i] != Dedup(xs)[j]
  {
    if xs != [] {
      DedupDistinct(xs[..|xs| - 1]);
    }
  }

  /** Each key with its total divided by `n`. */
  function MeanScores(keys: seq<string>, cells: seq<Cell>, n: nat): seq<Entry>
    requires keys != [] ==> n > 0
  {
    seq(|keys|, i requires 0 <= i < |keys| => Entry(keys[i], Total(cells, keys[i]) / n as real))
  }

  lemma NoContributions(m: Matrix)
    ensures Dedup(Rows(Contributions([], [], m))) == []
  {
    assert Rows([]) == [];
  }

  /**
   * `final_scores` after the division loop: each candidate, in the order
   * it was first met, with its total divided by `len(extracted)`.
   */
  function Averaged(extracted: seq<string>, m: Matrix): seq<Entry> {
    var cells := Contributions(extracted, extracted, m);
    NoContributions(m);
    MeanScores(Dedup(Rows(cells)), cells, |extracted|)
  }

  /** `candidate_recs`: the averaged scores ranked by non-increasing score. */
  function CandidateScores(extracted: seq<string>, m: Matrix): seq<Entry> {
    SortByScore(Averaged(extracted, m))
  }

  /** `final_scores[c.row] = final_scores.get(c.row, 0) + c.affinity`. */
  function AddCell(d: Dict, c: Cell): Dict {
    Put(d, c.row, Get(d, c.row, 0.0) + c.affinity)
  }

  /** The dictionary after adding the cells in order. */
  function AddCells(d: Dict, cells: seq<Cell>): Dict {
    if cells == [] then d
    else AddCell(AddCells(d, cells[..|cells| - 1]), cells[|cells| - 1])
  }

  lemma AddCellsSnoc(d: Dict, cells: seq<Cell>, c: Cell)
    ensures AddCells(d, cells + [c]) == AddCell(AddCells(d, cells), c)
  {
    assert (cells + [c])[..|cells|] == cells;
  }

  lemma {:induction false} AddCellsAppend(d: Dict, a: seq<Cell>, b: seq<Cell>)
    ensures AddCells(d, a + b) == AddCells(AddCells(d, a), b)
  {
    if b == [] {
      assert a + b == a;
    } else {
      AddCellsAppend(d, a, b[..|b| - 1]);
      assert (a + b)[..|a + b| - 1] == a + b[..|b| - 1];
    }
  }

  /**
   * Adding the cells one by one into an empty dictionary maps exactly the
   * row symptoms of the cells, each to the sum of its affinities.
   */
  lemma {:induction false} AddCellsValues(cells: seq<Cell>)
    ensures var d := AddCells(EmptyDict, cells);
      forall k :: (k in d.values <==> k in Rows(cells)) && (k in d.values ==> d.values[k] == Total(cells, k))
  {
    if cells != [] {
      var init, c := cells[..|cells| - 1], cells[|cells| - 1];
      AddCellsValues(init);
      if c.row !in Rows(init) {
        TotalAbsent(init, c.row);
      }
    }
  }

  /** ... and lists those keys in order of first appearance. */
  lemma {:induction false} AddCellsOrder(cells: seq<Cell>)
    ensures AddCells(EmptyDict, cells).order == Dedup(Rows(cells))
  {
    if cells != [] {
      var init, c := cells[..|cells| - 1], cells[|cells| - 1];
      AddCellsOrder(init);
      AddCellsValues(init);
      DedupSnoc(Rows(init), c.row);
      DedupMembers(Rows(init));
    }
  }

  /** The dictionary the accumulation builds, in full. */
  lemma AddCellsTotals(cells: seq<Cell>)
    ensures var d := AddCells(EmptyDict, cells);
      && ValidDict(d)
      && d.order == Dedup(Rows(cells))
      && forall k :: k in d.values ==> d.values[k] == Total(cells, k)
  {
    AddCellsValues(cells);
    AddCellsOrder(cells);
    DedupMembers(Rows(cells));
    DedupDistinct(Rows(cells));
  }

  lemma DedupSnoc(xs: seq<string>, y: string)
    ensures Dedup(xs + [y]) == if y in Dedup(xs) then Dedup(xs) else Dedup(xs) + [y]
  {
    assert (xs + [y])[..|xs|] == xs;
  }

  lemma ContributionsStep(extracted: seq<string>, m: Matrix, i: nat)
    requires i < |extracted|
    ensures Contributions(extracted[..i + 1], extracted, m)
         == Contributions(extracted[..i], extracted, m) + ColumnContribution(m, extracted[i], extracted)
  {
    assert extracted[..i + 1][..i] == extracted[..i];
  }

  lemma RelevantStep(cells: seq<Cell>, extracted: seq<string>, j: nat)
    requires j < |cells|
    ensures Relevant(cells[..j + 1], extracted)
         == Relevant(cells[..j], extracted) + (if cells[j].row in extracted then [] else [cells[j]])
  {
    assert cells[..j + 1][..j] == cells[..j];
  }

  /**
   * The inner scoring loop over one similarity column: every row that is
   * not an extracted symptom has its affinity added to its running total.
   */
  method AccumulateColumn(finalScores: Dict, similarScores: seq<Cell>, extracted: seq<string>)
    returns (updated: Dict)
    ensures updated == AddCells(finalScores, Relevant(similarScores, extracted))
  {
    updated := finalScores;
    for j := 0 to |similarScores|
      invariant updated == AddCells(finalScores, Relevant(similarScores[..j], extracted))
    {
      RelevantStep(similarScores, extracted, j);
      var cell := similarScores[j];
      ghost var added := Relevant(similarScores[..j], extracted);
      if cell.row !in extracted {
        assert Relevant(similarScores[..j + 1], extracted) == added + [cell];
        AddCellsSnoc(finalScores, added, cell);
        updated := Put(updated, cell.row, Get(updated, cell.row, 0.0) + cell.affinity);
        assert updated == AddCell(AddCells(finalScores, added), cell);
      } else {
        assert Relevant(similarScores[..j + 1], extracted) == added;
      }
    }
    assert similarScores[..|similarScores|] == similarScores;
  }

  /**
   * The division loop: `final_scores[symptom] /= n` for every key. It
   * divides nothing when the dictionary is empty.
   */
  method DivideScores(finalScores: Dict, n: nat) returns (divided: Dict)
    requires ValidDict(finalScores)
    requires finalScores.order != [] ==> n > 0
    ensures divided.order == finalScores.order
    ensures divided.values.Keys == finalScores.values.Keys
    ensures forall k :: k in divided.values ==> divided.values[k] == finalScores.values[k] / n as real
  {
    divided := finalScores;
    for i := 0 to |finalScores.order|
      invariant divided.order == finalScores.order
      invariant divided.values.Keys == finalScores.values.Keys
      invariant forall t :: 0 <= t < i ==>
        divided.values[finalScores.order[t]] == finalScores.values[finalScores.order[t]] / n as real
      invariant forall t :: i <= t < |finalScores.order| ==>
        divided.values[finalScores.order[t]] == finalScores.values[finalScores.order[t]]
    {
      var symptom := divided.order[i];
      divided := Put(divided, symptom, divided.values[symptom] / n as real);
    }
  }

  /**
   * The scoring loops of `get_recommendations_pipeline`: accumulate
   * `final_scores`, divide each entry by `len(extracted)`, then rank.
   */
  method ScoreCandidates(extracted: seq<string>, m: Matrix) returns (candidates: seq<Entry>)
    ensures candidates == CandidateScores(extracted, m)
  {
    var finalScores := EmptyDict;
    for i := 0 to |extracted|
      invariant finalScores == AddCells(EmptyDict, Contributions(extracted[..i], extracted, m))
    {
      var column := ColumnCells(m, extracted[i]);
      ContributionsStep(extracted, m, i);
      ghost var done := Contributions(extracted[..i], extracted, m);
      if column.Some? {
        assert Contributions(extracted[..i + 1], extracted, m) == done + Relevant(column.value, extracted);
        AddCellsAppend(EmptyDict, done, Relevant(column.value, extracted));
        finalScores := AccumulateColumn(finalScores, column.value, extracted);
      } else {
        assert Contributions(extracted[..i + 1], extracted, m) == done;
      }
    }
    assert extracted[..|extracted|] == extracted;
    ghost var cells := Contributions(extracted, extracted, m);
    AddCellsTotals(cells);
    if extracted == [] {
      NoContributions(m);
    }
    finalScores := DivideScores(finalScores, |extracted|);
    assert ValidDict(finalScores);
    assert Items(finalScores) == Averaged(extracted, m);
    candidates := SortByScore(Items(finalScores));
  }

  // ---------------------------------------------------------------------
  // What the candidate scores are, stated without the loops.

  /** `similarity_df[s][k]`, or 0 when `s` is not a column. */
  function Affinity(m: Matrix, s: string, k: string): real {
    match ColumnCells(m, s)
    case None => 0.0
    case Some(cells) => Total(cells, k)
  }

  /** The affinity of `k` summed over the symptoms `done`. */
  function SumAffinities(done: seq<string>, m: Matrix, k: string): real {
    if done == [] then 0.0
    else SumAffinities(done[..|done| - 1], m, k) + Affinity(m, done[|done| - 1], k)
  }

  /** `k` is a row of the column of `s`. */
  ghost predicate Similar(m: Matrix, s: string, k: string) {
    ColumnCells(m, s).Some? && k in Rows(ColumnCells(m, s).value)
  }

  lemma {:induction false} RowsAppend(a: seq<Cell>, b: seq<Cell>)
    ensures Rows(a + b) == Rows(a) + Rows(b)
  {
    if b != [] {
      RowsAppend(a, b[..|b| - 1]);
      assert (a + b)[..|a + b| - 1] == a + b[..|b| - 1];
    } else {
      assert a + b == a;
    }
  }

  lemma {:induction false} TotalAppend(a: seq<Cell>, b: seq<Cell>, k: string)
    ensures Total(a + b, k) == Total(a, k) + Total(b, k)
  {
    if b != [] {
      TotalAppend(a, b[..|b| - 1], k);
      assert (a + b)[..|a + b| - 1] == a + b[..|b| - 1];
    } else {
      assert a + b == a;
    }
  }

  /** The kept cells have exactly the rows that are not extracted. */
  lemma {:induction false} RelevantRows(cells: seq<Cell>, extracted: seq<string>)
    ensures forall k :: k in Rows(Relevant(cells, extracted)) <==> k in Rows(cells) && k !in extracted
  {
    if cells != [] {
      var init, c := cells[..|cells| - 1], cells[|cells| - 1];
      RelevantRows(init, extracted);
      RowsAppend(Relevant(init, extracted), if c.row in extracted then [] else [c]);
    }
  }

  /** Skipping the extracted rows does not change a non-extracted total. */
  lemma {:induction false} RelevantTotal(cells: seq<Cell>, extracted: seq<string>, k: string)
    requires k !in extracted
    ensures Total(Relevant(cells, extracted), k) == Total(cells, k)
  {
    if cells != [] {
      var init, c := cells[..|cells| - 1], cells[|cells| - 1];
      RelevantTotal(init, extracted, k);
      TotalAppend(Relevant(init, extracted), if c.row in extracted then [] else [c], k);
    }
  }

  /** `k` is a row of the column of one of the symptoms `done`. */
  ghost predicate SimilarToAny(m: Matrix, done: seq<string>, k: string) {
    exists i :: 0 <= i < |done| && Similar(m, done[i], k)
  }

  lemma SimilarToAnySnoc(m: Matrix, done: seq<string>, k: string)
    requires done != []
    ensures SimilarToAny(m, done, k)
        <==> SimilarToAny(m, done[..|done| - 1], k) || Similar(m, done[|done| - 1], k)
  {
    var init := done[..|done| - 1];
    if SimilarToAny(m, done, k) {
      var i :| 0 <= i < |done| && Similar(m, done[i], k);
      if i < |init| {
        assert init[i] == done[i];
      }
    }
    if SimilarToAny(m, init, k) {
      var i :| 0 <= i < |init| && Similar(m, init[i], k);
      assert done[i] == init[i];
    }
  }

  /** The rows met while scoring: non-extracted rows of a present column. */
  lemma {:induction false} ContributionsRows(done: seq<string>, extracted: seq<string>, m: Matrix)
    ensures forall k :: k in Rows(Contributions(done, extracted, m)) <==> k !in extracted && SimilarToAny(m, done, k)
  {
    if done != [] {
      var init, s := done[..|done| - 1], done[|done| - 1];
      ContributionsRows(init, extracted, m);
      RowsAppend(Contributions(init, extracted, m), ColumnContribution(m, s, extracted));
      if ColumnCells(m, s).Some? {
        RelevantRows(ColumnCells(m, s).value, extracted);
      }
      forall k {
        SimilarToAnySnoc(m, done, k);
      }
    }
  }

  /** The running total of a non-extracted row is its summed affinity. */
  lemma {:induction false} ContributionsTotal(done: seq<string>, extracted: seq<string>, m: Matrix, k: string)
    requires k !in extracted
    ensures Total(Contributions(done, extracted, m), k) == SumAffinities(done, m, k)
  {
    if done != [] {
      var init, s := done[..|done| - 1], done[|done| - 1];
      ContributionsTotal(init, extracted, m, k);
      TotalAppend(Contributions(init, extracted, m), ColumnContribution(m, s, extracted), k);
      if ColumnCells(m, s).Some? {
        RelevantTotal(ColumnCells(m, s).value, extracted, k);
      }
    }
  }

  /**
   * The candidates are exactly the symptoms that are not themselves
   * extracted and are a row of the column of some extracted symptom.
   */
  lemma CandidateKeys(extracted: seq<string>, m: Matrix)
    ensures forall k :: k in Keys(CandidateScores(extracted, m)) <==> k !in extracted && SimilarToAny(m, extracted, k)
  {
    var cells := Contributions(extracted, extracted, m);
    ContributionsRows(extracted, extracted, m);
    DedupMembers(Rows(cells));
    assert Keys(Averaged(extracted, m)) == Dedup(Rows(cells));
    SortByScoreKeys(Averaged(extracted, m));
  }

  /** The scorer never recommends a symptom the user already has. */
  lemma NoSelfRecommendation(extracted: seq<string>, m: Matrix)
    ensures forall e :: e in CandidateScores(extracted, m) ==> e.symptom !in extracted
  {
    CandidateKeys(extracted, m);
    var r := CandidateScores(extracted, m);
    forall e | e in r
      ensures e.symptom !in extracted
    {
      var i :| 0 <= i < |r| && r[i] == e;
      assert Keys(r)[i] == e.symptom;
    }
  }

  /**
   * Each candidate's score is its affinity summed over the extracted
   * symptoms, divided by the number of extracted symptoms (those missing
   * from the matrix included).
   */
  lemma CandidateScore(extracted: seq<string>, m: Matrix)
    ensures forall e :: e in CandidateScores(extracted, m) ==>
      |extracted| > 0 && e.score == SumAffinities(extracted, m, e.symptom) / |extracted| as real
  {
    var cells := Contributions(extracted, extracted, m);
    var avg := Averaged(extracted, m);
    SortByScoreMembers(avg);
    NoSelfRecommendation(extracted, m);
    forall e | e in CandidateScores(extracted, m)
      ensures |extracted| > 0 && e.score == SumAffinities(extracted, m, e.symptom) / |extracted| as real
    {
      var i :| 0 <= i < |avg| && avg[i] == e;
      ContributionsTotal(extracted, extracted, m, e.symptom);
    }
  }

  /** With no extracted symptom there is no candidate (and no division). */
  lemma NoExtractedNoCandidates(m: Matrix)
    ensures CandidateScores([], m) == []
  {
  }

  /**
   * The candidates form a dictionary ranked by non-increasing score, and
   * candidates with equal scores keep the order in which they were first
   * met.
   */
  lemma CandidatesRanked(extracted: seq<string>, m: Matrix)
    ensures IsDict(CandidateScores(extracted, m))
    ensures forall i, j :: 0 <= i < j < |CandidateScores(extracted, m)| ==>
      CandidateScores(extracted, m)[i].score >= CandidateScores(extracted, m)[j].score
    ensures forall v :: Tied(CandidateScores(extracted, m), v, ScoreAbove) == Tied(Averaged(extracted, m), v, ScoreAbove)
  {
    var cells := Contributions(extracted, extracted, m);
    DedupDistinct(Rows(cells));
    SortByScoreStable(Averaged(extracted, m));
  }

  /** One extracted symptom with one similar row: that row, with its affinity. */
  lemma SingleColumnScenario()
    ensures CandidateScores(["fever"], [Column("fever", [Cell("cough", 0.8)])]) == [Entry("cough", 0.8)]
  {
    var m := [Column("fever", [Cell("cough", 0.8)])];
    var cells := Contributions(["fever"], ["fever"], m);
    assert ColumnCells(m, "fever") == Some([Cell("cough", 0.8)]);
    assert ["fever"][..0] == [];
    assert [Cell("cough", 0.8)][..0] == [];
    assert Relevant([Cell("cough", 0.8)], ["fever"]) == [Cell("cough", 0.8)];
    assert cells == [Cell("cough", 0.8)];
    assert Rows(cells) == ["cough"];
    assert Dedup(Rows(cells)) == ["cough"];
    assert Averaged(["fever"], m) == [Entry("cough", 0.8)];
  }
}
