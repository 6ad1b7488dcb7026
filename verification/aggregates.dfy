/** The read-only summaries behind the overview metrics and the three
    charts.  Rows whose grouping key is missing are not counted, as pandas
    drops NaN keys. */
module Aggregates {
  import opened Wrappers
  import opened Seqs
  import opened Dataset
  import opened Features
  import opened Views

  // ---------------------------------------------------------------- overview

  function SumAges(view: seq<Record>): int
    decreases |view|
  {
    if |view| == 0 then 0 else view[0].ageMonths + SumAges(view[1..])
  }

  /** `filtered_df['age_months'].mean()`, exactly; `None` is the NaN pandas
      returns for an empty view. */
  function MeanAge(view: seq<Record>): (mean: Option<real>)
    ensures mean.Some? <==> |view| > 0
    ensures mean.Some? ==> mean.value * (|view| as real) == SumAges(view) as real
  {
    if |view| == 0 then None else Some(SumAges(view) as real / |view| as real)
  }

  lemma {:induction false} SumAgesBounds(view: seq<Record>, lo: int, hi: int)
    requires forall i :: 0 <= i < |view| ==> lo <= view[i].ageMonths <= hi
    ensures lo * |view| <= SumAges(view) <= hi * |view|
    decreases |view|
  {
    if |view| > 0 {
      SumAgesBounds(view[1..], lo, hi);
    }
  }

  /** The mean lies between the smallest and the largest age of the view. */
  lemma MeanAgeBounds(view: seq<Record>, lo: int, hi: int)
    requires |view| > 0
    requires forall i :: 0 <= i < |view| ==> lo <= view[i].ageMonths <= hi
    ensures lo as real <= MeanAge(view).value <= hi as real
  {
    SumAgesBounds(view, lo, hi);
    MeanBetween(SumAges(view), |view|, lo, hi);
  }

  lemma MeanBetween(sum: int, k: int, lo: int, hi: int)
    requires k > 0
    requires lo * k <= sum <= hi * k
    ensures lo as real <= sum as real / k as real <= hi as real
  {
    var n := k as real;
    var m := sum as real / n;
    assert m * n == sum as real;
    RealOfProduct(lo, k);
    RealOfProduct(hi, k);
    CancelPositive(lo as real, m, n);
    CancelPositive(m, hi as real, n);
  }

  lemma RealOfProduct(a: int, b: int)
    ensures (a * b) as real == a as real * b as real
  {
  }

  lemma CancelPositive(a: real, b: real, n: real)
    requires n > 0.0
    requires a * n <= b * n
    ensures a <= b
  {
  }

  // ------------------------------------------------------ outcome distribution

  function OutcomeLabels(rows: seq<Row>): (labels: seq<Option<string>>)
    ensures |labels| == |rows|
    ensures forall i :: 0 <= i < |rows| ==> labels[i] == rows[i].outcomeLabel
  {
    seq(|rows|, i requires 0 <= i < |rows| => rows[i].outcomeLabel)
  }

  /** Records per translated outcome label, the pie chart's slices. */
  function OutcomeCounts(rows: seq<Row>): (t: Table<string>)
    ensures Distinct(Keys(t))
    ensures forall i :: 0 <= i < |t| ==> t[i].1 > 0
    ensures forall l :: CountOf(t, l) == multiset(OutcomeLabels(rows))[Some(l)]
    ensures Total(t) <= |rows|
    ensures (forall i :: 0 <= i < |rows| ==> rows[i].outcomeLabel.Some?) ==> Total(t) == |rows|
  {
    Tally(Present(OutcomeLabels(rows)))
  }

  // ------------------------------------------------- age group x outcome

  function AgeOutcomeKeys(rows: seq<Row>): (keys: seq<Option<(AgeGroup, string)>>)
    ensures |keys| == |rows|
    ensures forall i :: 0 <= i < |rows| ==>
              keys[i] == if rows[i].outcomeLabel.Some? then Some((rows[i].ageGroup, rows[i].outcomeLabel.value)) else None
  {
    seq(|rows|, i requires 0 <= i < |rows| =>
      match rows[i].outcomeLabel
      case Some(l) => Some((rows[i].ageGroup, l))
      case None => None)
  }

  /** Records per (age group, outcome label), the grouped bar chart's bars
      (`groupby(['age_group', 'outcome_type_ua']).size()`). */
  function AgeOutcomeCounts(rows: seq<Row>): (t: Table<(AgeGroup, string)>)
    ensures Distinct(Keys(t))
    ensures forall i :: 0 <= i < |t| ==> t[i].1 > 0
    ensures forall g, l :: CountOf(t, (g, l)) == multiset(AgeOutcomeKeys(rows))[Some((g, l))]
    ensures Total(t) <= |rows|
    ensures (forall i :: 0 <= i < |rows| ==> rows[i].outcomeLabel.Some?) ==> Total(t) == |rows|
  {
    Tally(Present(AgeOutcomeKeys(rows)))
  }
}
