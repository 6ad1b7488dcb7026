/** A worked example: two dogs and a cat, filtered to dogs. */
module Scenario {
  import opened Wrappers
  import opened Seqs
  import opened Dataset
  import opened Features
  import opened Views
  import opened Aggregates
  import opened AgeParser
  import opened Strings
  import opened Integers

  function Animal(id: string, outcome: string, kind: string, age: string): RawRow {
    RawRow([Some(id), None, None, Some(outcome), None, Some(kind), None, Some(age), None, None])
  }

  /** The sample file; the age texts are passed in so that the verifier
      does not evaluate the parser on them eagerly. */
  function Sample(age1: string, age2: string, age3: string): (raw: seq<RawRow>)
    ensures |raw| == 3 && forall i :: 0 <= i < |raw| ==> WellFormed(raw[i])
  {
    [ Animal("A1", "Adoption", "Dog", age1),
      Animal("A2", "Died", "Dog", age2),
      Animal("A3", "Adoption", "Cat", age3) ]
  }

  /** Filtering the sample to dogs keeps its first two records; with ages
      parsed as 12 and 2 months their mean is 7 months. */
  lemma DogsView(age1: string, age2: string, age3: string)
    requires ParseAge(Some(age1)) == 12 && ParseAge(Some(age2)) == 2
    ensures var view := FilterByType(Load(Sample(age1, age2, age3)), [Some("Dog")]);
            |view| == 2 && MeanAge(view) == Some(7.0)
    ensures var rows := Enrich(FilterByType(Load(Sample(age1, age2, age3)), [Some("Dog")]));
            && Total(OutcomeCounts(rows)) == 2
            && CountOf(OutcomeCounts(rows), "Усиновлення") == 1
            && CountOf(OutcomeCounts(rows), "Смерть") == 1
            && CountOf(AgeOutcomeCounts(rows), (YoungAdult, "Усиновлення")) == 1
            && CountOf(AgeOutcomeCounts(rows), (Junior, "Смерть")) == 1
  {
    var raw := Sample(age1, age2, age3);
    var ds := Renamed(raw);
    LoadCount(raw);
    assert Load(raw) == ds;
    DogsFirst(ds);
    var view := ds[..2];
    assert view == [ds[0], ds[1]];
    MeanOfTwo(ds[0], ds[1]);
    DogsCharts(ds[0], ds[1]);
  }

  /** An adopted 12-month-old and a 2-month-old that died: one slice each,
      one bar each in the young-adult and junior groups. */
  lemma DogsCharts(a: Record, b: Record)
    requires a.outcomeType == Some("Adoption") && a.ageMonths == 12
    requires b.outcomeType == Some("Died") && b.ageMonths == 2
    ensures var rows := Enrich([a, b]);
            && Total(OutcomeCounts(rows)) == 2
            && CountOf(OutcomeCounts(rows), "Усиновлення") == 1
            && CountOf(OutcomeCounts(rows), "Смерть") == 1
            && CountOf(AgeOutcomeCounts(rows), (YoungAdult, "Усиновлення")) == 1
            && CountOf(AgeOutcomeCounts(rows), (Junior, "Смерть")) == 1
  {
    var rows := Enrich([a, b]);
    var adopted := Some("Усиновлення");
    var died := Some("Смерть");
    assert rows[0].outcomeLabel == adopted && rows[1].outcomeLabel == died;
    assert rows[0].ageGroup == YoungAdult && rows[1].ageGroup == Junior;
    assert OutcomeLabels(rows) == [adopted, died];
    assert AgeOutcomeKeys(rows) == [Some((YoungAdult, adopted.value)), Some((Junior, died.value))];
  }

  lemma MeanOfTwo(a: Record, b: Record)
    ensures MeanAge([a, b]) == Some((a.ageMonths + b.ageMonths) as real / 2.0)
  {
    assert [a, b][1..] == [b];
    assert [b][1..] == [];
    assert SumAges([b]) == b.ageMonths + SumAges([]);
    assert SumAges([a, b]) == a.ageMonths + SumAges([b]);
    assert |[a, b]| as real == 2.0;
  }

  /** The same three animals, with the age texts "1 year", "2 months" and
      "10 years": the same view, mean and chart counts. */
  lemma DogsViewExample()
    ensures var view := FilterByType(Load(Sample("1 year", "2 months", "10 years")), [Some("Dog")]);
            |view| == 2 && MeanAge(view) == Some(7.0)
    ensures var rows := Enrich(FilterByType(Load(Sample("1 year", "2 months", "10 years")), [Some("Dog")]));
            && Total(OutcomeCounts(rows)) == 2
            && CountOf(OutcomeCounts(rows), "Усиновлення") == 1
            && CountOf(OutcomeCounts(rows), "Смерть") == 1
            && CountOf(AgeOutcomeCounts(rows), (YoungAdult, "Усиновлення")) == 1
            && CountOf(AgeOutcomeCounts(rows), (Junior, "Смерть")) == 1
  {
    ParseAgeYearExample();
    ParseAgeTwoMonthsExample();
    DogsView("1 year", "2 months", "10 years");
  }

  lemma DogsFirst(ds: seq<Record>)
    requires |ds| == 3
    requires ds[0].animalType == Some("Dog") && ds[1].animalType == Some("Dog")
    requires ds[2].animalType == Some("Cat")
    ensures FilterByType(ds, [Some("Dog")]) == ds[..2]
  {
    var p := (r: Record) => r.animalType in [Some("Dog")];
    assert !p(ds[2]);
    assert ds[1..][1..] == [ds[2]];
    assert Filter([ds[2]], p) == [];
    assert Filter(ds[1..], p) == [ds[1]];
  }
}
