/** The per-query view: the animal-type filter over the loaded dataset and
    the derived columns added to the filtered frame. */
module Views {
  import opened Wrappers
  import opened Seqs
  import opened Dataset
  import opened Features
  import opened Translation

  /** The sidebar filter: with nothing selected the view is the whole
      dataset (`df.copy()`), otherwise the records whose animal type is one
      of the selected values (`isin`, under which a missing type matches a
      selected missing value). */
  function FilterByType(ds: seq<Record>, selected: seq<Option<string>>): (view: seq<Record>)
    ensures |selected| == 0 ==> view == ds
    ensures Subseq(view, ds)
    ensures |selected| > 0 ==> forall i :: 0 <= i < |view| ==> view[i].animalType in selected
    ensures |selected| > 0 ==>
              forall r :: multiset(view)[r] == if r.animalType in selected then multiset(ds)[r] else 0
  {
    if |selected| == 0 then
      SubseqReflexive(ds);
      ds
    else
      Filter(ds, (r: Record) => r.animalType in selected)
  }

  /** A view of a dataset is again a dataset. */
  lemma FilterKeepsDataset(ds: seq<Record>, selected: seq<Option<string>>)
    requires IsDataset(ds)
    ensures IsDataset(FilterByType(ds, selected))
  {
    var view := FilterByType(ds, selected);
    SubseqMultiset(view, ds);
    forall i | 0 <= i < |view|
      ensures HasOutcome(view[i]) && view[i].ageMonths == AgeParser.ParseAge(view[i].ageUponOutcome)
    {
      assert view[i] in multiset(view);
      assert view[i] in multiset(ds);
    }
  }

  /** The filter selects exactly the matching records: any order-preserving
      selection holding precisely the matching records is the view. */
  lemma FilterIsExactSelection(ds: seq<Record>, selected: seq<Option<string>>, other: seq<Record>)
    requires |selected| > 0
    requires Subseq(other, ds)
    requires forall r :: multiset(other)[r] == if r.animalType in selected then multiset(ds)[r] else 0
    ensures other == FilterByType(ds, selected)
  {
    FilterUnique(ds, (r: Record) => r.animalType in selected, other);
  }

  /** Selecting every type present gives the whole dataset back. */
  lemma FilterAllTypes(ds: seq<Record>, selected: seq<Option<string>>)
    requires forall i :: 0 <= i < |ds| ==> ds[i].animalType in selected
    ensures FilterByType(ds, selected) == ds
  {
    if |selected| > 0 {
      FilterAll(ds, (r: Record) => r.animalType in selected);
    }
  }

  /** A non-empty selection sharing no type with the dataset gives an empty
      view. */
  lemma FilterDisjointTypes(ds: seq<Record>, selected: seq<Option<string>>)
    requires |selected| > 0
    requires forall i :: 0 <= i < |ds| ==> ds[i].animalType !in selected
    ensures FilterByType(ds, selected) == []
  {
    FilterNone(ds, (r: Record) => r.animalType in selected);
  }

  /** A record of the view with its derived columns `age_group`, `is_mix`,
      `outcome_type_ua` and `sex_upon_outcome_ua`. */
  datatype Row = Row(
    record: Record,
    ageGroup: AgeGroup,
    isMix: string,
    outcomeLabel: Option<string>,
    sexLabel: Option<string>)

  function Derive(r: Record): Row {
    Row(r,
        ClassifyAge(r.ageMonths),
        CheckIsMix(r.breed),
        TranslateCell(OutcomeTranslation, r.outcomeType),
        TranslateCell(SexTranslation, r.sexUponOutcome))
  }

  /** The view with its derived columns, record for record. */
  function Enrich(view: seq<Record>): (rows: seq<Row>)
    ensures |rows| == |view|
    ensures forall i :: 0 <= i < |rows| ==> rows[i].record == view[i] && rows[i].isMix == "Yes"
    ensures forall i :: 0 <= i < |rows| ==>
              rows[i].ageGroup.Rank() == CountAtMost(Thresholds, view[i].ageMonths)
    ensures forall i :: 0 <= i < |rows| ==>
              rows[i].outcomeLabel == TranslateCell(OutcomeTranslation, view[i].outcomeType) &&
              rows[i].sexLabel == TranslateCell(SexTranslation, view[i].sexUponOutcome)
    ensures forall i :: 0 <= i < |rows| ==>
              (rows[i].outcomeLabel.Some? <==> HasOutcome(view[i])) &&
              (rows[i].sexLabel.Some? <==> view[i].sexUponOutcome.Some?)
  {
    seq(|view|, i requires 0 <= i < |view| => Derive(view[i]))
  }
}
