/** The whole script for one selection: load, filter, derive, aggregate. */
module Pipeline {
  import opened Wrappers
  import opened Seqs
  import opened Dataset
  import opened Features
  import opened Views
  import opened Aggregates
  import AgeParser

  /** The enriched, filtered frame the charts are drawn from. */
  function Frame(raw: seq<RawRow>, selected: seq<Option<string>>): (rows: seq<Row>)
    requires forall i :: 0 <= i < |raw| ==> WellFormed(raw[i])
    ensures |rows| == |FilterByType(Load(raw), selected)| <= |raw|
    ensures forall i :: 0 <= i < |rows| ==> rows[i].outcomeLabel.Some? && rows[i].isMix == "Yes"
  {
    var view := FilterByType(Load(raw), selected);
    FilterKeepsDataset(Load(raw), selected);
    SubseqMultiset(view, Load(raw));
    assert |multiset(view)| <= |multiset(Load(raw))|;
    Enrich(view)
  }

  /** Both chart tables account for every record of the view exactly once:
      their counts sum to the record count shown in the overview. */
  lemma CountsSumToRecordCount(raw: seq<RawRow>, selected: seq<Option<string>>)
    requires forall i :: 0 <= i < |raw| ==> WellFormed(raw[i])
    ensures Total(OutcomeCounts(Frame(raw, selected))) == |FilterByType(Load(raw), selected)|
    ensures Total(AgeOutcomeCounts(Frame(raw, selected))) == |FilterByType(Load(raw), selected)|
  {
  }

  /** The bar chart refines the pie chart: a label's count is the sum of its
      counts over the four age groups. */
  lemma AgeGroupsPartitionOutcomes(rows: seq<Row>, l: string)
    ensures CountOf(OutcomeCounts(rows), l) ==
              CountOf(AgeOutcomeCounts(rows), (Junior, l)) + CountOf(AgeOutcomeCounts(rows), (YoungAdult, l))
              + CountOf(AgeOutcomeCounts(rows), (Adult, l)) + CountOf(AgeOutcomeCounts(rows), (Senior, l))
  {
    PartitionByGroup(rows, l);
  }

  lemma {:induction false} PartitionByGroup(rows: seq<Row>, l: string)
    ensures multiset(OutcomeLabels(rows))[Some(l)] ==
              multiset(AgeOutcomeKeys(rows))[Some((Junior, l))] + multiset(AgeOutcomeKeys(rows))[Some((YoungAdult, l))]
              + multiset(AgeOutcomeKeys(rows))[Some((Adult, l))] + multiset(AgeOutcomeKeys(rows))[Some((Senior, l))]
    decreases |rows|
  {
    var a := OutcomeLabels(rows);
    var b := AgeOutcomeKeys(rows);
    if |rows| > 0 {
      assert a[1..] == OutcomeLabels(rows[1..]);
      assert b[1..] == AgeOutcomeKeys(rows[1..]);
      PartitionByGroup(rows[1..], l);
      MultisetHead(a, Some(l));
      MultisetHead(b, Some((Junior, l)));
      MultisetHead(b, Some((YoungAdult, l)));
      MultisetHead(b, Some((Adult, l)));
      MultisetHead(b, Some((Senior, l)));
      HeadContribution(rows[0], a[0], b[0], l);
    } else {
      assert a == [];
      assert b == [];
    }
  }

  /** One row adds to its label's count exactly once across the groups. */
  lemma HeadContribution(row: Row, x: Option<string>, y: Option<(AgeGroup, string)>, l: string)
    requires x == row.outcomeLabel
    requires y == if row.outcomeLabel.Some? then Some((row.ageGroup, row.outcomeLabel.value)) else None
    ensures (if x == Some(l) then 1 else 0) ==
              (if y == Some((Junior, l)) then 1 else 0) + (if y == Some((YoungAdult, l)) then 1 else 0)
              + (if y == Some((Adult, l)) then 1 else 0) + (if y == Some((Senior, l)) then 1 else 0)
  {
    match row.ageGroup
    case Junior =>
    case YoungAdult =>
    case Adult =>
    case Senior =>
  }

  lemma MultisetHead<T>(s: seq<T>, x: T)
    requires |s| > 0
    ensures multiset(s)[x] == multiset(s[1..])[x] + (if s[0] == x then 1 else 0)
  {
    assert s == [s[0]] + s[1..];
  }
}
