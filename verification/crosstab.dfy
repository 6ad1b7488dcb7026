/** `pd.crosstab(sex_label, outcome_label, normalize='index')`: for every
    translated sex status, the fraction of its records that ended in each
    translated outcome.  Records with either label missing are not counted. */
module Crosstab {
  import opened Wrappers
  import opened Seqs
  import opened Views

  type Pair = (string, string)

  /** The (sex label, outcome label) of each record that has both. */
  function LabelPairs(rows: seq<Row>): (ps: seq<Pair>)
    ensures forall s, o :: multiset(ps)[(s, o)] ==
              multiset(seq(|rows|, i requires 0 <= i < |rows| => PairOf(rows[i])))[Some((s, o))]
  {
    Present(seq(|rows|, i requires 0 <= i < |rows| => PairOf(rows[i])))
  }

  function PairOf(row: Row): Option<Pair> {
    if row.sexLabel.Some? && row.outcomeLabel.Some? then
      Some((row.sexLabel.value, row.outcomeLabel.value))
    else
      None
  }

  function Seconds(ps: seq<Pair>): (ss: seq<string>)
    ensures |ss| == |ps|
    ensures forall i :: 0 <= i < |ps| ==> ss[i] == ps[i].1
  {
    seq(|ps|, i requires 0 <= i < |ps| => ps[i].1)
  }

  /** One row of the normalised table. */
  datatype CrossRow = CrossRow(sex: string, total: nat, cells: seq<(string, real)>)

  /** Number of records with this sex label and this outcome label. */
  function PairCount(ps: seq<Pair>, s: string, o: string): nat {
    multiset(ps)[(s, o)]
  }

  /** The cells of the row for sex label `s`: one fraction per column. */
  function Cells(ps: seq<Pair>, s: string, total: nat, cols: seq<string>): (cells: seq<(string, real)>)
    requires total > 0
    ensures |cells| == |cols|
    ensures forall j :: 0 <= j < |cols| ==>
              cells[j] == (cols[j], PairCount(ps, s, cols[j]) as real / total as real)
    decreases |cols|
  {
    if |cols| == 0 then []
    else [(cols[0], PairCount(ps, s, cols[0]) as real / total as real)] + Cells(ps, s, total, cols[1..])
  }

  function Rows(ps: seq<Pair>, cols: seq<string>, sexes: Table<string>): (rows: seq<CrossRow>)
    requires forall i :: 0 <= i < |sexes| ==> sexes[i].1 > 0
    ensures |rows| == |sexes|
    ensures forall i :: 0 <= i < |rows| ==>
              rows[i] == CrossRow(sexes[i].0, sexes[i].1, Cells(ps, sexes[i].0, sexes[i].1, cols))
    decreases |sexes|
  {
    if |sexes| == 0 then []
    else
      [CrossRow(sexes[0].0, sexes[0].1, Cells(ps, sexes[0].0, sexes[0].1, cols))]
        + Rows(ps, cols, sexes[1..])
  }

  /** The outcome labels that occur in counted records, each once. */
  function Columns(ps: seq<Pair>): (cols: seq<string>)
    ensures Distinct(cols)
    ensures forall o :: o in cols <==> o in Seconds(ps)
  {
    Keys(Tally(Seconds(ps)))
  }

  /** The row-normalised table of the pairs `ps`. */
  function Normalise(ps: seq<Pair>): seq<CrossRow> {
    Rows(ps, Columns(ps), Tally(Keys(ps)))
  }

  /** `pd.crosstab(sex, outcome, normalize='index')`: one row per sex label
      with at least one counted record, and no other; each row's total is
      that label's record count, each cell the share of those records with
      the cell's outcome, and the cells of a row sum to one. */
  function CrossTab(rows: seq<Row>): (ct: seq<CrossRow>)
    ensures var ps := LabelPairs(rows);
            forall s :: (exists i :: 0 <= i < |ct| && ct[i].sex == s) <==> s in Keys(ps)
    ensures var ps := LabelPairs(rows);
            forall i :: 0 <= i < |ct| ==> ct[i].total == multiset(Keys(ps))[ct[i].sex] >= 1
    ensures var ps := LabelPairs(rows);
            forall i :: 0 <= i < |ct| ==>
              (|ct[i].cells| == |Columns(ps)| &&
               forall j :: 0 <= j < |ct[i].cells| ==>
                 ct[i].cells[j] == (Columns(ps)[j], PairCount(ps, ct[i].sex, Columns(ps)[j]) as real / ct[i].total as real))
    ensures forall i :: 0 <= i < |ct| ==> FractionSum(ct[i].cells) == 1.0
    ensures forall i, j :: 0 <= i < j < |ct| ==> ct[i].sex != ct[j].sex
  {
    var ps := LabelPairs(rows);
    assert Distinct(Keys(Tally(Keys(ps))));
    NormaliseRows(ps);
    NormaliseSumsToOne(ps);
    Normalise(ps)
  }

  // ------------------------------------------------------------ row sums

  function FractionSum(cells: seq<(string, real)>): real
    decreases |cells|
  {
    if |cells| == 0 then 0.0 else cells[0].1 + FractionSum(cells[1..])
  }

  /** Sum over the columns of the count for sex label `s`. */
  function RowCount(ps: seq<Pair>, s: string, cols: seq<string>): nat
    decreases |cols|
  {
    if |cols| == 0 then 0 else PairCount(ps, s, cols[0]) + RowCount(ps, s, cols[1..])
  }

  lemma {:induction false} CellsSum(ps: seq<Pair>, s: string, total: nat, cols: seq<string>)
    requires total > 0
    ensures FractionSum(Cells(ps, s, total, cols)) == RowCount(ps, s, cols) as real / total as real
    decreases |cols|
  {
    if |cols| > 0 {
      var cells := Cells(ps, s, total, cols);
      assert cells[1..] == Cells(ps, s, total, cols[1..]);
      CellsSum(ps, s, total, cols[1..]);
      AddFractions(PairCount(ps, s, cols[0]), RowCount(ps, s, cols[1..]), total);
    }
  }

  lemma AddFractions(a: nat, b: nat, n: nat)
    requires n > 0
    ensures a as real / n as real + b as real / n as real == (a + b) as real / n as real
  {
  }

  /** How many columns equal `o` (1 for a column of a distinct list). */
  function Hits(cols: seq<string>, o: string): nat
    decreases |cols|
  {
    if |cols| == 0 then 0 else (if cols[0] == o then 1 else 0) + Hits(cols[1..], o)
  }

  lemma {:induction false} HitsDistinct(cols: seq<string>, o: string)
    requires Distinct(cols)
    ensures Hits(cols, o) == if o in cols then 1 else 0
    decreases |cols|
  {
    if |cols| > 0 {
      DistinctCons(cols[0], cols[1..]);
      assert cols == [cols[0]] + cols[1..];
      HitsDistinct(cols[1..], o);
    }
  }

  /** Appending one pair adds one to the row of its sex label for every
      column equal to its outcome label. */
  lemma {:induction false} RowCountSnoc(ps: seq<Pair>, p: Pair, s: string, cols: seq<string>)
    ensures RowCount(ps + [p], s, cols) == RowCount(ps, s, cols) + (if p.0 == s then Hits(cols, p.1) else 0)
    decreases |cols|
  {
    if |cols| > 0 {
      assert multiset(ps + [p]) == multiset(ps) + multiset{p};
      RowCountSnoc(ps, p, s, cols[1..]);
    }
  }

  /** Summing a sex label's counts over all outcome columns gives the number
      of its records. */
  lemma {:induction false} RowCountIsTotal(ps: seq<Pair>, s: string, cols: seq<string>)
    requires Distinct(cols)
    requires forall i :: 0 <= i < |ps| ==> ps[i].1 in cols
    ensures RowCount(ps, s, cols) == multiset(Keys(ps))[s]
    decreases |ps|
  {
    if |ps| == 0 {
      RowCountEmpty(s, cols);
    } else {
      var init := ps[..|ps| - 1];
      var p := ps[|ps| - 1];
      assert ps == init + [p];
      assert Keys(ps) == Keys(init) + [p.0];
      RowCountIsTotal(init, s, cols);
      RowCountSnoc(init, p, s, cols);
      HitsDistinct(cols, p.1);
    }
  }

  lemma {:induction false} RowCountEmpty(s: string, cols: seq<string>)
    ensures RowCount([], s, cols) == 0
    decreases |cols|
  {
    if |cols| > 0 {
      RowCountEmpty(s, cols[1..]);
    }
  }

  // ------------------------------------------------------------ properties

  /** There is one row per sex label that has at least one counted pair,
      and none for any other; each row's total is that label's count. */
  lemma NormaliseRows(ps: seq<Pair>)
    ensures var ct := Normalise(ps);
            (forall i :: 0 <= i < |ct| ==> ct[i].total == multiset(Keys(ps))[ct[i].sex] >= 1)
            && (forall s :: (exists i :: 0 <= i < |ct| && ct[i].sex == s) <==> s in Keys(ps))
  {
    var t := Tally(Keys(ps));
    var ct := Normalise(ps);
    forall i | 0 <= i < |ct| ensures ct[i].total == multiset(Keys(ps))[ct[i].sex] >= 1 {
      EntryCount(t, i);
    }
    forall s ensures (exists i :: 0 <= i < |ct| && ct[i].sex == s) <==> s in Keys(ps) {
      if s in Keys(ps) {
        assert s in Keys(t);
        var i :| 0 <= i < |t| && Keys(t)[i] == s;
        assert ct[i].sex == s;
      }
    }
  }

  /** Every row's fractions sum to one. */
  lemma NormaliseSumsToOne(ps: seq<Pair>)
    ensures forall i :: 0 <= i < |Normalise(ps)| ==> FractionSum(Normalise(ps)[i].cells) == 1.0
  {
    var t := Tally(Keys(ps));
    var ct := Normalise(ps);
    forall i | 0 <= i < |ct| ensures FractionSum(ct[i].cells) == 1.0 {
      EntryCount(t, i);
      RowSumsToOne(ps, ct[i].sex);
    }
  }

  lemma RowSumsToOne(ps: seq<Pair>, s: string)
    requires multiset(Keys(ps))[s] > 0
    ensures FractionSum(Cells(ps, s, multiset(Keys(ps))[s], Columns(ps))) == 1.0
  {
    var cols := Columns(ps);
    var total := multiset(Keys(ps))[s];
    CellsSum(ps, s, total, cols);
    ColumnsCover(ps);
    RowCountIsTotal(ps, s, cols);
    assert RowCount(ps, s, cols) == total;
    SelfDivision(total);
  }

  lemma ColumnsCover(ps: seq<Pair>)
    ensures forall k :: 0 <= k < |ps| ==> ps[k].1 in Columns(ps)
  {
    forall k | 0 <= k < |ps| ensures ps[k].1 in Columns(ps) {
      assert Seconds(ps)[k] == ps[k].1;
    }
  }

  lemma SelfDivision(n: nat)
    requires n > 0
    ensures n as real / n as real == 1.0
  {
  }
}
