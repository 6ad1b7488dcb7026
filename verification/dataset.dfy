/** The load step: raw CSV rows under the original column names, the fixed
    column rename, the derived `age_months` column, and dropping every row
    whose outcome type is missing. */
module Dataset {
  import opened Wrappers
  import opened Seqs
  import AgeParser

  /** The header of the raw file, in column order. */
  const Header: seq<string> := [
    "AnimalID", "Name", "DateTime", "OutcomeType", "OutcomeSubtype",
    "AnimalType", "SexuponOutcome", "AgeuponOutcome", "Breed", "Color"
  ]

  /** The rename table: original column name to canonical name. */
  const ColumnRename: map<string, string> := map[
    "AnimalID" := "animal_id",
    "Name" := "name",
    "DateTime" := "date_time",
    "OutcomeType" := "outcome_type",
    "OutcomeSubtype" := "outcome_subtype",
    "AnimalType" := "animal_type",
    "SexuponOutcome" := "sex_upon_outcome",
    "AgeuponOutcome" := "age_upon_outcome",
    "Breed" := "breed",
    "Color" := "color"
  ]

  /** One row of the raw file: one cell per header column, `None` for an
      empty (NaN) cell. */
  datatype RawRow = RawRow(cells: seq<Option<string>>)

  /** The raw file has exactly the ten header columns in every row. */
  predicate WellFormed(row: RawRow) {
    |row.cells| == |Header|
  }

  /** One animal-outcome event under the canonical column names, with the
      derived `age_months`. */
  datatype Record = Record(
    animalId: Option<string>,
    name: Option<string>,
    dateTime: Option<string>,
    outcomeType: Option<string>,
    outcomeSubtype: Option<string>,
    animalType: Option<string>,
    sexUponOutcome: Option<string>,
    ageUponOutcome: Option<string>,
    breed: Option<string>,
    color: Option<string>,
    ageMonths: int)

  /** The text cell a record holds under a canonical column name; `None` for
      a name that is not a text column. */
  function Column(r: Record, column: string): Option<Option<string>> {
    if column == "animal_id" then Some(r.animalId)
    else if column == "name" then Some(r.name)
    else if column == "date_time" then Some(r.dateTime)
    else if column == "outcome_type" then Some(r.outcomeType)
    else if column == "outcome_subtype" then Some(r.outcomeSubtype)
    else if column == "animal_type" then Some(r.animalType)
    else if column == "sex_upon_outcome" then Some(r.sexUponOutcome)
    else if column == "age_upon_outcome" then Some(r.ageUponOutcome)
    else if column == "breed" then Some(r.breed)
    else if column == "color" then Some(r.color)
    else None
  }

  /** The renamed row with its `age_months` filled in. */
  function ToRecord(row: RawRow): (r: Record)
    requires WellFormed(row)
    ensures r.ageMonths == AgeParser.ParseAge(r.ageUponOutcome)
  {
    var c := row.cells;
    Record(c[0], c[1], c[2], c[3], c[4], c[5], c[6], c[7], c[8], c[9],
           AgeParser.ParseAge(c[7]))
  }

  predicate HasOutcome(r: Record) {
    r.outcomeType.Some?
  }

  /** The dataset invariant: every record has an outcome type and its
      `age_months` is the parse of its age text. */
  predicate IsDataset(ds: seq<Record>) {
    forall i :: 0 <= i < |ds| ==>
      HasOutcome(ds[i]) && ds[i].ageMonths == AgeParser.ParseAge(ds[i].ageUponOutcome)
  }

  function Renamed(rows: seq<RawRow>): (rs: seq<Record>)
    requires forall i :: 0 <= i < |rows| ==> WellFormed(rows[i])
    ensures |rs| == |rows|
    ensures forall i :: 0 <= i < |rows| ==> rs[i] == ToRecord(rows[i])
  {
    seq(|rows|, i requires 0 <= i < |rows| => ToRecord(rows[i]))
  }

  /** The loaded dataset: renamed rows, in file order, without those whose
      outcome type is missing. */
  function Load(rows: seq<RawRow>): (ds: seq<Record>)
    requires forall i :: 0 <= i < |rows| ==> WellFormed(rows[i])
    ensures IsDataset(ds)
    ensures |ds| <= |rows|
    ensures Subseq(ds, Renamed(rows))
    ensures forall r :: multiset(ds)[r] == if HasOutcome(r) then multiset(Renamed(rows))[r] else 0
  {
    Filter(Renamed(rows), HasOutcome)
  }

  /** Every original column reaches the record under its canonical name, with
      its cell unchanged. */
  lemma RenameKeepsCells(row: RawRow, i: nat)
    requires WellFormed(row)
    requires i < |Header|
    ensures Header[i] in ColumnRename
    ensures Column(ToRecord(row), ColumnRename[Header[i]]) == Some(row.cells[i])
  {
    var r := ToRecord(row);
    if i == 0 { assert ColumnRename[Header[i]] == "animal_id"; }
    else if i == 1 { assert ColumnRename[Header[i]] == "name"; }
    else if i == 2 { assert ColumnRename[Header[i]] == "date_time"; }
    else if i == 3 { assert ColumnRename[Header[i]] == "outcome_type"; }
    else if i == 4 { assert ColumnRename[Header[i]] == "outcome_subtype"; }
    else if i == 5 { assert ColumnRename[Header[i]] == "animal_type"; }
    else if i == 6 { assert ColumnRename[Header[i]] == "sex_upon_outcome"; }
    else if i == 7 { assert ColumnRename[Header[i]] == "age_upon_outcome"; }
    else if i == 8 { assert ColumnRename[Header[i]] == "breed"; }
    else { assert ColumnRename[Header[i]] == "color"; }
  }

  /** The rename covers exactly the ten header columns, one-to-one. */
  lemma RenameIsOneToOne()
    ensures forall h :: h in ColumnRename <==> h in Header
    ensures forall a, b :: a in ColumnRename && b in ColumnRename && a != b ==>
              ColumnRename[a] != ColumnRename[b]
  {
  }

  /** A row is kept exactly when it has an outcome type, and rows without
      one are the only ones lost. */
  lemma LoadCount(rows: seq<RawRow>)
    requires forall i :: 0 <= i < |rows| ==> WellFormed(rows[i])
    ensures (forall i :: 0 <= i < |rows| ==> HasOutcome(ToRecord(rows[i]))) ==> Load(rows) == Renamed(rows)
    ensures (forall i :: 0 <= i < |rows| ==> !HasOutcome(ToRecord(rows[i]))) ==> Load(rows) == []
  {
    if forall i :: 0 <= i < |rows| ==> HasOutcome(ToRecord(rows[i])) {
      FilterAll(Renamed(rows), HasOutcome);
    }
    if forall i :: 0 <= i < |rows| ==> !HasOutcome(ToRecord(rows[i])) {
      FilterNone(Renamed(rows), HasOutcome);
    }
  }
}
