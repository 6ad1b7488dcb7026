/** The two static display tables and the `.map(table).fillna(original)`
    idiom: a value that is a key is replaced by its label, any other value
    passes through unchanged. */
module Translation {
  import opened Wrappers

  /** `outcome_type_translation`. */
  const OutcomeTranslation: map<string, string> := map[
    "Adoption" := "Усиновлення",
    "Transfer" := "Передача іншому закладу",
    "Return_to_owner" := "Повернення власнику",
    "Euthanasia" := "Евтаназія",
    "Died" := "Смерть"
  ]

  /** `sex_translation`. */
  const SexTranslation: map<string, string> := map[
    "Intact Male" := "Некастрований самець",
    "Intact Female" := "Нестерилізована самка",
    "Neutered Male" := "Кастрований самець",
    "Spayed Female" := "Стерилізована самка",
    "Unknown" := "Невідомо"
  ]

  function Translate(table: map<string, string>, value: string): (shown: string)
    ensures value in table ==> shown == table[value] && shown in table.Values
    ensures value !in table ==> shown == value
  {
    if value in table then table[value] else value
  }

  /** One cell: a missing value stays missing (NaN maps to NaN and is
      filled with the original NaN). */
  function TranslateCell(table: map<string, string>, cell: Option<string>): (shown: Option<string>)
    ensures shown.Some? <==> cell.Some?
    ensures cell.Some? ==> shown.value == Translate(table, cell.value)
  {
    match cell
    case None => None
    case Some(v) => Some(Translate(table, v))
  }

  /** No label is itself a key of the table. */
  ghost predicate Closed(table: map<string, string>) {
    forall k :: k in table ==> table[k] !in table
  }

  /** Distinct keys have distinct labels. */
  ghost predicate Injective(table: map<string, string>) {
    forall a, b :: a in table && b in table && a != b ==> table[a] != table[b]
  }

  lemma OutcomeTableClosed()
    ensures Closed(OutcomeTranslation)
  {
  }

  lemma OutcomeTableInjective()
    ensures Injective(OutcomeTranslation)
  {
  }

  lemma SexTableClosed()
    ensures Closed(SexTranslation)
  {
  }

  lemma SexTableInjective()
    ensures Injective(SexTranslation)
  {
  }

  /** Translating an already translated value changes nothing. */
  lemma TranslateIdempotent(table: map<string, string>, value: string)
    requires Closed(table)
    ensures Translate(table, Translate(table, value)) == Translate(table, value)
  {
  }

  lemma TranslateCellIdempotent(table: map<string, string>, cell: Option<string>)
    requires Closed(table)
    ensures TranslateCell(table, TranslateCell(table, cell)) == TranslateCell(table, cell)
  {
  }

  /** With an injective table, translation loses no distinction between raw
      values that are not themselves labels. */
  lemma TranslateInjective(table: map<string, string>, a: string, b: string)
    requires Injective(table)
    requires a !in table.Values && b !in table.Values
    requires a != b
    ensures Translate(table, a) != Translate(table, b)
  {
  }

  lemma TranslateExamples()
    ensures Translate(OutcomeTranslation, "Adoption") == "Усиновлення"
    ensures Translate(OutcomeTranslation, "Partner") == "Partner"
    ensures Translate(SexTranslation, "Unknown") == "Невідомо"
    ensures Translate(SexTranslation, "Neutered") == "Neutered"
  {
  }
}
