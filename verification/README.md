# Shelter-outcome analysis pipeline, modelled in Dafny

A model of the data pipeline inside the Streamlit script `app.py` of the
animal-analysis repository. The script loads a table of shelter-animal
outcomes. It gives the columns canonical names, parses the free-text age
into months and drops rows without an outcome. It then filters by animal
type and derives a life-stage bucket and a mixed-breed flag. Outcome and sex
status are translated into Ukrainian display labels. Finally it computes the
numbers behind the overview metrics and the three charts.

Everything is a pure function over immutable values:

- `Wrappers`: `Option`, which stands for a missing (NaN) cell.
- `Seqs`: generic pieces. `Filter` is an order-preserving boolean-mask
  selection. `Subseq` is the subsequence relation. `Tally` is a frequency
  table with keys in first-occurrence order. `Present` drops the missing
  values of a column.
- `Strings`: Python's `str.split()` with no arguments, and the substring
  test `sub in s`.
- `Integers`: Python's `int()` on one token, taken as an optional sign
  followed by ASCII digits.
- `AgeParser`: `parse_age`.
- `Dataset`: raw rows, the column rename, `age_months`, and the
  `dropna(subset=['outcome_type'])` load step.
- `Features`: `classify_age`, `age_order` and `check_is_mix`.
- `Translation`: the two display tables and the `.map(t).fillna(original)`
  idiom.
- `Views`: the animal-type filter and the derived columns.
- `Aggregates`: the record count, the mean age, the pie-chart counts and the
  age-group × outcome counts.
- `Crosstab`: the row-normalised sex × outcome table.
- `Pipeline`: the pipeline end to end, and how the aggregates relate.
- `Scenario`: a worked three-animal example.

Ages, counts and fractions use exact `int` and `real` arithmetic. Dafny's
`/` on `int` with divisor 4 is floor division, the same as Python's `//`.
`ScaleByUnit` states this independently of the operator:
`months * 4 <= num < months * 4 + 4`.

Three behaviours of the script deserve a note:

- The mixed-breed condition `'Mix' or '/' in breed_text` is always true,
  so `check_is_mix` returns `"Yes"` for every breed. `Features.CheckIsMix`
  models that literally; see Findings.
- `int()` accepts a sign, so `"-2 years"` gives -24 and ages can be
  negative (`ParseAgeNegativeExample`). The age is non-negative whenever
  the number has no minus sign (`ParseAgeNonNegative`).
- pandas returns NaN for the mean age of an empty view, which `MeanAge`
  models as `None`.

## Model

| member | source | states |
|---|---|---|
| Strings.Split | app.py:35 | `str.split()` yields only non-empty, whitespace-free tokens, never more tokens than characters; `SplitSpaced` pins down which tokens |
| Strings.SplitSkipsSpace | app.py:35 | leading whitespace of any kind and length produces no token |
| Strings.SplitSpaced | app.py:35 | words laid out with any whitespace runs between them, and any whitespace before and after, split back into exactly those words |
| Strings.SplitJoin | app.py:35 | splitting space-joined words gives exactly those words back |
| Strings.SplitWord | app.py:35 | a word followed by whitespace or by nothing is split off as the first token |
| Strings.Contains | app.py:38-42 | the substring test `unit in ...` holds exactly when the word occurs at some position of the unit |
| Integers.ParseInt | app.py:36 | `int()` fails on the empty token; a token without a leading minus never parses to a negative number |
| Integers.ParseShowInt | app.py:36 | `int(str(i)) == i` for every integer `i`, negative ones included (up to Python's digit limit, see Left out) |
| Integers.LeadingZero | app.py:36 | leading zeros do not change the parsed value |
| Integers.ParseIntRejects | app.py:36 | a character that is neither a digit nor a leading sign, or a lone sign, makes `int()` fail |
| AgeParser.ScaleByUnit | app.py:38-44 | priority year > month > week by substring; years ×12, months unchanged, weeks floor-divided by 4, any other unit 0 |
| AgeParser.ParseAge | app.py:32-46 | 0 for a missing cell, for fewer than two tokens, and for a first token `int()` rejects |
| AgeParser.ParseAgeNonNegative | app.py:33-46 | the result is never negative unless the number is written with a minus sign |
| AgeParser.ParseAgeWellFormed | app.py:35-44 | for every integer `n` and one-word unit, `"<n> <unit>"` gives the unit transform of `n` |
| AgeParser.ParseAgeAnySpacing | app.py:35-44 | the reading of `n` and a one-word unit is the same whatever whitespace surrounds and separates them |
| AgeParser.ParseAgeTabExample | app.py:35-38 | `" 2\tyears"` gives 24 |
| AgeParser.ParseAgeIgnoresExtraTokens | app.py:35-37 | for any text with at least two tokens, whatever its whitespace, the result equals that of its first two tokens alone: later tokens never change it |
| AgeParser.NotContains | app.py:38-42 | a unit with no position holding the unit word's first letter does not match that unit |
| AgeParser.ContainsAtStart | app.py:38-42 | a unit that starts with the unit word matches it |
| AgeParser.ParseAgeYearsExample | app.py:38-39 | `"2 years"` is 24 months |
| AgeParser.ParseAgeNegativeExample | app.py:36-39 | `"-2 years"` is -24 months |
| AgeParser.ParseAgeYearExample | app.py:38-39 | `"1 year"` is 12 months |
| AgeParser.ParseAgeMonthsExample | app.py:40-41 | `"3 months"` is 3 months |
| AgeParser.ParseAgeTwoMonthsExample | app.py:40-41 | `"2 months"` is 2 months |
| AgeParser.ParseAgeFourWeeksExample | app.py:42-43 | `"4 weeks"` is 1 month |
| AgeParser.ParseAgeThreeWeeksExample | app.py:42-43 | `"3 weeks"` is 0 months |
| AgeParser.ParseAgeDaysExample | app.py:38-44 | `"2 days"` matches no unit and is 0 months |
| AgeParser.ParseAgeMalformedExample | app.py:33-46 | `"banana"`, the empty text and a missing cell are all 0 months |
| Dataset.ToRecord | app.py:19-30 | the renamed record's `age_months` is the parse of its own age text |
| Dataset.Renamed | app.py:19-30 | renaming keeps every row, in order |
| Dataset.RenameKeepsCells | app.py:19-30 | each original column reaches the record under its canonical name with its cell unchanged |
| Dataset.RenameIsOneToOne | app.py:19-30 | the rename covers exactly the ten header columns and sends distinct columns to distinct names |
| Dataset.Load | app.py:48-49 | the result is a subsequence of the renamed rows and keeps exactly those with an outcome type; it is never longer than the input; every kept record has an outcome and its parsed age |
| Dataset.LoadCount | app.py:49 | if every row has an outcome, all are kept; if none does, none is |
| Seqs.Filter | app.py:62 | a boolean-mask selection is an order-preserving subsequence holding exactly the matching elements with their multiplicities |
| Seqs.FilterUnique | app.py:62 | no other order-preserving selection of exactly the matching elements exists |
| Seqs.Present | app.py:126 | dropping missing keys keeps each present value's multiplicity, and loses nothing when no key is missing |
| Seqs.Tally | app.py:126 | `size()` per key: keys distinct and exactly the values occurring, each count positive and equal to the number of occurrences, counts summing to the input length |
| Seqs.Bump | app.py:126 | counting one more occurrence raises that key's count and the table total by one |
| Seqs.EntryCount | app.py:126 | in a table with distinct keys, each entry holds its key's count |
| Features.ClassifyAge | app.py:74-82 | the bucket's rank is the number of thresholds 12, 36, 96 already reached; its label sits at that rank in `age_order` |
| Features.ClassifyAgeBoundaries | app.py:74-82 | 11 is Junior, 12 and 35 Young adult, 36 and 95 Adult, 96 Senior; 0 and negative ages are Junior |
| Features.ClassifyAgeMonotone | app.py:74-82 | an older animal is never in an earlier bucket |
| Features.AgeOrderListsEveryGroupOnce | app.py:122 | every bucket's label occurs exactly once in `age_order`, at the bucket's rank, and some age reaches every bucket |
| Features.CheckIsMix | app.py:85-88 | as written, the flag is `"Yes"` for every breed, a missing one included |
| Features.IntendedIsMix | app.py:85-88 | the intended test: `Mix` occurs in the breed or some character is `/` |
| Features.CheckIsMixOverapproximates | app.py:85-88 | the code agrees with the intended test exactly on the breeds that test calls mixed |
| Features.IntendedIsMixExamples | app.py:85-88 | "Labrador Mix" and "Labrador/Poodle" are mixed and "Labrador" is not, yet the code flags "Labrador" `"Yes"` |
| Translation.Translate | app.py:107-115 | a table key gets its label, which is one of the table's labels; any other value passes through unchanged |
| Translation.TranslateCell | app.py:115 | a missing cell stays missing; a present one is translated |
| Translation.OutcomeTableClosed | app.py:107-113 | no outcome label is itself an outcome key |
| Translation.OutcomeTableInjective | app.py:107-113 | distinct outcome types get distinct labels |
| Translation.SexTableClosed | app.py:132-138 | no sex label is itself a sex key |
| Translation.SexTableInjective | app.py:132-138 | distinct sex statuses get distinct labels |
| Translation.TranslateIdempotent | app.py:115 | for a table whose labels are not keys, translating twice equals translating once |
| Translation.TranslateCellIdempotent | app.py:140 | the same holds for a translated cell, missing or present |
| Translation.TranslateInjective | app.py:115 | an injective table keeps distinct raw values distinct unless one of them is itself a label |
| Translation.TranslateExamples | app.py:107-140 | "Adoption" becomes "Усиновлення"; an unmapped outcome or sex value is returned verbatim |
| Views.FilterByType | app.py:59-62 | an empty selection gives the whole dataset; otherwise an order-preserving subsequence with exactly the records whose type is selected |
| Views.FilterKeepsDataset | app.py:59-62 | a view of a loaded dataset still has an outcome and the parsed age in every record |
| Views.FilterIsExactSelection | app.py:62 | any order-preserving selection of exactly the matching records equals the view |
| Views.FilterAllTypes | app.py:59-62 | selecting every type present gives the whole dataset |
| Views.FilterDisjointTypes | app.py:62 | a non-empty selection sharing no type with the data gives an empty view |
| Views.Enrich | app.py:88-140 | the derived frame keeps the view's records in order; `is_mix` is `"Yes"` everywhere; each `age_group` is the bucket of its age; `outcome_type_ua` and `sex_upon_outcome_ua` are the translated outcome and sex cells (lines 115 and 140), present exactly where the raw values are |
| Aggregates.MeanAge | app.py:67 | the mean exists exactly for a non-empty view, and times the record count it equals the sum of ages |
| Aggregates.MeanAgeBounds | app.py:67 | the mean lies between any lower and upper bound of the view's ages |
| Aggregates.OutcomeCounts | app.py:115-119 | one slice per label present, each count equals that label's number of records, total at most the record count and equal to it when every record has a label |
| Aggregates.AgeOutcomeCounts | app.py:126 | one bar per (age group, outcome label) present, each count equals that pair's number of records, total at most the record count and equal to it when every record has a label |
| Crosstab.LabelPairs | app.py:145 | each (sex label, outcome label) pair occurs once per record carrying both labels |
| Crosstab.Columns | app.py:145 | the columns are the outcome labels of the counted records, each once |
| Crosstab.Cells | app.py:145 | each cell is the pair's record count divided by the row's total |
| Crosstab.CrossTab | app.py:145 | `pd.crosstab(..., normalize='index')`: a row exists exactly for each sex label with at least one counted record, its total is that label's record count, each cell is the share of those records with the cell's outcome, every row's fractions sum to exactly 1, and no sex label heads two rows |
| Crosstab.NormaliseRows | app.py:145 | for any label pairs, a row exists exactly for each sex label that occurs, with that label's count as its total |
| Crosstab.NormaliseSumsToOne | app.py:145 | for any label pairs, every row's fractions sum to exactly 1 |
| Crosstab.RowCountIsTotal | app.py:145 | a sex label's counts summed over all outcome columns give its number of records |
| Pipeline.Frame | app.py:48-92 | the charted frame has one row per filtered record, never more than the raw rows; every row has an outcome label and `is_mix == "Yes"` |
| Pipeline.CountsSumToRecordCount | app.py:66-126 | the pie counts and the bar counts each sum to the record count in the overview |
| Pipeline.AgeGroupsPartitionOutcomes | app.py:119-126 | a label's pie count is the sum of its bar counts over the four age groups |
| Scenario.DogsView | app.py:59-67 | of two dogs aged 12 and 2 months and a cat, filtering to dogs gives 2 records with mean age 7; the charts count adoption 1, died 1, Young adult/adoption 1, Junior/died 1 |
| Scenario.DogsViewExample | app.py:32-126 | the same sample written with age texts "1 year", "2 months", "10 years": two dogs, mean age 7, and chart counts adoption 1, died 1, Young adult/adoption 1, Junior/died 1 |
| Scenario.DogsCharts | app.py:115-126 | an adopted 12-month-old and a 2-month-old that died give one slice each and one bar each in Young adult and Junior |

## Left out

- Reading `pets.csv` (app.py:17) is file input. The loader takes the raw rows as a sequence of ten-cell `RawRow` values instead.
- `@st.cache_data` (app.py:15) is process-level memoisation with no effect on results.
- All Streamlit calls are presentation only: page setup, titles, markdown, the sidebar widget, metrics, `head()` previews, `st.code`, tabs. The widget's choice is the `selected` parameter of `FilterByType`.
- Plotly, seaborn and matplotlib draw the charts. Only the counts and fractions they are given are modelled.
- `round(..., 1)` and the heatmap's number format are float display. Mean and fractions are exact `real`s.
- Aggregates.OutcomeCounts: lists labels in first-occurrence order. The pie (app.py:119) is counted by `px.pie(names=...)` itself, which by default orders slices by size; the order of slices is not modelled, only the count per label.
- Aggregates.AgeOutcomeCounts: keys in first-occurrence order, where `groupby` sorts them. The fixed `age_order` axis order is modelled by `Features.AgeOrder`.
- Crosstab.Columns: first-occurrence order, where `pd.crosstab` sorts rows and columns.
- Missing values are `Option.None`. A row with a missing grouping key is not counted. Other pandas NaN subtleties are not modelled.
- Python `int()` also accepts underscores between digits, non-ASCII digits and surrounding whitespace. Tokens from `split()` never carry whitespace; the other two are not modelled.
- Integers.ParseInt: accepts digit strings of any length. Python's `int()` raises `ValueError` beyond `sys.get_int_max_str_digits()` digits (4300 by default since 3.11 and the 3.7-3.10 security releases, and configurable), so for a number of more than 4300 digits `parse_age` returns 0 where `ParseAge` returns the value. The limit depends on the interpreter version and settings, so it is not modelled.
- Integers.ParseShowInt: holds for every integer in the model; in Python `str(i)` itself raises for integers of more than 4300 digits under the same limit.
- Age cells that are not strings (numbers in a column pandas typed as numeric) are not modelled. Every present age cell is text.
- Features.CheckIsMix: on a missing breed the right operand would raise in Python. It is never evaluated, so the model reports "not contained" for it.
- The age-group column keeps the bucket as a datatype. Its text is `AgeGroup.Label()`, and `AgeOrderListsEveryGroupOnce` ties the two.

## Findings

| source | as written | input that shows it | evidently intended | confidence | as-written member | corrected member |
|---|---|---|---|---|---|---|
| app.py:86 | `if 'Mix' or '/' in breed_text:` parses as `'Mix' or ('/' in breed_text)`, which is always true | breed "Labrador" gives `"Yes"` | `"Yes"` only when the breed contains "Mix" or "/" | high (not executed) | Features.CheckIsMix, Features.IntendedIsMixExamples | Features.IntendedIsMix |

The derived `is_mix` column (`Views.Enrich`) keeps the value the script
actually stores, `"Yes"` for every row. No aggregate reads that column.
`Features.IntendedIsMix` is the corrected test.
`Features.CheckIsMixOverapproximates` proves that the two agree exactly on
the breeds the corrected test calls mixed.
