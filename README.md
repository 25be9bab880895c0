# Order reconciliation ("De-Para de Pedidos") in Dafny

This project models the reconciliation engine of `app.py`, the Streamlit
"Sistema de De-Para de Pedidos". The engine takes two spreadsheets:

- System 1 has an order column 'Pedido Print One' and a customer column.
- System 2 has an order column 'Número do Pedido'.

The engine works in these steps:

- It normalises column names with `strip().lower()`.
- It finds the two order columns and the first column whose name contains
  'cliente' but not 'cliente - nome'. Each missing column gives its own error.
- It cleans the order identifiers: missing becomes "", anything else becomes
  `str(v).strip()`.
- It compares System 1's non-empty identifiers with all of System 2's, as
  sets.
- It writes a status ('OK', 'Não Lançado', 'Sem Pedido') on every System-1
  row.
- It lists, without duplicates, the customers whose name contains 'THE BEST'
  in any case and whose row has no order identifier.

Modules:

- `Wrappers`: `Option` and `Result`.
- `Text`: Python's `str.strip`, `str.lower` and substring `in`, over
  `seq<char>`.
- `Cells`: a spreadsheet cell (`Empty | Str | Number`), `limpar_valor`
  (`Clean`), `valor_nao_nulo` (`IsPresent`) and `astype(str)` (`AsStr`).
- `Columns`: `normalizar_nome_coluna`, the customer-column scan, the
  normalised-to-original name map, and column resolution with its three
  errors.
- `Reconcile`: the identifier sets and their comparison.
- `Classify`: the status lambda, the 'THE BEST' test and `drop_duplicates`.
- `Pipeline`: tables, and `processar_arquivos` as the method `Process`.

The loops of the source stay loops:

- the customer scan;
- the dict built from `zip`;
- the in-place column updates, over an `array` of rows;
- the status column write;
- the anomaly collection.

Each loop is proved equal to a function. `Process` is proved equal to the
function `Expected`. The lemmas `ExpectedTable`, `ExpectedStatus`,
`ExpectedSets` and `ExpectedTheBest` state what the returned tuple means.

The model follows the code where it and the program's own instructions
part ways.

- The instructions in app.py:194-195 say that rows without a 'Pedido Print
  One' get 'Sem Pedido'. But System 2's identifier set keeps the empty
  identifier. So a System-1 row without an identifier is labelled
  'Não Lançado', not 'Sem Pedido', when some System-2 row also has an empty
  (or blank) identifier.
  `Classify.StatusOfSystem1Row` and `Pipeline.ExpectedStatus` state both
  cases.
- A table that already has a column labelled 'Numero_Pedido' makes the
  rename of app.py:52-53 produce a second column of that label. The
  identifier-cleaning `apply` of app.py:60 (System 1) or app.py:61
  (System 2) then hands a whole column to `limpar_valor`, and pandas raises.
  The model returns `OrderLabelTaken1` or `OrderLabelTaken2` for this;
  `Pipeline.ExpectedOutcome` states when each arises.
- A System-1 table with headers but no rows fails too. There, the
  `apply(valor_nao_nulo)` of app.py:64 gives an empty Series that keeps the
  column's non-Boolean dtype. pandas does not take such a Series as a row
  mask, but as a list of column labels, so `df1_filtrado` has no columns.
  `df1_filtrado['Numero_Pedido']` at app.py:67 then raises `KeyError`.
  The model returns `NoRowsInSystem1` for this, after the clash checks.
- The order column is looked up through a dict built from `zip`. When two
  headers normalise to 'pedido print one', the later one wins.
  `Columns.ResolvedPositions` states that the position chosen is the last
  match. The customer column is the first match.

## Model

| member | source | states |
|---|---|---|
| Text.Strip | app.py:9-15 | `str.strip()`; its meaning is stated by `StripSpec`, `StripUnique`, `StripEmpty`, `StripIdempotent` and `StripIgnoresPadding` |
| Text.TrimLeftSpec | app.py:9 | left trimming drops exactly a prefix of whitespace and stops at a non-space character |
| Text.TrimRightSpec | app.py:9 | right trimming drops exactly a suffix of whitespace and stops at a non-space character |
| Text.StripSpec | app.py:9 | `strip()` returns a contiguous slice of its input, with only whitespace around it and non-space at both ends |
| Text.StripUnique | app.py:9 | any slice with whitespace around it and non-space ends is the result of `strip()` |
| Text.StripIdempotent | app.py:9 | stripping twice gives the same as stripping once |
| Text.StripEmpty | app.py:9 | `strip()` gives "" exactly when the text is all whitespace |
| Text.StripIgnoresPadding | app.py:9 | whitespace added on either side does not change `strip()` |
| Text.Lower | app.py:9 | `str.lower()` character by character; stated by `LowerCharSpace`, `LowerIdempotent` and `StripLower` |
| Text.LowerCharSpace | app.py:9 | lower-casing a character keeps it a space or a non-space, and is idempotent |
| Text.LowerIdempotent | app.py:9 | `lower()` applied twice is `lower()` applied once |
| Text.StripLower | app.py:9 | `strip().lower()` equals `lower().strip()` |
| Text.Contains | app.py:40 | Python's substring `in`: some position of the text starts with the pattern; used by `Columns.IsCustomerName`, `Columns.MessageNamesOrderColumn1` and `Classify.MentionsMarker` |
| Columns.NormalizeName | app.py:9 | one header stripped and lower-cased; stated by `NormalizeNameIdempotent`, `NormalizeIgnoresPadding` and `NormalizeUnpadded` |
| Columns.NormalizeUnpadded | app.py:9 | a header with non-space ends normalises to its lower-cased form |
| Columns.NormalizeColumns | app.py:8-9 | `normalizar_nome_coluna`: each header stripped and lower-cased, in order; its properties are `NormalizeNameIdempotent`, `NormalizeIgnoresPadding` and the `Text` lemmas on `Strip` and `Lower` |
| Columns.NormalizeNameIdempotent | app.py:8-9 | a normalised column name normalises to itself |
| Columns.NormalizeIgnoresPadding | app.py:8-9 | whitespace on either side of a header does not change its normalised name |
| Columns.IsCustomerName | app.py:40 | the test `'cliente' in col and 'cliente - nome' not in col`; stated by `OrderColumnIsNotCustomer`, `NoMarkerWithoutL` and `FirstCustomerFrom` |
| Columns.NoMarkerWithoutL | app.py:40 | a name without the letter 'l' fails the customer test |
| Columns.FirstCustomerFrom | app.py:39-42 | the result is the first position at or after `from` whose name has 'cliente' and not 'cliente - nome'; None exactly when there is none |
| Columns.FindCustomerColumn | app.py:38-42 | the scan loop returns the original header at the first matching position, or None when no header matches |
| Columns.LastIndex | app.py:48-49 | the result is the last position holding the key; None exactly when the key is absent |
| Columns.OriginalNames | app.py:48-49 | the map's keys are exactly the normalised names, and each key maps to the header at its last position |
| Columns.IndexOf | app.py:52-53 | the position returned holds the label and no earlier position does |
| Columns.IndexOfDistinct | app.py:52-53 | with distinct labels, looking up the label at position i gives back i |
| Columns.Resolve | app.py:28-53 | on success the three positions lie within their tables |
| Columns.ResolveColumns | app.py:28-57 | the source's sequence of checks, scan, name map and rename gives the same result as `Resolve` |
| Columns.ResolveFailureOrder | app.py:32-45 | each error happens exactly when its column is missing and every earlier check passed; success happens exactly when all three columns exist |
| Columns.ResolvedPositions | app.py:38-53 | on success the order columns are at the last matching positions, the customer column is at the first matching one, and it differs from System 1's order column |
| Columns.OrderColumnIsNotCustomer | app.py:32-40 | 'pedido print one' does not pass the customer-name test |
| Columns.ExampleOrderHeaders | app.py:8-9 | 'Pedido' and 'Pedido Print One' normalise to 'pedido' and 'pedido print one' |
| Columns.ExampleCustomerHeaders | app.py:8-9 | 'Cliente - Nome' and 'Cliente' normalise to 'cliente - nome' and 'cliente' |
| Columns.ResolveExample | app.py:28-45 | headers 'Pedido', 'Pedido Print One', 'Cliente - Nome', 'Cliente' resolve to positions 1, 0 and 3; without 'Cliente' the result is the customer-column error |
| Columns.Message | app.py:32-67 | the text of each error: the three `ValueError` messages verbatim, the first sentence of pandas' duplicate-label error, and the `KeyError`'s quoted label; stated by the three `MessageNames*` lemmas and `MessagesDiffer` |
| Columns.MessageNamesOrderColumn1 | app.py:32-33 | the message for a missing System-1 identifier column names 'Pedido Print One' |
| Columns.MessageNamesOrderColumn2 | app.py:34-35 | the message for a missing System-2 identifier column names 'Número do Pedido' |
| Columns.MessageNamesCustomerColumn | app.py:44-45 | the message for a missing customer column names 'Cliente' |
| Columns.MessageKindOf | app.py:32-67 | three characters of each message tell which failure it reports; the two pandas errors read the same |
| Columns.MessagesDiffer | app.py:32-67 | equal messages mean the same failure, except that the two pandas duplicate-label errors share one: the three resolution failures and the `KeyError` have different messages |
| Cells.AsStr | app.py:85 | `str(v)` / `astype(str)` of a cell: the text itself, a number's rendering, 'nan' for a missing cell; used by `CleanSpec` and `Pipeline.ExpectedTable` |
| Cells.Clean | app.py:12-15 | `limpar_valor`; its meaning is stated by `CleanSpec` and `CleanIdempotent` |
| Cells.IsPresent | app.py:18-19 | `valor_nao_nulo`; its meaning is stated by `PresentSpec` and `PresentAfterClean` |
| Cells.CleanSpec | app.py:12-15 | `limpar_valor` gives "" exactly for a missing or all-blank value; otherwise it gives a slice of the value's text with non-space ends |
| Cells.CleanIdempotent | app.py:12-15 | cleaning a cleaned value changes nothing |
| Cells.PresentSpec | app.py:18-19 | `valor_nao_nulo` holds exactly when the value is not missing and its text has a non-space character |
| Cells.PresentAfterClean | app.py:18-19 | a cleaned value is present exactly when it is non-empty |
| Reconcile.Cleaned | app.py:60-61 | a column after `apply(limpar_valor)`, cell by cell; stated by `PresentIdsOfCleaned` and `Cells.CleanSpec` |
| Reconcile.PresentIds | app.py:64-67 | System 1's set: the identifiers for which `valor_nao_nulo` holds; `PresentIdsOfCleaned` states it is the cleaned identifiers minus "" |
| Reconcile.AllIds | app.py:68 | System 2's set: every identifier, unfiltered |
| Reconcile.SymmetricDifference | app.py:72 | `symmetric_difference`; `InconsistentIsOneSided` states it is A-B plus B-A |
| Reconcile.Compare | app.py:71-77 | intersection, symmetric difference and the two differences; `ComparisonPartition`, `InconsistentIsOneSided` and `ComparisonCounts` state their relations |
| Reconcile.PresentIdsOfCleaned | app.py:60-67 | System 1's set is its cleaned identifiers minus "" |
| Reconcile.ComparisonPartition | app.py:71-77 | matched, only-in-1 and only-in-2 are pairwise disjoint and together make up the union of the two sets |
| Reconcile.InconsistentIsOneSided | app.py:72-77 | the symmetric difference is the union of the two one-sided differences |
| Reconcile.ComparisonCounts | app.py:71-77 | the number of inconsistent identifiers is the sum of the one-sided counts; matched plus inconsistent counts the union |
| Reconcile.CompareExample | app.py:63-77 | identifiers A1, a1, "", B2 against A1, B2, C3 match {A1, B2}; a1 is only in System 1 and C3 only in System 2 |
| Classify.Label | app.py:81 | the texts 'OK', 'Não Lançado' and 'Sem Pedido'; `LabelsDiffer` states they are different |
| Classify.LabelsDiffer | app.py:81 | two statuses with the same text are the same status |
| Classify.StatusOf | app.py:80-82 | the status lambda; `StatusOfSystem1Row` states which status each identifier gets |
| Classify.StatusOfSystem1Row | app.py:80-82 | 'OK' exactly when the cleaned identifier is non-empty and in System 2; otherwise a non-empty one is 'Não Lançado'; an empty one is 'Sem Pedido' exactly when System 2 has no empty identifier |
| Classify.MentionsMarker | app.py:87 | `str.contains('THE BEST', case=False)`: the lower-cased value contains 'the best'; stated by `MentionsMarkerIgnoresCase` and the two examples below |
| Classify.MentionsMarkerIgnoresCase | app.py:87 | the 'THE BEST' test gives the same answer on a value and on its lower-cased form |
| Classify.MentionsMarkerExample | app.py:87 | 'Loja The Best' passes the marker test |
| Classify.MentionsMarkerCounterexample | app.py:87 | 'Best Loja' fails the marker test |
| Classify.Distinct | app.py:89 | `drop_duplicates` keeps exactly the values of its input, with no duplicates |
| Classify.DistinctFirstOccurrenceOrder | app.py:89 | the kept values appear in the order of their first occurrence |
| Pipeline.StatusSlot | app.py:80 | where `df1['Status_Comparacao'] = ...` writes: over the existing column of that label, or a new last column; `PositionsApart` and `ExpectedTable` state where it lies |
| Pipeline.MapColumn | app.py:60-85 | `df[c] = df[c].apply(f)` on values; `AnnotateRow` and `ExpectedTable` state its effect on each cell |
| Pipeline.WithStatus | app.py:80-82 | every row with its status written at the slot; `AnnotateRow` and `ExpectedStatus` state the cell written |
| Pipeline.ColumnTextAfterClean | app.py:60-64 | reading the identifier column after cleaning it in place gives the cleaned identifiers |
| Pipeline.ApplyToColumn | app.py:60-61 | the in-place `apply` replaces the column's cell in every row by its image and leaves the other cells alone |
| Pipeline.WriteStatus | app.py:80-82 | every row gets its status written at the status slot: over an existing cell, or appended as a new cell |
| Pipeline.IsAnomaly | app.py:87-88 | the mask: the customer text contains 'THE BEST' in any case and the identifier is not present; used by `AnomalyRows`, `Flagged` and `IsAnomalyList` |
| Pipeline.AnomalyRows | app.py:86-88 | the positions of the rows passing the filter, in increasing order, and every such row's position |
| Pipeline.Positions | app.py:87-88 | the positions of a Boolean mask that hold `true`, all of them, in increasing order |
| Pipeline.Flagged | app.py:86-88 | the selected values, duplicates kept: a value is selected exactly when some row mentions the marker, has no identifier, and has that customer text |
| Pipeline.FlaggedRows | app.py:86-88 | the selection keeps row order: as many values as anomalous rows, the k-th being the customer text of the k-th anomalous row |
| Pipeline.DistinctEarlier | app.py:89 | if a position holds the b-th value `drop_duplicates` keeps, every earlier kept value occurs before that position |
| Pipeline.DistinctFlaggedRowOrder | app.py:86-89 | after `drop_duplicates`, every anomalous row carrying a later value comes after some anomalous row carrying an earlier one |
| Pipeline.IsAnomalyList | app.py:84-89 | the reference definition of the anomaly list: exactly the anomalous rows' customer texts, each once, in row order of first occurrence |
| Pipeline.TheBestSpec | app.py:84-89 | `drop_duplicates` of the selected values meets that definition and keeps first-occurrence order among the selected values |
| Pipeline.CollectTheBest | app.py:84-89 | the selection loop returns the de-duplicated selection |
| Pipeline.AnnotateRow | app.py:59-85 | each output row is the input row with the identifier cleaned, the customer coerced to text and the status of the cleaned identifier at its slot; other cells are unchanged |
| Pipeline.ReconcileTables | app.py:59-95 | the in-place data steps give exactly the reconciled output |
| Pipeline.Comparing | app.py:63-77 | the comparison of System 1's present cleaned identifiers with all of System 2's; `ComparingSets` states its sets |
| Pipeline.Annotate | app.py:60-85 | the three table edits in order; `AnnotateRow` states the result cell by cell |
| Pipeline.Reconciled | app.py:59-95 | the output once the columns are resolved; stated by `ExpectedTable`, `ExpectedStatus`, `ExpectedSets` and `ExpectedTheBest` |
| Pipeline.Expected | app.py:22-95 | what `processar_arquivos` returns: the resolution error, the 'Numero_Pedido' clash error, the `KeyError` for a System 1 without rows, or `Reconciled`; stated by `ExpectedOutcome`, `ExpectedIsReconciled` and the `Expected*` lemmas |
| Pipeline.ExpectedOutcome | app.py:28-67 | resolution errors come first; then a System-1 'Numero_Pedido' clash, then a System-2 one; then the `KeyError` when System 1 has no rows; success exactly when none of these happens |
| Pipeline.ExpectedIsReconciled | app.py:59-95 | on success the positions resolved are in bounds and the output is `Reconciled` at those positions |
| Pipeline.Process | app.py:22-95 | `processar_arquivos` returns the resolution error, the clash error, the empty-table `KeyError` or the reconciled output, as `Expected` defines them |
| Pipeline.StatusColumnIsNotRequired | app.py:80 | 'Status_Comparacao' is neither the order column nor a customer column |
| Pipeline.PositionsApart | app.py:38-80 | the identifier, customer and status positions are three different columns |
| Pipeline.ExpectedTable | app.py:59-95 | the returned table has System 1's rows in order and the status column added (or overwritten). The identifier column is cleaned and keeps its label, the customer column is text, and all other cells are unchanged |
| Pipeline.ReconciledStatus | app.py:79-82 | the status cell of each reconciled row, for any positions shaped like a successful resolution |
| Pipeline.ExpectedStatus | app.py:79-82 | each row's status is one of the three labels: 'OK' exactly when its cleaned identifier is non-empty and in System 2, and 'Sem Pedido' or 'Não Lançado' for an empty identifier depending on System 2 |
| Pipeline.ComparingSets | app.py:63-77 | for any positions in range, the comparison's sets are A*B, A-B and B-A for System 1's non-empty cleaned identifiers A and System 2's cleaned identifiers B, disjoint, covering A+B, with matching counts |
| Pipeline.ExpectedSets | app.py:63-95 | the returned sets are A*B, A-B and B-A for System 1's non-empty cleaned identifiers A and System 2's cleaned identifiers B; they are disjoint and cover A+B, and the counts are those sets' sizes |
| Pipeline.FlaggedAgree | app.py:85-88 | rows that agree on the customer text and on the identifier's presence select the same values |
| Pipeline.ReconciledTheBest | app.py:84-89 | the anomaly list computed on the edited table equals the one computed on System 1's original rows |
| Pipeline.ExpectedTheBest | app.py:84-89 | the returned anomaly list is `drop_duplicates` of the selection on System 1's original rows and meets `IsAnomalyList`: exactly the customer texts of the rows that mention 'THE BEST' and have no identifier, each once, in row order of first occurrence |

## Left out

- The Streamlit interface (app.py:1-5, 97-199), file upload, `pd.read_excel`, the Excel export and download, and the `try/except` that shows errors: these are I/O. `Process` takes the two tables the loader would produce and returns the error value.
- Raising and catching exceptions is modelled as the `Err` result. Columns.Message holds the exact `ValueError` texts of app.py:33, 35 and 45. For the two 'Numero_Pedido' clashes it holds only the first sentence of pandas' message, whose remainder varies between pandas versions.
- The rename check of app.py:56-57 is modelled as an assertion that the rename succeeded. With distinct labels the check can never fail, so its error is not an outcome of `Process`.
- Distinct column labels and one cell per row per column are preconditions (`WellFormed`), because `read_excel` de-duplicates headers. Tables with duplicate labels are not modelled.
- Pipeline.Expected: for a table that has a 'Numero_Pedido' column and no rows at all, the error `limpar_valor` raises does not reach the caller: pandas calls it once on an empty Series to infer the result shape and discards the error. What the source then computes from a two-column selection is not modelled; the model reports the clash error for such tables too.
- Headers are strings; a numeric header, on which `.strip()` raises, is not modelled.
- Numbers are modelled by the text `str()` gives them (`Number(rendered)`); float formatting and NaN detection of non-empty cells are abstracted.
- A missing cell coerced with `astype(str)` is modelled as 'nan'. The 'None' rendering of object columns is not distinguished.
- Text.Lower: lower-cases ASCII and Latin-1 capitals only, not full Unicode `str.lower()` or the case folding of `case=False`.
- Text.IsSpace: the characters Python's `str.isspace` accepts, listed explicitly.
- The returned Python sets are unordered; the order `list(set)` shows them in is not modelled.
- The row-filtered copy `df1_filtrado` (app.py:64) is modelled only through the set it yields (`PresentIds`).
