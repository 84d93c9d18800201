# swaif-confa reconciliation core, modelled in Dafny

swaif-confa reconciles one month of a clinic's revenue across three systems:
- the C6 card acquirer, with a sales export and a receivables export;
- the GDS management system, with an invoices export and a receipts export;
- the WAB cash book, a text export that is converted to JSON.

This project models:
- the loading of a month's five tables;
- each source's cleaning of Brazilian money notation into amounts;
- the invoice and payment totals per system;
- the four fixed comparisons (GDS × C6, GDS × WAB and C6 × WAB on invoices, then GDS × C6 on payments);
- the pure rules the controller and the terminal view apply to those results.

Modules, in dependency order:

- `Base`: `Option`, `Result`, and sequence helpers (`Take`, `TakeLast`, `Filter`, `Count`, `Distinct`).
- `Text`: Python's `str.strip`, `str.replace`, `in`, `lower`, digits and `str(int)`.
- `Decimal`: the grammar `float()` and `int()` accept, restricted to plain decimals.
- `Frame`: a pandas table. It holds a column list plus one map per row; a missing key reads as NaN. Date parsing and `str(float)` are parameters (`Runtime`).
- `Money`: the text-to-amount cleaners of the four exports and the loader's generic cleaner.
- `Analisador`: normalisation, totals, pair comparison, and the older `_comparar_fontes` arithmetic.
- `WabText`: the WAB TXT block parser shared by both loaders, and the default JSON path.
- `WabLoader`: `WAB_COLS` renaming and the table built from records.
- `DataLoader`: CSV header renaming, month folders, the generic cleaner over a table, and `carregar_dados_mes` over a disk given as a map from path to file content.
- `Controller`: `obter_detalhes_fonte` and `obter_resumo_dados`, over a loaded data map.
- `TerminalView`: the status band, the summary counts, month display and validation, source selection, and the split by kind.

Amounts are `real`, not binary floats. A source name is the datatype `SourceKey`, and `KeyName` gives its dictionary key. A system in the totals dictionaries is `Origin` (`C6`, `GDS`, `WAB`).

The model follows the code. In these places the code does something a reader might not expect:

- `calcular_totais_pagamento` reads the value column without checking that it exists (`src/models/analisador.py:145-146` and `163-164`). When a table has neither `valor_recebivel` (or `valor_liquido`) nor `valor`, it raises `KeyError`. That case is a `Failure` here (`Analisador.PaymentTotal`, `Analisador.AnalyseAll`). One might expect a zero total, which is what the invoice totals give for a missing column.
- A loaded invoice table without any of its value columns still counts `len(df)` records, with total 0.0 (`src/models/analisador.py:84-88`, `99-104` and `114-119`). It does not count as an absent source (`Analisador.InvoiceTotalIsSum`).
- The GDS cleaner keeps '.' (`src/models/analisador.py:406-415`). So "1.500,75" becomes "1.500.75", which `float()` rejects, and reads as 0 (`Money.GdsThousandsIsZero`). "1.200" reads as 1.2 (`Money.GdsPointIsDecimal`). The test at `tests/unit/test_analisador.py:76-88` expects 1500.75.
- The other cleaners drop every '.' after `astype(str)`/`str()` has written the cell (`src/models/analisador.py:306-310`, `353` and `367`, `449-453`; `src/models/data_loader.py:331-333`). So a cell that already holds a float loses its decimal point: the float 15.5 is written "15.5" and read as 155 (`Money.PointDropped`, `Analisador.FloatCellTenfold`, `DataLoader.MoneyTenfold`). Normalising an already normalised table therefore changes it (`Analisador.NormaliseTwiceTenfold`). The GDS cleaner reads the same cell as 15.5 (`Analisador.FloatCellGds`). The tests at `tests/unit/test_analisador.py:90-101` and `124-143` expect float cells to keep their value.
- `str.replace('R$', '')` removes every "R$" in the text, not only a leading one (`src/models/analisador.py:308`, `451`; `src/models/data_loader.py:332`). So "1R$5" reads as 15 (`Money.SignRemovedAnywhere`). Only the C6 receivables cleaner strips a prefix alone (`src/models/analisador.py:356-359`).
- The pair percentage is the signed difference measured against the larger total (`src/models/analisador.py:181`). So a zero total against a positive one is ±100 % (`Analisador.PercentOneSided`). The older `_comparar_fontes` measures the absolute difference against the first total when it is positive, else the second (`src/models/analisador.py:268-276`, `Analisador.CompareSources`). For 0 against 100 that is 100/100 × 100 = 100 %, and in general it is 0 only for equal totals once either is positive (`Analisador.CompareSourcesZero`), while the test at `tests/unit/test_analisador.py:160-169` expects 0 %.
- The invoice and payment totals are keyed `C6`, `GDS` and `WAB` (`src/models/analisador.py:86`, `101`, `116`, `147`, `165`), not by the loaded source names. The tests at `tests/unit/test_analisador.py:103-143` read them under `faturamento_c6` and `pagamento_c6`.
- The loader's generic cleaner ends with `astype(float)` and no fallback (`src/models/data_loader.py:330-337`). So it raises on a value `float()` rejects, and it keeps a NaN cell as NaN (`DataLoader.StandardiseMoney`, `DataLoader.MoneyNan`). One might expect the zero fallback the analyser's cleaners use.
- `_comparar_fontes` builds its result with the keyword `percentual_diferenca` (`src/models/analisador.py:285`). The result type names that field `diferenca_percentual` (line 18). So it would raise `TypeError`, and only its arithmetic is modelled (`Analisador.CompareSources`).
- The view reads `percentual_diferenca` too (`src/views/terminal_view.py:110`, `158`). The band and the counts are therefore modelled on the comparison's percentage, `Analysis.percentual`.

## Model

| member | source | states |
|---|---|---|
| Analisador.MentionsIff | src/models/analisador.py:294-296 | a column name mentions a source's keywords exactly when some keyword is a substring of the lower-cased name |
| Analisador.ValueColumnsPresent | src/models/analisador.py:292-303 | a column of the table is cleaned as money exactly when its lower-cased name contains one of the source's keywords |
| Analisador.FallbackInert | src/models/analisador.py:298-300 | the fallback list is used only when no column mentions a keyword, and then none of its names is a column, so it never changes anything |
| Analisador.NormaliseEffect | src/models/analisador.py:288-471 | normalising keeps the columns and the row count; a keyword column (not a date column) holds the amount its text reads as; a date column holds a datetime or NaT; every other cell is unchanged |
| Analisador.PointCellAmounts | src/models/analisador.py:305-370 | a float cell written as digits, '.' and digits is read by the C6 sales, WAB and C6 receivables cleaners as the integer its digits spell without the '.' |
| Analisador.FloatCellTenfold | src/models/analisador.py:305-370 | a value cell holding the float 15.5, written "15.5", is read as 155 by the C6 sales, WAB and C6 receivables cleaners |
| Analisador.FloatCellGds | src/models/analisador.py:406-415 | the GDS cleaner reads the same cell as 15.5, because it keeps '.' |
| Analisador.NormaliseTwiceTenfold | src/models/analisador.py:429-471 | normalising a WAB table whose `valor` already holds 15.5 turns it into 155, so normalising is not idempotent |
| Analisador.FirstIn | src/models/analisador.py:76-82 | the chosen index is the first candidate the table has, and no earlier candidate is a column |
| Analisador.InvoiceTotals | src/models/analisador.py:59-123 | the invoice totals always have exactly the keys C6, GDS and WAB |
| Analisador.InvoiceTotalIsSum | src/models/analisador.py:71-121 | an absent or empty table totals 0.0 over 0 records; a loaded one counts its rows and adds up what each cell of the first preferred value column reads as, or totals 0.0 when it has none of them |
| Analisador.CandidatesAreValues | src/models/analisador.py:76-114 | every invoice candidate column is cleaned as money and is not converted to a date |
| Analisador.KeepContaining | src/models/analisador.py:142-161 | filtering on a column keeps exactly the rows whose cell is text containing the word, and keeps every row when the column is absent |
| Analisador.PaymentTotal | src/models/analisador.py:144-169 | fails exactly when neither the preferred value column nor 'valor' exists; otherwise counts the filtered rows, sums the preferred column (else 'valor') and keeps at most the first five rows as details |
| Analisador.C6PaymentCount | src/models/analisador.py:138-151 | the C6 receivables total counts exactly the rows whose status contains 'Recebido', and fails exactly when both value columns are absent |
| Analisador.GdsPaymentCount | src/models/analisador.py:154-169 | the GDS payment total counts exactly the rows whose type contains 'Receita' and whose paid flag contains 'Sim', and fails exactly when both value columns are absent |
| Analisador.CombinePayments | src/models/analisador.py:135-171 | an absent or empty payment table contributes no key; each computed system has its own total; a failure of either makes the whole computation fail, C6's error first |
| Analisador.AnalysePair | src/models/analisador.py:173-220 | a system missing from the totals reads as 0.0 over 0 records; the difference is total1 − total2; the percentage times the larger total is 100 × the difference (0 when neither total is positive), so for non-negative totals it lies in [−100, 100], is 0 exactly when the totals agree and has the difference's sign |
| Analisador.PercentBounds | src/models/analisador.py:180-181 | for non-negative totals the percentage lies in [−100, 100] |
| Analisador.PercentMeaning | src/models/analisador.py:180-181 | the percentage is the difference as a share of the larger total, 0 when neither total is positive, bounded by ±100 and signed like the difference for non-negative totals |
| Analisador.PercentSign | src/models/analisador.py:180-181 | for non-negative totals the percentage is 0 exactly when the totals agree, and positive or negative exactly as total1 is above or below total2 |
| Analisador.PercentAntisymmetric | src/models/analisador.py:180-181 | swapping the two sources negates the percentage |
| Analisador.PercentOneSided | src/models/analisador.py:181 | a positive total against a zero one is exactly +100 %, and −100 % the other way round |
| Analisador.Analyses | src/models/analisador.py:229-249 | exactly four results: the invoice pairs (GDS, C6), (GDS, WAB), (C6, WAB) in order, then the payment pair (GDS, C6) |
| Analisador.AnalyseAll | src/models/analisador.py:222-249 | the analysis succeeds exactly when the payment totals do, and then is the four comparisons of the two totals dictionaries |
| Analisador.AnalyseDiscrepancies | src/models/analisador.py:44-57 | no data gives no results; data gives the full analysis |
| Analisador.AnalysesMissing | src/models/analisador.py:175-178 | every invoice comparison sees both systems' totals, and the payment comparison reads a missing system as 0.0 over 0 records |
| Analisador.NothingLoaded | src/models/analisador.py:59-249 | with no table loaded, each invoice total is 0.0 over 0 records, the payment dictionary is empty, and all four comparisons agree at 0 % |
| Analisador.ZeroAnalyses | src/models/analisador.py:175-181 | totals that are all zero give four comparisons at 0 difference and 0 % |
| Analisador.CompareSourcesMatchesPercent | src/models/analisador.py:263-276 | the older comparison's difference and percentage are never negative, and match the pair percentage up to sign whenever its divisor is the larger total |
| Analisador.CompareSourcesZero | src/models/analisador.py:268-276 | once either total is positive, the older percentage is 0 exactly when the totals are equal |
| Money.CleanBrl | src/models/analisador.py:305-313 | the cleaned text is never empty and has no ','; blank text becomes "0" |
| Money.PointDropped | src/models/analisador.py:305-370 | digits, '.' and digits clean to the digits alone under the C6 sales/WAB, C6 receivables and generic cleaners |
| Money.PointTenfold | src/models/analisador.py:305-370 | such text reads as the integer its digits spell without the '.', under the C6 sales/WAB, C6 receivables and generic cleaners |
| Money.SignRemovedAnywhere | src/models/analisador.py:305-313 | an "R$" between two digit runs is removed too, so "1R$5" cleans to "15" under the C6 sales/WAB and generic cleaners |
| Money.ParseOrZero | src/models/analisador.py:316-323 | text `float()` accepts reads as its value, and anything else reads as 0 instead of raising |
| Money.BrlRoundTrip | src/models/analisador.py:305-317 | "R$", any whitespace and an amount in Brazilian notation (thousands '.', cents after ','), with whitespace around it, reads back as that amount |
| Money.CleanC6Payment | src/models/analisador.py:353-368 | the cleaned text has no ','; blank text and a lone '-' become "0" |
| Money.C6NegativeRoundTrip | src/models/analisador.py:355-373 | a "-R$ 1.234,56" value reads back as the negative amount |
| Money.C6PositiveRoundTrip | src/models/analisador.py:358-373 | an "R$ 1.234,56" value reads back as the positive amount |
| Money.LoneMinusIsZero | src/models/analisador.py:360-361 | a lone '-' with whitespace around it reads as 0 |
| Money.BlankIsZero | src/models/analisador.py:305-411 | blank text reads as 0 under the C6 sales, WAB, C6 receivables and GDS cleaners |
| Money.GdsRoundTrip | src/models/analisador.py:406-415 | a GDS value with a decimal comma and no thousands separator reads back as its amount |
| Money.GdsThousandsIsZero | src/models/analisador.py:406-420 | a GDS value with a thousands separator and cents is rejected by `float()` and reads as 0 |
| Money.GdsPointIsDecimal | src/models/analisador.py:406-415 | a GDS value "q.f" reads as q plus the fraction f, so a thousands '.' becomes a decimal point |
| Money.IntCellAmounts | src/models/analisador.py:305-415 | the text of an integer reads back as that integer under every source cleaner |
| Money.CleanGeneric | src/models/data_loader.py:330-336 | the generic cleaner's text is never empty and has no ',' |
| Money.GenericRoundTrip | src/models/data_loader.py:330-337 | the generic cleaner reads "R$", whitespace and Brazilian notation as the amount |
| Money.GenericBlankIsZero | src/models/data_loader.py:330-337 | the generic cleaner reads blank text as 0 |
| Decimal.PyFloatAccepts | src/models/analisador.py:371-376 | the modelled part of `float()` (no exponents, '_', inf or nan) accepts exactly text that is, after stripping, an optional sign followed by digits with at most one '.' and at least one digit |
| Decimal.ShowIntParses | src/views/terminal_view.py:277 | `int()` reads the text of every integer back as that integer |
| Text.Strip | src/models/wab_loader.py:27 | the stripped text is trimmed and empty exactly when the text is all whitespace; trimmed text is unchanged, and no character is added |
| WabText.Put | src/models/wab_loader.py:35 | storing a field keeps keys distinct; the key then holds the new value, every other key keeps its value, and a new key goes last |
| WabText.SplitFieldAt | src/models/wab_loader.py:34-35 | a field line splits at its first ':' into the stripped key and the stripped value, so the value may contain ':' |
| WabText.ReadRecords | src/models/wab_loader.py:23-37 | the line loop computes exactly the records of the block parser |
| WabText.BlankSeparates | src/models/data_loader.py:116-122 | a blank line splits the file: the records of the whole are the records before it followed by the records after it |
| WabText.BlankCloses | src/models/wab_loader.py:28-32 | after a blank line the open block is empty and the finished records are those of the lines before it |
| WabText.NoEmptyRecords | src/models/wab_loader.py:26-37 | no record is ever empty, however many blank lines follow each other |
| WabText.NoColonIgnored | src/models/data_loader.py:123-125 | a non-blank line without ':' changes nothing |
| WabText.FieldLine | src/models/wab_loader.py:33-35 | a field line stores its stripped value under its stripped key in the open block |
| WabText.OneBlock | src/models/wab_loader.py:36-37 | a file of field lines with no blank line is one record, flushed at the end of input |
| WabText.DefaultJsonPathSwapsExtension | src/models/wab_loader.py:68-69 | a TXT path ending in ".txt", with no other ".txt" in it, becomes the same path ending in ".json"; a path without ".txt" is unchanged |
| WabLoader.RenameExactly | src/models/wab_loader.py:10-18 | the renaming maps exactly the seven WAB headers to their names and keeps every other label |
| WabLoader.ColumnsOf | src/models/wab_loader.py:38 | the table's columns are distinct and are exactly the keys found in any record |
| WabLoader.FrameCells | src/models/wab_loader.py:38 | the table has one row per record; a record's renamed key holds its value; a column none of the record's keys renames onto is NaN |
| WabLoader.ConvertWabTxt | src/models/wab_loader.py:65-84 | the converter writes to the given path, or else to the default path; the records it writes are non-empty and have distinct keys |
| WabLoader.ConvertThenRead | src/models/wab_loader.py:49-84 | converting and reading the JSON gives the table reading the TXT gives, with one row per record; a single block gives one row |
| DataLoader.ReadCsv | src/models/data_loader.py:81-97 | the columns are the stripped and renamed header, with one row per data line |
| DataLoader.CsvHeaderRenamed | src/models/data_loader.py:87-90 | a header with whitespace around a mapped label becomes that label's name; an unmapped header keeps its stripped text |
| DataLoader.ReadCsvCells | src/models/data_loader.py:84-90 | each data line's i-th cell lands under the i-th column name, and is NaN where the line is short |
| DataLoader.Join | src/models/data_loader.py:225 | the joined path ends with the name, and starts with the folder when the name is relative |
| DataLoader.MonthFolderExactly | src/models/data_loader.py:314-322 | each code '01'..'12' selects its month's folder ('marco' unaccented), and anything else selects 'julho' |
| DataLoader.StandardiseMoney | src/models/data_loader.py:324-339 | succeeds exactly when every listed, present column converts; each such cell becomes what the generic cleaner reads; every other cell, and the column list and row count, are unchanged |
| DataLoader.MoneyOf | src/models/data_loader.py:330-337 | a cell whose text the generic cleaner reads as v becomes the amount v |
| DataLoader.MoneyNan | src/models/data_loader.py:330-337 | a NaN cell stays NaN, because "nan" is what `astype(str)` writes and `float()` reads back |
| DataLoader.MoneyTenfold | src/models/data_loader.py:330-337 | a cell that already holds the float 15.5, written "15.5", becomes 155 under the generic cleaner |
| DataLoader.MoneyBlank | src/models/data_loader.py:336 | a blank text cell becomes 0 |
| DataLoader.DictOf | src/models/data_loader.py:155 | a JSON object's repeated key keeps its first place and its last value, and keys are distinct |
| DataLoader.LoadWith | src/models/data_loader.py:243-268 | every source has a table: an absent file gives the empty table, and a present one gives what its reader makes of it |
| DataLoader.LoadMonthSource | src/models/data_loader.py:243-268 | the month's table of each source is the empty table when its file is absent, and its reader's table otherwise |
| DataLoader.SourcePathShape | src/models/data_loader.py:225-263 | each source reads base path, month folder and the source's file name for the month, joined by '/' |
| DataLoader.NothingOnDisk | src/models/data_loader.py:215-270 | with no file on disk every source is the empty table, and all four comparisons agree at 0 % |
| Controller.KeyOf | src/controllers/conciliacao_controller.py:95-98 | a name finds the source whose key it is, or no source when no source has that key |
| Controller.KeyNameRoundTrip | src/controllers/conciliacao_controller.py:95-98 | every source's key finds that source |
| Controller.ColumnStats | src/controllers/conciliacao_controller.py:107-112 | mean, minimum and maximum exist exactly when the column has a number |
| Controller.StatsOrdered | src/controllers/conciliacao_controller.py:107-112 | the total is the sum of the column's numbers, and minimum ≤ mean ≤ maximum |
| Controller.ColumnSumIsSum | src/controllers/conciliacao_controller.py:108 | a column's sum is the sum of its numbers, skipping NaN |
| Controller.MinOf | src/controllers/conciliacao_controller.py:110 | the minimum is one of the numbers and no number is below it |
| Controller.MaxOf | src/controllers/conciliacao_controller.py:111 | the maximum is one of the numbers and no number is above it |
| Controller.PrincipalTotal | src/controllers/conciliacao_controller.py:118-143 | the main total is the sum of the first preferred column present when that column is numeric, and 0.0 when no candidate is present or the column is not numeric |
| Controller.PrincipalByKey | src/controllers/conciliacao_controller.py:115-144 | invoice sources take 'Valor Faturado' from valor_faturado, valor_venda, valor; payment sources take 'Valor Recebível' from valor_recebivel, valor_parcela, valor |
| Controller.SourceDetails | src/controllers/conciliacao_controller.py:93-154 | an unknown name and an empty table each give only their error message; otherwise the report has the row count, the columns, statistics for exactly the numeric columns, and the first and last five rows |
| Controller.DetailsPrincipal | src/controllers/conciliacao_controller.py:114-154 | every loaded, non-empty source gets a report carrying its main total and label |
| Controller.Summarise | src/controllers/conciliacao_controller.py:66-70 | the entry counts the rows; its column list is empty exactly when the table is empty; its sample is the first rows, at most three |
| Controller.DataSummary | src/controllers/conciliacao_controller.py:52-72 | the summary has exactly the loaded sources, each summarised |
| TerminalView.BandOf | src/views/terminal_view.py:109-115 | exactly one band applies: CONFERE below 1 %, PEQUENA DIVERGÊNCIA from 1 % to below 5 %, GRANDE DIVERGÊNCIA from 5 %, in absolute value |
| TerminalView.BandBySize | src/views/terminal_view.py:139-145 | the band ignores the sign, and a larger difference never gets a milder band |
| TerminalView.BandOfSwap | src/views/terminal_view.py:109-115 | swapping a pair keeps its band, and equal totals conform |
| TerminalView.Divergences | src/views/terminal_view.py:158 | the divergence count is 0 exactly when every result conforms, and equals the result count exactly when none does |
| TerminalView.ConformityRate | src/views/terminal_view.py:158-167 | the rate lies in [0, 100]; it is 100 exactly when there are results and none diverges, and 0 exactly when all diverge (no results included) |
| TerminalView.AgreeingConforms | src/views/terminal_view.py:163-167 | results that all agree at 0 % give a 100 % rate, or 0 when there are none |
| TerminalView.EmptyMonthConforms | src/views/terminal_view.py:158-173 | a month with no files gives a 100 % conformity rate |
| TerminalView.FormatMonthYearExactly | src/views/terminal_view.py:296-307 | a month code followed by a year shows as the month's Portuguese name, '/' and the year; an unknown code shows its two characters, '/' and the rest |
| TerminalView.AcceptedMonth | src/views/terminal_view.py:56-63 | six digits are accepted exactly when they start with a month code; an accepted entry shows as its month's name and loads from its month's folder |
| TerminalView.SelectChoice | src/views/terminal_view.py:276-285 | a number 1 to 5 selects that line's source name, and anything else asks again |
| TerminalView.MenuLine | src/views/terminal_view.py:268-274 | every source has a line, 1 to 5, that shows it |
| TerminalView.MenuSelects | src/views/terminal_view.py:268-285 | typing a source's line number selects that source, and every selection is a source the controller knows |
| TerminalView.SplitByKind | src/views/terminal_view.py:77-78 | the invoice and payment lists keep the results' order, hold exactly the results of their kind, and together have as many as the results |
| TerminalView.SplitAnalyses | src/views/terminal_view.py:77-78 | on the analyser's four results the split gives the three invoice comparisons and then the payment comparison |

## Left out

- File reading is a parameter. A `Disk` maps each existing path to what `read_csv(sep=';')` or `json.load` would decode. `Unreadable` stands for a file whose reader raises, which gives the empty table. `read_csv`'s type inference is taken as given: cells arrive typed.
- WabLoader.ConvertWabTxt: the writing of the JSON file is not modelled. Neither is the `None` returned when reading or writing raises. It returns the target path and the records that would be written.
- `converter_todos_wab_txt_para_json` is left out: it is a directory walk over the file system. So are `padronizar_datas` and `src/models/c6_loader.py`, which are not used by the analysis.
- Logging and `print` output are left out everywhere, along with the terminal's screens and input loops. A prompt that asks again is `None`. Of `exibir_resumo_dados`, only the shared month display is modelled; its grouping of sources for display is left out.
- Date conversion is the `Runtime.parseDate` parameter; only its "datetime or NaT" shape is stated. The text `str()` writes for a float is the `Runtime.showFloat` parameter.
- Decimal.PyFloatAccepts: the grammar is an optional sign followed by digits with at most one '.'. `float()` also reads exponents ("1e3", "1e-05"), '_' between digits ("1_000"), "inf"/"infinity" and "nan" in any case. Such text can reach it: a text cell "1e3" passes every cleaner unchanged, and a float whose `str()` uses exponent form ("1e+16", "1e-05") does too. This model reads all of it as rejected, so it counts as 0 (`Money.ParseOrZero`) or makes `DataLoader.StandardiseMoney` fail, where `float()` reads a value. The one exception is a NaN cell, whose "nan" is handled apart (`DataLoader.MoneyNan`). Amounts are exact reals, so infinity and NaN have no value here, and exponents are left out with them.
- Money.ParseOrZero: the column-wide retry (`astype(float)`, then `to_numeric(errors='coerce').fillna(0)`) is modelled one cell at a time. A cell `float()` accepts keeps its value, and one it rejects becomes 0. `to_numeric`'s own grammar is taken to be `float()`'s. A NaN cell counts as 0 in the amount, which leaves every sum pandas computes (NaN skipped) unchanged.
- Text.Lower: lower-cases ASCII letters only. All keywords are ASCII, and no non-ASCII character lower-cases to a keyword's letters in a way that would change a match.
- TerminalView.AcceptMonthYear: counts only '0'..'9' as digits. `str.isdigit` also accepts other Unicode digits, which `int()` may then reject.
- Decimal.ParseInt: reads an optional sign and ASCII digits after stripping. `int()` also accepts '_' separators and non-ASCII digits.
- WabLoader.FrameCells: states a cell's content only for a key that no other key of its record renames onto. pandas would give a duplicated column there.
- DataLoader.ReadCsvCells: requires the renamed header to be free of repeats. A repeated name takes the cells of its first occurrence, where pandas would keep both columns.
- DataLoader.StandardiseMoney: a column listed twice is cleaned once. The source would clean the already-converted floats a second time. Also, the error is the fixed text "ValueError: could not convert string to float", without the offending value.
- Controller.ColumnStats: mean, minimum and maximum are exact reals. pandas rounds them in binary floating point. A column with no number gives `None` where pandas gives NaN. The dtype check `int64`/`float64` is a column holding only integers, amounts and NaN.
- Analisador.KeepContaining: a filter column holding no text at all, for example only NaN, keeps no row here. pandas' `.str` accessor would raise `AttributeError` on such a column.
- `detalhes_divergencias` is always the empty list and is not part of `Analysis`.
- Analisador.CompareSources: `_comparar_fontes` would raise `TypeError` when it builds its result, so only its arithmetic is modelled.
- Source names other than the five keys `carregar_dados_mes` produces can reach the analyser only through `obter_detalhes_fonte`. That path is modelled by `Controller.KeyOf`, which finds no source for them.
