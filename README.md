# Fluxo B3: investor flows against the Ibovespa

The application scrapes the daily table of B3 investor flows (foreign,
institutional, individual, financial-institution and other investors),
reads each amount printed in Brazilian notation ("1.234,5", "-0,8 bi",
"350 mi") as billions of reais, accumulates each category since
1 January 2025, pairs every day with the Ibovespa close, and plots the
result. This project models the data normalisation behind the chart:

- `normalize_colname`, which turns a table header into a canonical key
  (module `Header`, with its Unicode and string helpers in `Unicode` and
  `Strings`);
- `parse_valor`, which turns a cell into an amount (module `Valor`, over a
  model of Python's `float` on decimal literals in `Numeral`);
- the table transform of `gerar_grafico`:
  - the columns renamed to their keys;
  - the `data` column read as days;
  - the rows kept inside the window and sorted by day (`Window`);
  - a `_bi` and an `_acum` column added for each flow column (`Flows`);
  - the left merge with the index history (`Join`);
  - the forward fill of the index column (`Fill`);
  - the index axis bounds and the summary `resumo` (`Report`).
- the whole transform, as one method that rebinds `df` and `df_final`
  step by step (`Pipeline.Generate`), proved equal to a pure definition
  (`Pipeline.Run`).

A table is a `Frame`: its column names, one sequence of cells per column,
and the common height. A cell is a text, a number, a day, or `Absent`
(NaN/NaT). Each `*Facts` module proves the properties of the module it
follows.

`parse_valor` removes "r$" before it lowercases, so a cell written
"R$ 1,5 bi" keeps its "r" and `float` refuses it. The model follows the
code: `ValorFacts.UppercaseCurrencyFails` proves that every text starting
with "R$" is an error. Only a lowercase "r$" is removed, as
`ValorFacts.LowercaseCurrencyStripped` states.

## Model

| member | source | states |
|---|---|---|
| Header.NormalizeColname | app.py:11-14 | the header decomposed (NFD), stripped of its nonspacing marks, lowercased, then stripped of spaces and periods, in that order; its properties are the lemmas below |
| Header.NormalizeColnameKey | app.py:11-14 | every character of a key is lowercase, is no nonspacing mark (category Mn), is neither a space nor a period, and has no further canonical decomposition |
| Header.NormalizeColnameFixes | app.py:11-14 | a text made only of key characters is its own key |
| Header.NormalizeColnameIdempotent | app.py:11-14 | normalising a key again changes nothing |
| Header.NormalizeColnameConcat | app.py:11-14 | the key of a concatenation is the concatenation of the keys, since each step works character by character |
| Header.AccentedKey | app.py:13 | a character that decomposes into a small ASCII letter and one combining accent keys to that small letter (the Mn filter after NFD) |
| Header.SeparatorVanishes | app.py:14 | spaces and periods leave nothing in the key |
| Header.JoinKey | app.py:11-14 | words joined by spaces and periods key to the concatenation of their keys |
| HeaderExamples.AccentedHeaderKey | app.py:11-14 | "Pessoa Física" and "Pessoa Fisica" both key to "pessoafisica" |
| HeaderExamples.PunctuatedHeaderKey | app.py:11-14 | "Inst. Financeira" keys to "instfinanceira" |
| HeaderExamples.SingleWordKeys | app.py:11-14 | "Estrangeiro", "Institucional", "Outros" and "Data" key to "estrangeiro", "institucional", "outros" and "data" |
| Valor.Clean | app.py:17 | the clean-up steps in the code's order: drop "r$", drop spaces, drop periods, commas to periods, strip, lowercase; its properties are the lemmas below |
| Valor.ParseValor | app.py:16-21 | the cleaned text routed as the code routes it: "mi" first, then "bi", then the zero tokens, then `float`; its properties are the lemmas below |
| Numeral.ParseFloat | app.py:18-21 | `float` on a decimal literal (optional sign, digits with an optional point, optional exponent, surrounding whitespace), an error on any other text, and that error carries the text it was given |
| ValorFacts.CleanPlain | app.py:17 | on digits, signs, spaces, periods, commas and lowercase letters other than `r`, the clean-up drops spaces and periods and turns each comma into the decimal point |
| ValorFacts.NoSeparatorsLeft | app.py:17 | no space and no comma survives the clean-up |
| ValorFacts.DecimalPointFromComma | app.py:17 | the cleaned text has a decimal point exactly when the cell has a comma: a period in the cell groups thousands and is dropped |
| ValorFacts.BrazilianDecimal | app.py:17-21 | grouped digits, a comma and decimals read as their value, and with a leading minus as its negation |
| ValorFacts.GroupedInteger | app.py:17-21 | grouped digits without a comma read as the integer they spell |
| ValorExamples.ThousandsExample | app.py:17-21 | "2.500,75" reads as 2500.75 |
| ValorExamples.MillionsExample | app.py:17-18 | "350 mi" reads as 0.35 (billions) |
| ValorFacts.MillionsRoute | app.py:18 | a cleaned text ending in "mi", whose rest has no `m`, is the thousandth of `float` of the rest |
| ValorFacts.BillionsRoute | app.py:19 | a cleaned text ending in "bi", whose rest has no `m` and no `b`, is `float` of the rest |
| ValorFacts.MillionsAreThousandths | app.py:18-19 | an amount with the unit "mi" is the thousandth of the bare amount, and with "bi" it is the bare amount |
| ValorFacts.BothUnitsFail | app.py:18 | "mi" is tested first: a text holding both units loses only "mi", keeps the "b" of "bi", and is an error |
| ValorFacts.BareUnitFails | app.py:18-19 | a unit with no number is an error |
| ValorFacts.ZeroTokens | app.py:20 | a cell that cleans to "", "-" or "nan" is 0 |
| ValorFacts.ZeroTokenValue | app.py:20 | the texts "", "-" and "nan" (an empty cell's `str()`) are 0 |
| ValorFacts.PlainRoute | app.py:18-21 | a cleaned text holding neither "mi" nor "bi" and no zero token is read by `float` |
| ValorFacts.StrayCharFails | app.py:18-21 | a cleaned text that is no zero token and holds a character no decimal literal has, other than the unit letters `m`, `i` and `b`, is an error, with or without a unit |
| ValorFacts.StrayUnitLetterFails | app.py:18-21 | a cleaned text with a unit letter `m`, `i` or `b` but neither "mi" nor "bi" (such as "5m") reaches `float` and is an error |
| ValorFacts.LowercaseCurrencyStripped | app.py:17 | a leading "r$" changes nothing |
| ValorFacts.UppercaseCurrencyFails | app.py:17 | a text starting with "R$" is an error |
| NumeralFacts.DecimalLiteral | app.py:21 | `float` reads digits, a point and digits as integer part plus fraction |
| NumeralFacts.IntegerLiteral | app.py:21 | `float` reads a run of digits, signed or not, as its integer |
| NumeralFacts.EmptyFloatFails | app.py:21 | `float('')` is an error |
| NumeralFacts.ShowNatRoundTrip | app.py:21 | `float` reads a printed natural number back exactly |
| Window.ToDates | app.py:43 | each `data` cell becomes a day when `to_datetime` reads one and NaT otherwise |
| Window.WindowRows | app.py:44 | the kept rows in date order: every one a day, sorted by day |
| Window.Kept | app.py:44 | the rows the mask keeps are increasing positions whose day lies in the window |
| Window.FilterWindow | app.py:44 | the loop over the rows yields exactly `Kept` |
| WindowFacts.KeptExactly | app.py:44 | a row is kept if and only if its day is not NaT and lies between the start and the end, both included |
| Window.SortByDate | app.py:44 | the kept rows sorted by day: sorted, and a permutation of the kept rows |
| WindowFacts.WindowRowsExactly | app.py:44 | each row of the sorted window is in the window, and each in-window row appears exactly once |
| Flows.FlowColumns | app.py:45 | exactly the columns whose name contains one of the five category keys, in table order |
| FlowsFacts.FlowColumnsConcat | app.py:45 | the selection keeps column order |
| Flows.ParseColumn | app.py:47 | `apply(parse_valor)` succeeds exactly when every cell parses, giving each cell's value; an error is the first failing cell's |
| Flows.PrefixSum | app.py:48 | the running totals, one per value; `PrefixSumIsTotal` and `PrefixSumStep` state their values |
| Flows.CumSum | app.py:48 | the running-total loop yields the prefix sums |
| FlowsFacts.PrefixSumIsTotal | app.py:48 | entry `i` of the running totals is the sum of entries `0..i` |
| FlowsFacts.PrefixSumStep | app.py:48 | the first running total is the first value, and each next one adds the next value |
| Flows.AddCategory | app.py:47-48 | one category fails exactly when its column fails to parse, and otherwise adds its `_bi` and `_acum` columns and nothing else |
| FlowsFacts.AddCategoryColumns | app.py:47-48 | `_bi` holds the parsed values, `_acum` their running totals, and every other column is unchanged |
| Flows.Enrich | app.py:46-48 | the passes over the given columns, in order, stopping at the first error; a success keeps every earlier column and the height |
| Flows.EnrichFlows | app.py:46-48 | the loop over the flow columns computes `Enrich` over the selection |
| FlowsFacts.EnrichColumns | app.py:46-48 | after the loop each flow column has its `_bi` values and `_acum` running totals |
| FlowsFacts.EnrichKeeps | app.py:46-48 | the loop changes no column other than the ones it writes |
| FlowsFacts.EnrichFails | app.py:46-48 | the loop fails exactly when some flow column has a cell `parse_valor` refuses |
| Join.LeftJoin | app.py:49 | the merge appends `ibovespa`, has one row per pairing, and fails when the flow table already has an `ibovespa` column |
| JoinFacts.JoinRowsOrder | app.py:49 | the merged rows come from the flow rows in their order, and no flow row is lost |
| JoinFacts.JoinIsLookup | app.py:49 | with one index row per day the merge keeps exactly the flow rows, and each row receives the close of its day |
| JoinFacts.LookupClose | app.py:49 | a row gets the close of the index row of its day, or NaN when there is none |
| JoinFacts.LeftJoinColumn | app.py:49 | every flow column is repeated as the merge pairs the rows, and `ibovespa` holds the paired closes |
| Fill.LastPresent | app.py:50 | the last non-NaN cell, and NaN exactly when every cell is NaN |
| Fill.ForwardFill | app.py:50 | the fill, one entry per cell; `ForwardFillAt` states each entry |
| Fill.FillForward | app.py:50 | the one-pass fill computes `ForwardFill` |
| FillFacts.ForwardFillAt | app.py:50 | filled entry `i` is the last value among entries `0..i` |
| FillFacts.FillKeeps | app.py:50 | a value that is not NaN is kept |
| FillFacts.FillLeading | app.py:50 | a filled entry is NaN exactly when every entry up to it is NaN |
| FillFacts.FillNearest | app.py:50 | a NaN after some value takes the value of the nearest earlier non-NaN entry |
| Report.Lowest | app.py:72 | `min()` skipping NaN: a number of the column no greater than any other, or none when there is no number |
| Report.Highest | app.py:73 | `max()` skipping NaN: a number of the column no less than any other, or none when there is no number |
| Report.AxisBounds | app.py:72-73 | the bounds fail (`int(NaN)`) exactly when the index column has no number |
| ReportFacts.RoundDownBounds | app.py:72-73 | `x // 2500 * 2500` is a multiple of 2500 at most `x` and more than `x - 2500` |
| ReportFacts.AxisBoundsEnclose | app.py:72-73 | both bounds are multiples of 2500, every close lies in `[low, high)`, and each bound is within one step of some close |
| Report.SummaryValue | app.py:100 | a missing column gives 0; a present one gives its last non-NaN value, and an error when it has none |
| Report.Summary | app.py:98-100 | the summary entries for the given keys, in order, stopping at the first error, which names one of the keys; `SummaryKeys` states its contents |
| Report.BuildSummary | app.py:98-100 | the loop over the legend keys computes `Summary` over the legend |
| ReportFacts.SummaryKeys | app.py:98-100 | the summary has exactly the keys, in order, each with its value, and fails exactly when one key's column has no value |
| ReportFacts.SummaryIsLastValue | app.py:100 | the value of a present column is the cell after which the column holds only NaN |
| PipelineFacts.LegendFollowsCategories | app.py:45-60 | the five legend keys are the five category keys with `_acum` appended |
| Pipeline.RenameColumns | app.py:42 | every header is replaced by its key, and no column changes |
| Pipeline.Windowed | app.py:43-44 | the `data` column converted to days, then the in-window rows in date order; the frame stays well formed and keeps `data` |
| Pipeline.Filled | app.py:50 | the `ibovespa` column replaced by its forward fill, all names kept |
| Pipeline.Prepare | app.py:42-50 | the renaming, the window, the flow columns, the merge and the fill, failing where the code raises; a success has `data` and `ibovespa` |
| Pipeline.Run | app.py:42-100 | a successful run's final frame is the frame the table steps produce |
| Pipeline.Generate | app.py:42-100 | the step-by-step transform computes `Run` |
| PipelineFacts.RunSummary | app.py:98-100 | a successful run's summary has the five legend keys in order, each with the last value of its column or 0 |
| PipelineFacts.PrepareRows | app.py:43-50 | with one index row per day, the final `data` column is the converted `data` column at the in-window positions, each once and in date order |
| PipelineFacts.PrepareIbovespa | app.py:49-50 | the final `ibovespa` column is the forward fill of the closes the merge pairs with the rows |

## Left out

- The Flask route, the HTTP fetch of the flow page, `pd.read_html` and the `yf.download` call are input and output. The scraped table and the index history are inputs of `Pipeline.Run`.
- The index history is modelled as rows of a day and a close. The MultiIndex flattening, the renaming of `Date` and `Close`, and the other index columns the merge also carries (Open, High, Low, Volume) are not modelled.
- `datetime.today()` is the parameter `end`.
- `pd.to_datetime(..., errors='coerce', dayfirst=True)` and `str()` of numbers and days are passed in as the total functions of `Frames.Library`. Their formats are not modelled.
- The chart itself is not modelled: matplotlib, the ticks every seven rows, the tick labels, the watermark and the PNG/base64 encoding.
- Unicode normalisation covers only Latin-1 letters with one combining accent, and lowercasing covers only ASCII and Latin-1 capitals. Other scripts are out of scope.
- Nonspacing marks are the block U+0300..U+036F, not the full Mn category.
- `float` is modelled on decimal literals: sign, digits, point and exponent, with surrounding whitespace. It is exact over the reals.
  - `inf`, `nan`, underscores and IEEE rounding are not modelled; those texts are errors in the model.
- The table's cells are modelled as texts, as `read_html` gives them when its own number parsing does not apply. A cell that pandas already turned into a number reaches `parse_valor` through `str()`, which is the `showNum` library function.
- `df[name]` finds the first column with that name. Duplicate column names, which pandas would return as a frame, are out of scope.
- `str(col)` of a header that is not a string is not modelled; headers are texts.
- `SortByDate`: pandas' default sort is not stable, so the order of rows of the same day is not specified. The model uses an insertion sort, and its contract states only sorted and a permutation.
- `Series.cumsum` skipping NaN is not modelled, because `parse_valor` never yields NaN in the model.
- `Report.SummaryValue`: the 0 for a missing column is the number `Num(0.0)`, where Python stores the integer `0`.
- Merging a flow table that already has an `ibovespa` column yields `ibovespa_x` and `ibovespa_y`. The model reports it as the error that the next line raises; the suffixed names are not modelled.
- The merge by day compares days only. Times of day are not modelled.
