# Euro 2024 final dashboard: event shaping and metrics

This project models the data logic of the Streamlit dashboard
`euro_final_dashboard.py`. The dashboard reads one CSV of StatsBomb match
events. It decodes the `"[x, y]"` location strings into numeric coordinate
columns. The sidebar filters the rows by team and then by player. The page then
shows one of three pitch views and a few statistics: pass accuracy, pass count,
the five most frequent pass recipients and the expected-threat (xT) total.
Everything is modelled as pure functions over a sequence of event records. The
page layout, the widgets and the drawing are not modelled.

Modules, one per concern:

- `Events` (`events.dfy`): the event record. Each nullable cell is an `Option`.
  A `Table` is the set of optional columns present plus the rows in order.
- `Coordinates` (`coordinates.dfy`): decoding one location cell. It models
  `str.strip('[]')`, `str.split(', ')`, and `float()` on decimal tokens.
- `Loading` (`loading.dfy`): the three guarded extraction blocks of
  `load_data`, composed into `Normalize`.
- `StringOrder` (`string_order.dfy`): Python's `<` on `str`, and the
  sorted, duplicate-free list that `sorted(... .unique())` yields.
- `Seqs` (`seqs.dfy`): boolean-mask row selection `df[mask]` as an
  order-preserving filter.
- `Selection` (`selection.dfy`): the team filter, the player list and the
  player filter.
- `Metrics` (`metrics.dfy`): the rows of each view, the pass statistics, the
  recipient ranking, and the xT guard and sum.
- `Wrappers` (`wrappers.dfy`): `Option` and `Result`.

Behaviour of the code worth noting:

- A pass counts as completed exactly when `pass_outcome` is missing (`isna()`).
  A present but empty string would count as a failed pass. The CSV reader turns
  empty cells into missing ones, so the two readings agree on real files.
- The separator is the literal `", "`. A cell written `"[10,20]"` yields the
  single token `"10,20"`, which is not a number, so loading fails. It does not
  yield (10, 20) (`Coordinates.DecodeRejectsMissingSpace`).
- The pass-map and carry views hand every pass or carry row to the plotting
  call. No row is dropped for a missing end point; the views only select rows.
- A malformed cell in any present location column fails the whole load. This
  is the `ValueError` of `astype(float)`. The model reports it as
  `MalformedCoordinate` with the column and the cell.

## Model

| member | source | states |
|---|---|---|
| Coordinates.StripLeading | euro_final_dashboard.py:24 | the leading-bracket part of `strip('[]')`: the result is a suffix of the input, everything removed is a bracket, and the result does not start with one |
| Coordinates.StripTrailing | euro_final_dashboard.py:24 | the trailing-bracket part of `strip('[]')`: the result is a prefix of the input, everything removed is a bracket, and the result does not end with one |
| Coordinates.StripBrackets | euro_final_dashboard.py:24 | `strip('[]')`: the result has no bracket at either end and is a contiguous piece of the input from which only brackets were removed, in front and behind |
| Coordinates.StripEnclosed | euro_final_dashboard.py:24 | `strip('[]')` of `"[" + m + "]"` is `m` when neither end of `m` is a bracket |
| Coordinates.Split | euro_final_dashboard.py:24 | `split(', ')`: the pieces joined with `", "` give back the string, and no piece contains `", "` |
| Coordinates.SplitFirst | euro_final_dashboard.py:24 | a leading piece without `", "` is split off at the first separator |
| Coordinates.SplitWhole | euro_final_dashboard.py:24 | a string without `", "` splits into itself alone |
| Coordinates.TokensRejoin | euro_final_dashboard.py:24 | the tokens of a cell (`Coordinates.Tokens`), joined by `", "`, give back the stripped cell, and no token holds `", "` |
| Coordinates.TokensOfPair | euro_final_dashboard.py:24-25 | the tokens of `"[" + a + ", " + b + "]"` are exactly `[a, b]` when `a` and `b` hold no `", "` and add no bracket at the ends |
| Coordinates.NatToDigits | euro_final_dashboard.py:24 | decimal digits of `n` that read back as `n`; used to state the parse round trip |
| Coordinates.FormatTenths | euro_final_dashboard.py:24 | a coordinate written with one decimal place holds no separator and no bracket at either end |
| Coordinates.ParseFormatTenths | euro_final_dashboard.py:24 | `float()` of a coordinate written with one decimal place gives back its value |
| Coordinates.ParseUnsignedOnly | euro_final_dashboard.py:24 | `float()` (`Coordinates.ParseNumber`) of a token with no surrounding space and no sign reads it as an unsigned decimal |
| Coordinates.ParseDecimal | euro_final_dashboard.py:24 | an unsigned decimal `whole.frac` denotes `whole` plus `frac` scaled down by ten per fractional digit |
| Coordinates.DecodeCell | euro_final_dashboard.py:24-25 | a missing cell gives a missing pair; a failure names the cell that did not parse |
| Coordinates.DecodeTokens | euro_final_dashboard.py:24-25 | the tokens of a cell give a point exactly when every token is a number; x comes from the first token, and y from the second, or is missing when there is only one |
| Coordinates.DecodeFailsOn | euro_final_dashboard.py:24 | a single token that is not a number makes the whole cell malformed |
| Coordinates.TokensOfWhole | euro_final_dashboard.py:24 | `"[" + m + "]"` with no separator in `m` and no bracket at its ends is the single token `m` |
| Coordinates.DecodePair | euro_final_dashboard.py:24-25 | `"[a, b]"` decodes to x = `float(a)` and y = `float(b)`, and fails exactly when `a` or `b` is not a number |
| Coordinates.DecodeEncodeTenths | euro_final_dashboard.py:24-25 | a cell written as StatsBomb writes it decodes to the coordinates it was written from |
| Coordinates.DecodeExample | euro_final_dashboard.py:24-25 | `"[45.3, 12.1]"` decodes to x = 45.3 and y = 12.1 |
| Coordinates.ParseRejectsNonDigit | euro_final_dashboard.py:24 | a token without a decimal point that holds a non-digit is not a number |
| Coordinates.DecodeRejectsWord | euro_final_dashboard.py:24 | `"[abc, 12]"` is malformed |
| Coordinates.DecodeRejectsMissingSpace | euro_final_dashboard.py:24 | `"[10,20]"` is malformed, because the separator needs the space |
| Loading.DecodeRows | euro_final_dashboard.py:24-25 | decoding a column succeeds exactly when every row's cell decodes; then row `i` is row `i` with that column's pair set to its decoded cell; otherwise the error names a malformed cell of some row |
| Loading.ExtractColumn | euro_final_dashboard.py:23-35 | an absent location column leaves the table unchanged; a present one adds exactly its two derived columns |
| Loading.Normalize | euro_final_dashboard.py:21-35 | the extraction of `load_data`: on success the table gains exactly the derived columns of its present location columns and keeps its number of rows; a failure names a present location column |
| Loading.DecodeRowsWith | euro_final_dashboard.py:24-25 | decoding one column row by row succeeds exactly when the decoder accepts every row's cell; then each row gets its decoded pair; a failure carries a cell the decoder rejected |
| Loading.NormalizeRowwise | euro_final_dashboard.py:21-35 | loading succeeds exactly when every present location cell of every row decodes; then the columns gain the derived pairs of the present location columns, and each row keeps its raw cells and gets decoded pairs for the present columns only |
| Loading.NormalizeIdempotent | euro_final_dashboard.py:21-35 | loading an already loaded table returns it unchanged |
| Loading.LoadedCoordinates | euro_final_dashboard.py:23-35 | after loading, a row whose location cell reads `"[a, b]"` has x = `float(a)` and y = `float(b)`; the same holds for `pass_end_location` and `carry_end_location` |
| Loading.NormalizedAt | euro_final_dashboard.py:23-35 | after loading, the derived pair of a present location column holds what that row's cell decodes to |
| Seqs.Filter | euro_final_dashboard.py:50 | a boolean-mask selection keeps exactly the rows that pass the mask, each as often as it occurs, and no others |
| Seqs.FilterIsSubseq | euro_final_dashboard.py:50 | a mask selection keeps the rows in their original order |
| Seqs.FilterCardinality | euro_final_dashboard.py:100-102 | `len()` of a selection is the number of row positions the mask selects |
| Seqs.FilterFilter | euro_final_dashboard.py:100 | selecting inside a selection is selecting by both conditions |
| Seqs.SubseqTransitive | euro_final_dashboard.py:50-59 | a selection from a selection keeps the order of the original rows |
| Selection.FilterByTeam | euro_final_dashboard.py:50 | the team rows are exactly the rows whose `team` equals the choice, in original order |
| Selection.PlayerNames | euro_final_dashboard.py:51 | the non-missing player names are exactly those of the team rows |
| Selection.PlayerOptions | euro_final_dashboard.py:51 | the player list is `"All Team"` followed by the team's non-missing player names, each once, in ascending order |
| Selection.FilterByPlayer | euro_final_dashboard.py:56-59 | `"All Team"` keeps exactly the team rows; any other choice keeps exactly the team rows of that player; either way the result is an in-order selection of the team rows |
| Selection.SelectedRows | euro_final_dashboard.py:50-59 | the shown rows are exactly the rows of the chosen team, and of the chosen player unless `"All Team"` was chosen, each as often as in the table and in table order |
| Selection.OfferedPlayerHasRows | euro_final_dashboard.py:51-59 | every player offered in the list selects at least one row, a player literally named `"All Team"` included |
| StringOrder.BelowIrreflexive | euro_final_dashboard.py:51 | no string is below itself in Python's string order (`StringOrder.Below`) |
| StringOrder.BelowTransitive | euro_final_dashboard.py:51 | Python's string order is transitive |
| StringOrder.BelowTotal | euro_final_dashboard.py:51 | any two different strings are ordered one way or the other |
| StringOrder.Insert | euro_final_dashboard.py:51 | inserting a name keeps the list strictly ascending and adds exactly that name |
| StringOrder.SortedUnique | euro_final_dashboard.py:51 | `sorted(unique(xs))` is strictly ascending and holds exactly the values of `xs` |
| StringOrder.AscendingUnique | euro_final_dashboard.py:51 | a strictly ascending list is determined by its elements, so the player list does not depend on row order |
| Metrics.ViewRows | euro_final_dashboard.py:74-89 | the pass map draws exactly the Pass rows, the heatmap all shown rows, the carry view exactly the Carry rows, each in order |
| Metrics.PassMetrics | euro_final_dashboard.py:98-102 | no statistics when there is no pass; otherwise total = number of rows of type Pass, completed = number of those with a missing `pass_outcome`, and 0 <= completed <= total |
| Metrics.Accuracy | euro_final_dashboard.py:100 | accuracy lies in [0, 100], is 100 exactly when every pass was completed, and is 0 exactly when none was |
| Metrics.AccuracyOfOneInTwo | euro_final_dashboard.py:98-102 | one completed and one incomplete pass give 2 passes and accuracy 50 |
| Metrics.Recipients | euro_final_dashboard.py:108 | missing recipients are dropped; the remaining names are exactly the passes' recipients |
| Metrics.RecipientMultiplicity | euro_final_dashboard.py:108 | a name occurs among the recipients exactly as often as there are rows passed to that player |
| Metrics.FirstIndex | euro_final_dashboard.py:108 | the position of a name's first occurrence, which breaks ties between equal counts |
| Metrics.InsertTally | euro_final_dashboard.py:108 | inserting a tally keeps the ranking order and adds exactly that tally |
| Metrics.SortTallies | euro_final_dashboard.py:108 | sorting puts the tallies in ranking order without adding or losing any |
| Metrics.Ranking | euro_final_dashboard.py:108 | every distinct recipient appears once with its exact count, in descending count order |
| Metrics.Head | euro_final_dashboard.py:108 | `.head(5)`: the first five entries of the ranking, or all of them when there are fewer |
| Metrics.TopRecipients | euro_final_dashboard.py:108 | at most 5 entries; each count is that recipient's number of occurrences among the passes; counts do not increase down the list, ties in order of first appearance; any recipient left out ranks below all 5 listed ones |
| Metrics.TopRecipientCounts | euro_final_dashboard.py:108 | each listed count is the number of pass rows whose `pass_recipient` is that player |
| Metrics.ExpectedThreat | euro_final_dashboard.py:111-112 | the xT figure is reported exactly when an `xT` column exists, and it is then the sum of the column |
| Metrics.ThreatSumPartition | euro_final_dashboard.py:112 | the xT sum splits over any division of the rows in two |
| Metrics.ThreatSumSkipsMissing | euro_final_dashboard.py:112 | missing xT cells add nothing to the sum |
| Metrics.ThreatSumOfMissing | euro_final_dashboard.py:112 | `.sum()` (`Metrics.ThreatSum`) of a column whose cells are all NaN is 0 |

## Left out

- Page setup, widgets, columns, titles and metric display (euro_final_dashboard.py:9-10, :44, :47, :52, :63-68, :91, :94, :101-102, :106-107). These are UI. The sidebar choices become plain parameters. The team choices offered at :47 are not modelled.
- The mplsoccer pitch, arrows, lines and heatmap binning (euro_final_dashboard.py:71-89). These are calls into a plotting library; only the choice of rows handed to them is modelled.
- The file-existence check, the CSV read and the error message for a missing file (euro_final_dashboard.py:16-19, :38, :114-116). These are I/O. `Normalize` takes the table as read.
- The `st.cache_data` memoisation (euro_final_dashboard.py:13). It is framework caching.
- In-place column assignment on the freshly read DataFrame (euro_final_dashboard.py:25, :30, :35) is modelled as a function that returns the augmented table. The frame is local to `load_data`, so no aliasing is lost.
- Floating point: coordinates, accuracy and the xT total are exact `real`s. Rounding and the `:.1f` and `:.3f` formatting are not modelled.
- Coordinates.ParseNumber: accepts only decimal notation in ASCII digits: an optional sign, digits, an optional point and digits, with surrounding ASCII space, tab, newline or carriage return. Python's `float()` also accepts exponents, `inf`, `nan`, digit underscores, non-ASCII decimal digits such as Arabic-Indic ones, and other Unicode white space. The model rejects these.
- Coordinates.DecodeCell: a cell that yields only one token gets a missing y. pandas gives NaN there too, unless no row of the column yields two tokens (the empty table included). In that case `coords[1]` raises a KeyError, which the model does not reproduce. A location column with no string cell at all (pandas then refuses `.str`) is not modelled either.
- The KeyError pandas raises when one of the always-present StatsBomb columns (`type`, `team`, `player`, `pass_outcome`, `pass_recipient`) is missing is not modelled: these columns are taken to exist.
- Metrics.TopRecipients: ties between equal counts are listed in order of first appearance among the passes. The model fixes this order; the code leaves tie order to pandas.
