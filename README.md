# Verified model of the FIESC data-analysis scripts

This project models, in Dafny, the table logic of a set of pandas reporting
scripts written for a data-analyst assessment at FIESC (the Santa Catarina
industry federation). Every script reads CSV or Excel files, reshapes them
with pandas and writes Excel, HTML or pickle output. The model keeps what
lies between reading and writing:

- **Validation of establishment counts** (`6_validacao`). Gold aggregates are
  reconciled against the TABNET export, by micro-region and by
  municipality. TABNET labels such as "420005 ABDON BATISTA" are split into
  a code and a name, the two tables are outer-joined on the normalised name,
  and every row gets a difference, a percentage and a ✓ / ⚠️ / ❌ status.
  Further checks cover:
  - the grand totals (an explicit "Total" row against a computed sum);
  - the internal consistency of municipalities against micro-regions,
    through the Silver mapping table;
  - the structure of the raw exports (the header search, the `;` split,
    missing-value counts and mojibake counts).

  A consolidated report grades every finding Alta, Média or Baixa and
  derives recommendations from them.
- **Pork exports** (`demanda2`). The model covers the NCM codes padded to 8
  digits, the 2024 / SC filter, a four-heading summary with its Total and a
  per-code detail with its Total.
- **Vehicle fleet rankings** (`demanda3`). Brand and brand+model are cut at
  the first space, summed, sorted largest first and numbered 1..n.
- **Workforce stock** (`demanda4`). RAIS gives the observed stock for
  2002..2022. Novo CAGED balances carry it forward to 2023 and 2024, and the
  table is sorted latest year first.
- **Joinville wages** (`demanda1`). The model covers:
  - the column check;
  - trimming, CNAE zero-padding and decimal-comma parsing;
  - the Joinville filter;
  - per-sector means and the industrial / non-industrial means.

Tables are sequences of row datatypes and a missing value is `Option`.
Counts and money are `int` and means are exact `real`. A percentage is a
datatype that also holds NaN and ±inf, as float64 division does.

pandas operations are modelled once, in shared modules:
- `Joins`: `merge` with inner, left and outer joins. A missing key matches
  a missing key.
- `Grouping`: `groupby().sum()`.
- `Sorting`: `sort_values` as an unstable sort specified by a total
  preorder.
- `Seqs`: `sum`, counting and filtering.
- `Text`: `str.lower`, `strip`, `split`, `zfill`, `isdigit` and
  `to_numeric`.

The scripts' own loops (the header search, the summary loop, the
year-by-year loop, the loops that fill the inconsistency and recommendation
lists, and the structural check that rewrites its dictionary of tables in
place) are methods. Each is proved equal to the function that specifies it.

## Model

| member | source | states |
|---|---|---|
| Text.Lower | mauricio-goncalves-analista-dados-fiesc/6_validacao/s4_validacao_cruzada_comparacao_microrregiao.py:26 | `str.lower()` keeps the length, and every character becomes its lower-case form (ASCII and Latin-1 letters); no upper-case letter is left |
| Text.LowerIdempotent | mauricio-goncalves-analista-dados-fiesc/6_validacao/s4_validacao_cruzada_comparacao_microrregiao.py:26 | lower-casing twice is lower-casing once |
| Text.Strip | mauricio-goncalves-analista-dados-fiesc/6_validacao/s4_validacao_cruzada_comparacao_microrregiao.py:26 | `str.strip()` returns the slice of the input between its leading and its trailing whitespace, with no whitespace left at either end |
| Text.StripFixed | mauricio-goncalves-analista-dados-fiesc/6_validacao/s4_validacao_cruzada_comparacao_microrregiao.py:26 | a string with no surrounding whitespace is unchanged by `strip()` |
| Text.StripLeadingBlank | mauricio-goncalves-analista-dados-fiesc/1_demanda1/demanda1.py:25 | `strip()` of a name behind one blank gives the name back |
| Text.StripLower | mauricio-goncalves-analista-dados-fiesc/6_validacao/s4_validacao_cruzada_comparacao_microrregiao.py:26 | lower-casing and stripping commute |
| Text.SplitOnce | mauricio-goncalves-analista-dados-fiesc/6_validacao/s4_validacao_cruzada_comparacao_microrregiao.py:36 | `split(' ', 1)` gives one part (the whole text) when there is no separator; otherwise it gives two parts, cut at the first separator, that glue back to the text |
| Text.Split | mauricio-goncalves-analista-dados-fiesc/6_validacao/s2_validacao_estrutural.py:30 | `split(';')` gives parts that hold no separator and join back to the text |
| Text.ReplaceChar | mauricio-goncalves-analista-dados-fiesc/1_demanda1/demanda1.py:32 | `replace(',', '.')` keeps the length, leaves other characters alone and leaves no ',' |
| Text.NatToDecimal | mauricio-goncalves-analista-dados-fiesc/6_validacao/s2_validacao_estrutural.py:85 | `str(n)` is a non-empty digit string with no colon and no blank |
| Text.NatToDecimalRoundTrip | mauricio-goncalves-analista-dados-fiesc/6_validacao/s2_validacao_estrutural.py:85 | reading back the printed number gives the number |
| Text.ParseInt | mauricio-goncalves-analista-dados-fiesc/2_demanda2/demanda2.py:17-18 | `to_numeric(errors="coerce")` on an integer gives a value exactly for an optional sign followed by digits; anything else is missing |
| Text.ParseIntOfDecimal | mauricio-goncalves-analista-dados-fiesc/2_demanda2/demanda2.py:17-18 | a printed natural number parses back to itself |
| Text.UnsignedDecimal | mauricio-goncalves-analista-dados-fiesc/1_demanda1/demanda1.py:33 | a digit string reads as its value; a result is never negative |
| Text.ParseDecimal | mauricio-goncalves-analista-dados-fiesc/1_demanda1/demanda1.py:33 | a text that converts contains no ',' and no blank |
| Text.ZFill | mauricio-goncalves-analista-dados-fiesc/2_demanda2/demanda2.py:19-20 | `zfill(w)` leaves a string of length at least `w` as it is; otherwise it pads with '0' to length `w`, after the sign when there is one, and keeps the original characters |
| Text.ZFillDigits | mauricio-goncalves-analista-dados-fiesc/1_demanda1/demanda1.py:29 | padding a digit string keeps it a digit string with the same value |
| Text.ZFillIdempotent | mauricio-goncalves-analista-dados-fiesc/2_demanda2/demanda2.py:19-20 | padding twice is padding once |
| Text.LexIrreflexive | mauricio-goncalves-analista-dados-fiesc/2_demanda2/demanda2.py:73 | string order (`sort_values("CO_NCM")`) is irreflexive |
| Text.LexTransitive | mauricio-goncalves-analista-dados-fiesc/2_demanda2/demanda2.py:73 | string order is transitive |
| Text.LexTotal | mauricio-goncalves-analista-dados-fiesc/2_demanda2/demanda2.py:73 | two different strings are ordered one way or the other |
| Text.LexAsymmetric | mauricio-goncalves-analista-dados-fiesc/2_demanda2/demanda2.py:73 | string order is asymmetric |
| Seqs.Filter | mauricio-goncalves-analista-dados-fiesc/6_validacao/s4_validacao_cruzada_comparacao_microrregiao.py:96-97 | boolean-mask selection keeps exactly the rows that pass, each at most as often as in the input, and their number is the count of passing rows |
| Seqs.FilterCount | mauricio-goncalves-analista-dados-fiesc/6_validacao/s4_validacao_cruzada_comparacao_microrregiao.py:96-97 | a passing row is kept exactly as often as the input holds it, and a failing one never |
| Seqs.FilterAll | mauricio-goncalves-analista-dados-fiesc/1_demanda1/demanda1.py:36-39 | a mask every row passes keeps the table unchanged |
| Seqs.CountPermutation | mauricio-goncalves-analista-dados-fiesc/6_validacao/s4_validacao_cruzada_comparacao_microrregiao.py:122 | a mask count does not depend on row order |
| Seqs.CountComplement | mauricio-goncalves-analista-dados-fiesc/1_demanda1/demanda1.py:60-63 | every row passes a mask or its negation, never both |
| Seqs.CountAboveOne | mauricio-goncalves-analista-dados-fiesc/6_validacao/s6_validacao_de_consistencia_interna_rel_micro_muni.py:96-97 | a value occurs more than once exactly when two distinct rows hold it |
| Seqs.CountPositive | mauricio-goncalves-analista-dados-fiesc/3_demanda3/demanda3.py:53 | a mask count is positive exactly when some row passes |
| Seqs.SumConcat | mauricio-goncalves-analista-dados-fiesc/6_validacao/s3_validacao_cruzada_comparacao_de_totais.py:25-27 | the sum of a concatenation is the sum of the sums |
| Grouping.DistinctKeys | mauricio-goncalves-analista-dados-fiesc/3_demanda3/demanda3.py:56 | the group keys are distinct, every row's key is among them, and each of them is some row's key |
| Grouping.GroupSum | mauricio-goncalves-analista-dados-fiesc/3_demanda3/demanda3.py:55-57 | `groupby(key).sum()` has one row per distinct key, holding the sum of that key's values |
| Grouping.GroupSumTotal | mauricio-goncalves-analista-dados-fiesc/3_demanda3/demanda3.py:55-57 | the group sums add up to the column total: grouping loses and duplicates nothing |
| Grouping.SumOfSnoc | mauricio-goncalves-analista-dados-fiesc/4_demanda4/demanda4.py:26-27 | appending a row adds its value to its own key's sum only |
| Grouping.SumOfAbsent | mauricio-goncalves-analista-dados-fiesc/4_demanda4/demanda4.py:62-65 | a key with no row sums to 0 |
| Grouping.GroupSumLookup | mauricio-goncalves-analista-dados-fiesc/3_demanda3/demanda3.py:55-57 | a key that occurs has its group, holding the key's sum |
| Grouping.GroupedRowIsSum | mauricio-goncalves-analista-dados-fiesc/3_demanda3/demanda3.py:55-57 | every group row holds its key's sum |
| Grouping.GroupedKeyOccurs | mauricio-goncalves-analista-dados-fiesc/3_demanda3/demanda3.py:55-57 | every group key is the key of some input row |
| Grouping.GroupKeysDistinct | mauricio-goncalves-analista-dados-fiesc/3_demanda3/demanda3.py:58-59 | any selection of the groups, in any order, names each key once |
| Grouping.SumOfGrouped | mauricio-goncalves-analista-dados-fiesc/2_demanda2/demanda2.py:65-68 | summing a key over the grouped table gives the key's sum over the input |
| Grouping.SumOverSnocRows | mauricio-goncalves-analista-dados-fiesc/2_demanda2/demanda2.py:39-42 | appending a row adds its value once to a sum over distinct keys when its key is among them |
| Grouping.ValuesSumPermutation | mauricio-goncalves-analista-dados-fiesc/3_demanda3/demanda3.py:58 | a column total does not depend on row order |
| Sorting.SortBy | mauricio-goncalves-analista-dados-fiesc/3_demanda3/demanda3.py:58 | `sort_values` returns a permutation of its rows, ordered by the key's total preorder |
| Sorting.Insert | mauricio-goncalves-analista-dados-fiesc/3_demanda3/demanda3.py:58 | inserting into a sorted list keeps it sorted and adds exactly that element |
| Sorting.SortedPermutationsAgree | mauricio-goncalves-analista-dados-fiesc/4_demanda4/demanda4.py:77 | two sorted orders of the same rows agree on the key at every position, which is all an unstable sort guarantees |
| Joins.Matches | mauricio-goncalves-analista-dados-fiesc/6_validacao/s6_validacao_de_consistencia_interna_rel_micro_muni.py:54-59 | the right rows matching a key are all the rows with that key, none when the key is absent, at most one when keys are unique |
| Joins.Expand | mauricio-goncalves-analista-dados-fiesc/6_validacao/s6_validacao_de_consistencia_interna_rel_micro_muni.py:54-59 | a left row gives as many joined rows as it has matching right rows, or one with no right side when nothing matches |
| Joins.MatchesCount | mauricio-goncalves-analista-dados-fiesc/6_validacao/s6_validacao_de_consistencia_interna_rel_micro_muni.py:54-59 | the matches of a key hold each right row with that key as often as the right table does |
| Joins.ExpandCount | mauricio-goncalves-analista-dados-fiesc/6_validacao/s6_validacao_de_consistencia_interna_rel_micro_muni.py:54-59 | a left row is paired with a right payload once per right row holding it, and has no right side exactly once when no right row has its key |
| Joins.LeftJoin | mauricio-goncalves-analista-dados-fiesc/6_validacao/s6_validacao_de_consistencia_interna_rel_micro_muni.py:54-59 | a `how="left"` merge keeps every left row; a right side comes from a right row with the same key; a missing right side means no right row has the key |
| Joins.LeftJoinComplete | mauricio-goncalves-analista-dados-fiesc/6_validacao/s6_validacao_de_consistencia_interna_rel_micro_muni.py:54-59 | every left row appears, and with each of its matching right rows |
| Joins.LeftJoinCount | mauricio-goncalves-analista-dados-fiesc/6_validacao/s6_validacao_de_consistencia_interna_rel_micro_muni.py:54-59 | each pairing of a left row with a right row of the same key occurs once for every copy of the two, and a left row with no match occurs once per copy with no right side |
| Joins.LeftJoinOneToOne | mauricio-goncalves-analista-dados-fiesc/6_validacao/s6_validacao_de_consistencia_interna_rel_micro_muni.py:54-59 | with unique right keys the left join keeps the left rows one for one, in order |
| Joins.RightOnly | mauricio-goncalves-analista-dados-fiesc/6_validacao/s4_validacao_cruzada_comparacao_microrregiao.py:79-85 | the right rows whose key no left row has, with no left side |
| Joins.OuterJoin | mauricio-goncalves-analista-dados-fiesc/6_validacao/s4_validacao_cruzada_comparacao_microrregiao.py:79-85 | a `how="outer"` merge has a side on every row; each side comes from a row of its table with the row's key; a missing side means that table has no such key |
| Joins.OuterJoinKeepsLeft | mauricio-goncalves-analista-dados-fiesc/6_validacao/s4_validacao_cruzada_comparacao_microrregiao.py:79-85 | no left row is lost by the outer join |
| Joins.OuterJoinKeepsRight | mauricio-goncalves-analista-dados-fiesc/6_validacao/s4_validacao_cruzada_comparacao_microrregiao.py:79-85 | no right row is lost by the outer join |
| Joins.InnerJoin | mauricio-goncalves-analista-dados-fiesc/2_demanda2/demanda2.py:23 | a `how="inner"` merge pairs a left and a right row with equal keys |
| Joins.InnerJoinComplete | mauricio-goncalves-analista-dados-fiesc/2_demanda2/demanda2.py:23 | every pair of rows with equal keys meets in the inner join |
| Joins.MatchedCount | mauricio-goncalves-analista-dados-fiesc/2_demanda2/demanda2.py:23 | keeping the matched rows of a left join keeps each of them as often as it occurs |
| Joins.InnerJoinCount | mauricio-goncalves-analista-dados-fiesc/2_demanda2/demanda2.py:23 | an inner join holds each pair of a left and a right row with equal keys exactly as many times as there are copies of the two, so duplicates multiply |
| Names.ExtractCodeName | mauricio-goncalves-analista-dados-fiesc/6_validacao/s4_validacao_cruzada_comparacao_microrregiao.py:31-41 | a missing label stays missing; a label gets a code exactly when, once trimmed, it starts with a run of digits followed by a space, and then code, space and name rebuild the trimmed label; otherwise there is no code and the name is the label itself, untrimmed |
| Names.Normalize | mauricio-goncalves-analista-dados-fiesc/6_validacao/s4_validacao_cruzada_comparacao_microrregiao.py:21-28 | a missing name stays missing; a present one is lower-cased then trimmed, so it has no upper-case letter, no surrounding whitespace and is no longer than it was |
| Names.NormalizeIdempotent | mauricio-goncalves-analista-dados-fiesc/6_validacao/s4_validacao_cruzada_comparacao_microrregiao.py:21-28 | normalising twice is normalising once, so normalised keys are stable |
| Names.NormalizeIgnoresCase | mauricio-goncalves-analista-dados-fiesc/6_validacao/s4_validacao_cruzada_comparacao_microrregiao.py:26 | names that differ only in case get the same join key |
| Names.NormalizeIgnoresOuterSpace | mauricio-goncalves-analista-dados-fiesc/6_validacao/s4_validacao_cruzada_comparacao_microrregiao.py:26 | names that differ only in surrounding whitespace get the same join key |
| Percent.Ratio | mauricio-goncalves-analista-dados-fiesc/6_validacao/s4_validacao_cruzada_comparacao_microrregiao.py:90-91 | `diff / base * 100` in float64: NaN exactly for 0 / 0, an infinity of the sign of `diff` exactly for a non-zero `diff` over 0, and otherwise the finite `p` with `p * base == diff * 100` |
| Percent.BeforeTotal | mauricio-goncalves-analista-dados-fiesc/6_validacao/s4_validacao_cruzada_comparacao_microrregiao.py:102-103 | the order of `sort_values(key=abs, ascending=False)` relates any two percentages, NaN included |
| Percent.BeforeTransitive | mauricio-goncalves-analista-dados-fiesc/6_validacao/s4_validacao_cruzada_comparacao_microrregiao.py:102-103 | that order is transitive, so it is a total preorder to sort by |
| Percent.BeforeRespectsThreshold | mauricio-goncalves-analista-dados-fiesc/6_validacao/s5_validacao_cruzada_comparacao_municipio.py:105-112 | a percentage whose magnitude passes a threshold sorts strictly before one whose magnitude does not |
| Discrepancy.Difference | mauricio-goncalves-analista-dados-fiesc/6_validacao/s4_validacao_cruzada_comparacao_microrregiao.py:88-89 | `diferenca` is present exactly when both counts are, and then it is the Gold count minus the TABNET count |
| Discrepancy.Percentage | mauricio-goncalves-analista-dados-fiesc/6_validacao/s4_validacao_cruzada_comparacao_microrregiao.py:90-91 | `percentual_diferenca` is NaN when a count is missing, infinite exactly when the TABNET count is 0 and the Gold count is not, and otherwise the gap as a percentage of the TABNET count |
| Discrepancy.StatusOf | mauricio-goncalves-analista-dados-fiesc/6_validacao/s4_validacao_cruzada_comparacao_microrregiao.py:92-93 | ✓ exactly for two present, equal counts; ⚠️ exactly for two present, different counts whose gap is at most 1% of the TABNET count; ❌ whenever a count is missing |
| Discrepancy.ExceedsMeansDiffers | mauricio-goncalves-analista-dados-fiesc/6_validacao/s4_validacao_cruzada_comparacao_microrregiao.py:122 | on whole counts `abs(diferenca) > 0.01` (and `> 0`) means the two counts are present and differ |
| Discrepancy.StatusAgreesWithPercentage | mauricio-goncalves-analista-dados-fiesc/6_validacao/s4_validacao_cruzada_comparacao_microrregiao.py:90-93 | for a positive TABNET count, ✓ is exactly a 0% gap and ⚠️ exactly a non-zero gap of at most 1% in magnitude |
| Discrepancy.SignificantMeansDiffers | mauricio-goncalves-analista-dados-fiesc/6_validacao/s5_validacao_cruzada_comparacao_municipio.py:127-128 | a row counted by `percentual_diferenca.abs() > t` (t ≥ 0) is also counted by `diferenca.abs() > 0.01` |
| CrossValidation.DataRows | mauricio-goncalves-analista-dados-fiesc/6_validacao/s4_validacao_cruzada_comparacao_microrregiao.py:58-60 | the rows kept are exactly those whose caption mentions no marker word, in any case; nothing is added |
| CrossValidation.Compare | mauricio-goncalves-analista-dados-fiesc/6_validacao/s4_validacao_cruzada_comparacao_microrregiao.py:88-93 | a joined row gets its discrepancy columns, its Gold name and count from the Gold side and its TABNET count and code from the TABNET side; a missing side leaves those columns missing |
| CrossValidation.Comparisons | mauricio-goncalves-analista-dados-fiesc/6_validacao/s4_validacao_cruzada_comparacao_microrregiao.py:66-93 | every row of `df_comparacao` carries its discrepancy columns, and each Gold count in it is a Gold row joined under its normalised name; the unpacking before it, which can fail, is in `Reconcile` |
| CrossValidation.GoldRowKept | mauricio-goncalves-analista-dados-fiesc/6_validacao/s4_validacao_cruzada_comparacao_microrregiao.py:79-85 | no Gold row is lost by the outer merge |
| CrossValidation.TabnetRowKept | mauricio-goncalves-analista-dados-fiesc/6_validacao/s4_validacao_cruzada_comparacao_microrregiao.py:79-85 | no TABNET data row is lost: it appears with its count and code under the normalised name taken from its caption |
| CrossValidation.TabnetCountSource | mauricio-goncalves-analista-dados-fiesc/6_validacao/s4_validacao_cruzada_comparacao_microrregiao.py:58-85 | each TABNET count in the comparison comes from a data row with that key, never from a total row |
| CrossValidation.ByPctPreorder | mauricio-goncalves-analista-dados-fiesc/6_validacao/s4_validacao_cruzada_comparacao_microrregiao.py:102-103 | ordering rows by the magnitude of `percentual_diferenca`, largest first, is a total preorder |
| CrossValidation.OrderByPct | mauricio-goncalves-analista-dados-fiesc/6_validacao/s4_validacao_cruzada_comparacao_microrregiao.py:100-103 | `comparacao_ordenada` holds the same rows, each with both counts, ordered by decreasing magnitude of the percentage |
| CrossValidation.Reconcile | mauricio-goncalves-analista-dados-fiesc/6_validacao/s4_validacao_cruzada_comparacao_microrregiao.py:58-123 | stops with "not enough values to unpack" exactly when every TABNET row mentions a marker word (so no row is left to unpack into `codigo` and `nome`); otherwise `comparacao_ordenada` is the rows with both counts, sorted by the magnitude of the percentage; `somente_gold` and `somente_tabnet` hold exactly the comparison rows missing the other count, each as often as the comparison holds it, so their sizes are the counts of such rows; `total_inconsistencias` counts the sorted rows that differ, and together with the ✓ rows it covers them all |
| CrossValidation.DataRowsEmpty | mauricio-goncalves-analista-dados-fiesc/6_validacao/s4_validacao_cruzada_comparacao_microrregiao.py:58-64 | the filters leave no row to unpack exactly when every TABNET row mentions a marker word |
| CrossValidation.TotalOnlyFails | mauricio-goncalves-analista-dados-fiesc/6_validacao/s4_validacao_cruzada_comparacao_microrregiao.py:58-64 | an export holding only its "Total" row stops the region script with the unpacking error |
| CrossValidation.InconsistentCount | mauricio-goncalves-analista-dados-fiesc/6_validacao/s4_validacao_cruzada_comparacao_microrregiao.py:122 | counting `abs(diferenca) > 0.01` over the whole comparison gives the same as over the sorted rows, and with the ✓ rows it accounts for all of them |
| CrossValidation.MatchOrInconsistent | mauricio-goncalves-analista-dados-fiesc/6_validacao/s4_validacao_cruzada_comparacao_microrregiao.py:92-93 | every row with both counts is either ✓ or an inconsistency, never both |
| CrossValidation.TabnetCountsFromData | mauricio-goncalves-analista-dados-fiesc/6_validacao/s4_validacao_cruzada_comparacao_microrregiao.py:58-85 | every TABNET count in a reconciliation comes from a caption that mentions no marker word |
| CrossValidation.ValidateByRegion | mauricio-goncalves-analista-dados-fiesc/6_validacao/s4_validacao_cruzada_comparacao_microrregiao.py:44-123 | `validar_por_microrregiao` stops with the unpacking error exactly when every TABNET row contains "total" in any case; otherwise no TABNET count is taken from such a row |
| CrossValidation.ValidateByMunicipality | mauricio-goncalves-analista-dados-fiesc/6_validacao/s5_validacao_cruzada_comparacao_municipio.py:44-129 | `validar_por_municipio` stops with the unpacking error exactly when every TABNET row is a total, note or source row; otherwise no TABNET count comes from such a row, and the significant gaps are counted over the sorted rows and never outnumber the inconsistencies |
| CrossValidation.SignificantCount | mauricio-goncalves-analista-dados-fiesc/6_validacao/s5_validacao_cruzada_comparacao_municipio.py:127-128 | the significant gaps of the whole comparison are those of the sorted rows, and each is also an inconsistency |
| CrossValidation.SignificantFirst | mauricio-goncalves-analista-dados-fiesc/6_validacao/s5_validacao_cruzada_comparacao_municipio.py:105-112 | in the sorted rows every row before a significant gap is itself significant, so `head(10)` of the significant rows is the top of the order |
| Totals.PresentSumIsSumOfPresent | mauricio-goncalves-analista-dados-fiesc/6_validacao/s3_validacao_cruzada_comparacao_de_totais.py:25-27 | `dropna().sum()` is the sum of exactly the counts that are present |
| Totals.PresentSumConcat | mauricio-goncalves-analista-dados-fiesc/6_validacao/s3_validacao_cruzada_comparacao_de_totais.py:25-27 | the sum of present counts splits over any cut of the table |
| Totals.TotalRow | mauricio-goncalves-analista-dados-fiesc/6_validacao/s3_validacao_cruzada_comparacao_de_totais.py:30-33 | the first row labelled exactly "Total", and none exactly when no row has that label |
| Totals.ChosenTotal | mauricio-goncalves-analista-dados-fiesc/6_validacao/s3_validacao_cruzada_comparacao_de_totais.py:29-61 | without a "Total" row the TABNET total is the sum of the present counts; with one, it is the first such row's count, missing if that cell is |
| Totals.TotalRowBeatsDoubleCount | mauricio-goncalves-analista-dados-fiesc/6_validacao/s3_validacao_cruzada_comparacao_de_totais.py:52-61 | when the export's "Total" row states the sum of the other rows, that row is chosen, and summing every present count would have counted each establishment twice |
| Totals.TotalPct | mauricio-goncalves-analista-dados-fiesc/6_validacao/s3_validacao_cruzada_comparacao_de_totais.py:68 | the grand-total percentage: NaN exactly for a missing total, +inf exactly for a zero total whatever the gap, otherwise the gap as a percentage of the total |
| Totals.TotalPctAgainstRowPct | mauricio-goncalves-analista-dados-fiesc/6_validacao/s3_validacao_cruzada_comparacao_de_totais.py:68 | on a non-zero total it equals the row-level percentage; on a zero total the two differ exactly when the Gold count is not positive |
| Totals.GoldTotalConcat | mauricio-goncalves-analista-dados-fiesc/6_validacao/s3_validacao_cruzada_comparacao_de_totais.py:20-22 | the Gold total, a plain `sum()` of nu_quantidade, splits over any cut of the table |
| Totals.ValidateTotals | mauricio-goncalves-analista-dados-fiesc/6_validacao/s3_validacao_cruzada_comparacao_de_totais.py:8-77 | `validar_totais`: each Gold total is the sum of its nu_quantidade column and each TABNET total the chosen one; each percentage is the grand-total percentage of those two totals; each difference is present exactly when its total is and adds back to the Gold total; a percentage is infinite exactly on a zero total; the consistency flags compare the two Gold totals and the two TABNET totals |
| Structural.FirstHeader | mauricio-goncalves-analista-dados-fiesc/6_validacao/s2_validacao_estrutural.py:19-23 | the position of the first line containing a header marker, and none exactly when no line does |
| Structural.FirstHeaderAt | mauricio-goncalves-analista-dados-fiesc/6_validacao/s2_validacao_estrutural.py:20-23 | a header line with no header before it is the one found |
| Structural.FindHeader | mauricio-goncalves-analista-dados-fiesc/6_validacao/s2_validacao_estrutural.py:19-23 | the search loop returns the first header line |
| Structural.DataLines | mauricio-goncalves-analista-dados-fiesc/6_validacao/s2_validacao_estrutural.py:15-27 | a table has data lines exactly when it has one column and a header line, and they are the lines after that header |
| Structural.Widest | mauricio-goncalves-analista-dados-fiesc/6_validacao/s2_validacao_estrutural.py:30-32 | the largest of the numbers, 0 for none |
| Structural.Width | mauricio-goncalves-analista-dados-fiesc/6_validacao/s2_validacao_estrutural.py:30-32 | `split(';', expand=True)` makes as many columns as the line with the most parts has |
| Structural.SplitLine | mauricio-goncalves-analista-dados-fiesc/6_validacao/s2_validacao_estrutural.py:30-41 | a line of at most two parts becomes its label (text up to the first ';') and its quantity (the text after it, read as a number, missing when unreadable or absent) |
| Structural.SplitFrame | mauricio-goncalves-analista-dados-fiesc/6_validacao/s2_validacao_estrutural.py:30-41 | the split table has one row per data line, a label column named after the export kind and a numeric quantity column |
| Structural.Processed | mauricio-goncalves-analista-dados-fiesc/6_validacao/s2_validacao_estrutural.py:8-45 | `processar_tabnet` returns the input unchanged unless it is one column with a header and at least two split columns; exactly two columns give the split table; more than two cannot take the two names and fail |
| Structural.ProcessTabnet | mauricio-goncalves-analista-dados-fiesc/6_validacao/s2_validacao_estrutural.py:8-45 | the method with its search loop computes what `Processed` states |
| Structural.SplitKeepsLinesAfterHeader | mauricio-goncalves-analista-dados-fiesc/6_validacao/s2_validacao_estrutural.py:27 | a successful split has exactly the lines after the header, and no more |
| Structural.Problems | mauricio-goncalves-analista-dados-fiesc/6_validacao/s2_validacao_estrutural.py:78-87 | one message per flagged text column |
| Structural.ProblemsAreFlaggedColumns | mauricio-goncalves-analista-dados-fiesc/6_validacao/s2_validacao_estrutural.py:79-85 | every message names a flagged column with its count, and every flagged column has its message |
| Structural.EncodingProblems | mauricio-goncalves-analista-dados-fiesc/6_validacao/s2_validacao_estrutural.py:78-87 | the message loop builds exactly `problemas_codificacao` |
| Structural.NullCounts | mauricio-goncalves-analista-dados-fiesc/6_validacao/s2_validacao_estrutural.py:73 | one entry per column, under its name, holding the number of its missing cells; the count is positive exactly when the column has a missing cell, and never above its length |
| Structural.Report | mauricio-goncalves-analista-dados-fiesc/6_validacao/s2_validacao_estrutural.py:70-87 | a table's report holds its row count, its column names in order, the null counts of `NullCounts`, the messages of `Problems` (at most one per column), and null counts no larger than the row count |
| Structural.Examine | mauricio-goncalves-analista-dados-fiesc/6_validacao/s2_validacao_estrutural.py:69-88 | the per-table loop body builds exactly that report |
| Structural.Reprocessed | mauricio-goncalves-analista-dados-fiesc/6_validacao/s2_validacao_estrutural.py:59-65 | reprocessing a named table changes no other table, keeps the dictionary's names, leaves it alone when the name is absent, and fails exactly when the table's split fails |
| Structural.Reports | mauricio-goncalves-analista-dados-fiesc/6_validacao/s2_validacao_estrutural.py:67-88 | one report per table name |
| Structural.Catalog.constructor | mauricio-goncalves-analista-dados-fiesc/6_validacao/s2_validacao_estrutural.py:48 | the dictionary holds the loaded tables |
| Structural.Catalog.Reprocess | mauricio-goncalves-analista-dados-fiesc/6_validacao/s2_validacao_estrutural.py:59-65 | rewrites one table in place by its processed form, or leaves the dictionary as it was when the split fails |
| Structural.Catalog.ValidateStructure | mauricio-goncalves-analista-dados-fiesc/6_validacao/s2_validacao_estrutural.py:48-88 | the regional TABNET table is processed before the municipal one; a failure stops the check and keeps what was already rewritten; on success every table of the rewritten dictionary is examined |
| Structural.ExamineAll | mauricio-goncalves-analista-dados-fiesc/6_validacao/s2_validacao_estrutural.py:69-88 | the loop over the dictionary returns one report per table, each that table's report |
| InternalConsistency.Assignments | mauricio-goncalves-analista-dados-fiesc/6_validacao/s6_validacao_de_consistencia_interna_rel_micro_muni.py:53-59 | `municipios_matched`: every row is a Gold municipality under its normalised name, and a region it carries is the normalised region of a Silver row for that name; no row is dropped |
| InternalConsistency.AssignmentsKeepGold | mauricio-goncalves-analista-dados-fiesc/6_validacao/s6_validacao_de_consistencia_interna_rel_micro_muni.py:53-59 | no Gold municipality is lost by the left merge |
| InternalConsistency.NoSilverNoRegion | mauricio-goncalves-analista-dados-fiesc/6_validacao/s6_validacao_de_consistencia_interna_rel_micro_muni.py:61-63 | a municipality whose name no Silver row has ends up in `municipios_sem_match` |
| InternalConsistency.AssignmentsOneToOne | mauricio-goncalves-analista-dados-fiesc/6_validacao/s6_validacao_de_consistencia_interna_rel_micro_muni.py:53-59 | with one Silver row per municipality name the merge neither duplicates nor reorders the Gold rows |
| InternalConsistency.RegionPairs | mauricio-goncalves-analista-dados-fiesc/6_validacao/s6_validacao_de_consistencia_interna_rel_micro_muni.py:66-68 | the rows with no region take no part in the `groupby` |
| InternalConsistency.AssignedPlusUnmatched | mauricio-goncalves-analista-dados-fiesc/6_validacao/s6_validacao_de_consistencia_interna_rel_micro_muni.py:61-68 | the counts grouped under a region and the counts left without one add up to the counts of the merged table |
| InternalConsistency.RegionSums | mauricio-goncalves-analista-dados-fiesc/6_validacao/s6_validacao_de_consistencia_interna_rel_micro_muni.py:66-69 | `soma_por_micro` loses no assigned count: its sums and the unmatched counts make up the merged total |
| InternalConsistency.RegionSumsConserveCounts | mauricio-goncalves-analista-dados-fiesc/6_validacao/s6_validacao_de_consistencia_interna_rel_micro_muni.py:53-69 | with one Silver row per municipality name, the region sums plus the unmatched counts equal the Gold municipality total |
| InternalConsistency.Check | mauricio-goncalves-analista-dados-fiesc/6_validacao/s6_validacao_de_consistencia_interna_rel_micro_muni.py:83-89 | a row of `comparacao_micro` gets the discrepancy columns of its calculated count against its declared count |
| InternalConsistency.Checks | mauricio-goncalves-analista-dados-fiesc/6_validacao/s6_validacao_de_consistencia_interna_rel_micro_muni.py:83-89 | every row of the outer merge gets its discrepancy columns, and each has at least one of the two counts |
| InternalConsistency.RegionComparison | mauricio-goncalves-analista-dados-fiesc/6_validacao/s6_validacao_de_consistencia_interna_rel_micro_muni.py:71-89 | `comparacao_micro`: each row has a calculated or a declared count and carries its discrepancy columns |
| InternalConsistency.DeclaredIsGoldRegion | mauricio-goncalves-analista-dados-fiesc/6_validacao/s6_validacao_de_consistencia_interna_rel_micro_muni.py:71-81 | a declared count is the count of a Gold micro-region row with that normalised name |
| InternalConsistency.CalculatedIsRegionSum | mauricio-goncalves-analista-dados-fiesc/6_validacao/s6_validacao_de_consistencia_interna_rel_micro_muni.py:66-77 | a calculated count is the sum of the counts of the municipalities assigned to that region |
| InternalConsistency.PresentNames | mauricio-goncalves-analista-dados-fiesc/6_validacao/s6_validacao_de_consistencia_interna_rel_micro_muni.py:96 | every present name is among the names `value_counts` sees |
| InternalConsistency.Duplicates | mauricio-goncalves-analista-dados-fiesc/6_validacao/s6_validacao_de_consistencia_interna_rel_micro_muni.py:96-97 | a name is reported exactly when two Gold rows share it, with its number of occurrences, which is above one; missing names are not counted |
| InternalConsistency.NameKeys | mauricio-goncalves-analista-dados-fiesc/6_validacao/s6_validacao_de_consistencia_interna_rel_micro_muni.py:46-47 | each Gold municipality is keyed by its normalised name |
| InternalConsistency.ValidateInternal | mauricio-goncalves-analista-dados-fiesc/6_validacao/s6_validacao_de_consistencia_interna_rel_micro_muni.py:31-119 | `validar_consistencia_interna`: `comparacao_micro` is the region comparison, each row with its discrepancy columns; `municipios_sem_match` is exactly the merged rows with no region, each as often as the merge holds it, so its size is their count; `total_inconsistencias` counts the regions whose difference is not zero; each duplicate count is above one; the inconsistencies and the ✓ rows together are the regions with both counts |
| InternalConsistency.DuplicatesAreShared | mauricio-goncalves-analista-dados-fiesc/6_validacao/s6_validacao_de_consistencia_interna_rel_micro_muni.py:96-97 | `municipios_duplicados` holds exactly the names of two distinct Gold rows |
| InternalConsistency.MatchOrDiffers | mauricio-goncalves-analista-dados-fiesc/6_validacao/s6_validacao_de_consistencia_interna_rel_micro_muni.py:118 | every region with both counts is ✓ or counted by `abs(diferenca) > 0`, never both; one missing a count is neither |
| Consolidated.ComparisonRows | mauricio-goncalves-analista-dados-fiesc/6_validacao/s7_gera_relat_consoludado_recomendacoes.py:48-55 | each row of `comparacao_ordenada` is read with its name, its difference and its percentage |
| Consolidated.CheckRows | mauricio-goncalves-analista-dados-fiesc/6_validacao/s7_gera_relat_consoludado_recomendacoes.py:72-79 | each row of `comparacao_micro` is read with its region key, its difference and its percentage |
| Consolidated.Grade | mauricio-goncalves-analista-dados-fiesc/6_validacao/s7_gera_relat_consoludado_recomendacoes.py:55-79 | a gap is Alta exactly when the magnitude of its percentage passes the upper threshold, Média exactly when it passes only the lower one, and Baixa exactly when it passes neither |
| Consolidated.CountGrade | mauricio-goncalves-analista-dados-fiesc/6_validacao/s7_gera_relat_consoludado_recomendacoes.py:91 | unmatched municipalities are Alta exactly above 50 and Baixa exactly at 10 or fewer |
| Consolidated.GapEntries | mauricio-goncalves-analista-dados-fiesc/6_validacao/s7_gera_relat_consoludado_recomendacoes.py:47-81 | one entry per row with a non-zero difference, of the table's kind, each carrying a gap |
| Consolidated.GapEntriesMatchRows | mauricio-goncalves-analista-dados-fiesc/6_validacao/s7_gera_relat_consoludado_recomendacoes.py:49-57 | every gap entry is the entry of a row with a difference, with its entity, difference and graded percentage, and every such row has its entry |
| Consolidated.MappingEntries | mauricio-goncalves-analista-dados-fiesc/6_validacao/s7_gera_relat_consoludado_recomendacoes.py:83-93 | one mapping entry exactly when some municipality is unmatched, graded by their number |
| Consolidated.EncodingEntryAsWritten | mauricio-goncalves-analista-dados-fiesc/6_validacao/s7_gera_relat_consoludado_recomendacoes.py:38-45 | the script's encoding entry exists exactly when the message splits at ':' into two parts |
| Consolidated.EncodingEntry | mauricio-goncalves-analista-dados-fiesc/6_validacao/s7_gera_relat_consoludado_recomendacoes.py:38-45 | the intended encoding entry exists exactly when the message splits at ':' into two parts, and is a Média encoding entry |
| Consolidated.SplitAtOnlyColon | mauricio-goncalves-analista-dados-fiesc/6_validacao/s7_gera_relat_consoludado_recomendacoes.py:38 | a text with one colon splits into the parts around it |
| Consolidated.ProblemRoundTrip | mauricio-goncalves-analista-dados-fiesc/6_validacao/s7_gera_relat_consoludado_recomendacoes.py:38-42 | a message written by the structural check comes back as the table and column and the count with the phrase once; the script's description carries the phrase twice |
| Consolidated.ColonInColumnFails | mauricio-goncalves-analista-dados-fiesc/6_validacao/s7_gera_relat_consoludado_recomendacoes.py:38 | a column name holding ':' makes the unpacking fail |
| Consolidated.TableEntries | mauricio-goncalves-analista-dados-fiesc/6_validacao/s7_gera_relat_consoludado_recomendacoes.py:36-45 | one entry per message of a table, each of the encoding kind, or the unpacking error |
| Consolidated.EncodingEntries | mauricio-goncalves-analista-dados-fiesc/6_validacao/s7_gera_relat_consoludado_recomendacoes.py:35-45 | the entries of every table in dictionary order, each of the encoding kind; the only failure is the unpacking error |
| Consolidated.TableEntriesSucceed | mauricio-goncalves-analista-dados-fiesc/6_validacao/s7_gera_relat_consoludado_recomendacoes.py:37-38 | when every message splits in two the table gives its entries |
| Consolidated.StructuralMessagesParse | mauricio-goncalves-analista-dados-fiesc/6_validacao/s7_gera_relat_consoludado_recomendacoes.py:35-45 | the structural check's messages for colon-free column names all parse, one entry per flagged column |
| Consolidated.Entries | mauricio-goncalves-analista-dados-fiesc/6_validacao/s7_gera_relat_consoludado_recomendacoes.py:32-93 | `inconsistencias` fails exactly when an encoding message does not split in two |
| Consolidated.EntriesGraded | mauricio-goncalves-analista-dados-fiesc/6_validacao/s7_gera_relat_consoludado_recomendacoes.py:47-81 | in a built `inconsistencias` every region and municipality entry is the entry of a comparison row with a difference graded on 5 and 1 per cent, every internal entry one graded on 10 and 5 per cent, and each of these kinds counts exactly the rows of its table with a difference |
| Consolidated.CleanChecksGiveNoEntries | mauricio-goncalves-analista-dados-fiesc/6_validacao/s7_gera_relat_consoludado_recomendacoes.py:32-93 | with no encoding message, no non-zero difference and no unmatched municipality there is no inconsistency |
| Consolidated.AppendGaps | mauricio-goncalves-analista-dados-fiesc/6_validacao/s7_gera_relat_consoludado_recomendacoes.py:49-57 | the row loop appends exactly the table's gap entries |
| Consolidated.AppendTable | mauricio-goncalves-analista-dados-fiesc/6_validacao/s7_gera_relat_consoludado_recomendacoes.py:37-45 | the message loop appends exactly the table's entries, or stops at the unpacking error |
| Consolidated.CollectEncoding | mauricio-goncalves-analista-dados-fiesc/6_validacao/s7_gera_relat_consoludado_recomendacoes.py:35-45 | the table loop computes exactly the encoding entries |
| Consolidated.CollectEntries | mauricio-goncalves-analista-dados-fiesc/6_validacao/s7_gera_relat_consoludado_recomendacoes.py:32-93 | the loops of the script compute exactly `inconsistencias` |
| Consolidated.Tally | mauricio-goncalves-analista-dados-fiesc/6_validacao/s7_gera_relat_consoludado_recomendacoes.py:99-104 | `total_alta`, `total_media` and `total_baixa` count the entries of each severity, none above the number of entries |
| Consolidated.TallyConcat | mauricio-goncalves-analista-dados-fiesc/6_validacao/s7_gera_relat_consoludado_recomendacoes.py:99-104 | the counts of two lists of entries together are the sums of their counts, whichever comes first |
| Consolidated.TallyCoversAll | mauricio-goncalves-analista-dados-fiesc/6_validacao/s7_gera_relat_consoludado_recomendacoes.py:99-104 | the three counts add up to the number of entries |
| Consolidated.TallyAsWritten | mauricio-goncalves-analista-dados-fiesc/6_validacao/s7_gera_relat_consoludado_recomendacoes.py:96-104 | the script's counts fail exactly on an empty list and agree with `Tally` otherwise |
| Consolidated.CleanReportFails | mauricio-goncalves-analista-dados-fiesc/6_validacao/s7_gera_relat_consoludado_recomendacoes.py:96-104 | a clean validation makes the script fail at the counts, where the intended counts are three zeros |
| Consolidated.FixFor | mauricio-goncalves-analista-dados-fiesc/6_validacao/s7_gera_relat_consoludado_recomendacoes.py:136-141 | a targeted fix names its row and is Alta exactly when the magnitude of the row's percentage passes 5, Média otherwise |
| Consolidated.SpecificFixes | mauricio-goncalves-analista-dados-fiesc/6_validacao/s7_gera_relat_consoludado_recomendacoes.py:135-142 | one targeted fix per row with a difference, never Baixa |
| Consolidated.SpecificFixesFollowRows | mauricio-goncalves-analista-dados-fiesc/6_validacao/s7_gera_relat_consoludado_recomendacoes.py:135-142 | the targeted fixes are, in order, the fixes of the rows with a difference |
| Consolidated.PriorityFixes | mauricio-goncalves-analista-dados-fiesc/6_validacao/s7_gera_relat_consoludado_recomendacoes.py:159-168 | one Alta priority fix per Blumenau row |
| Consolidated.Head3 | mauricio-goncalves-analista-dados-fiesc/6_validacao/s7_gera_relat_consoludado_recomendacoes.py:133-134 | `head(3)` is the first min(3, n) rows |
| Consolidated.EncodingRecs | mauricio-goncalves-analista-dados-fiesc/6_validacao/s7_gera_relat_consoludado_recomendacoes.py:109-116 | one Alta encoding fix exactly when `gold_micro` has encoding problems, none otherwise |
| Consolidated.RegionRecs | mauricio-goncalves-analista-dados-fiesc/6_validacao/s7_gera_relat_consoludado_recomendacoes.py:118-142 | one region review exactly when `total_inconsistencias` of the region check is positive, with the targeted fixes, never Baixa; nothing at all when it is 0 |
| Consolidated.MunicipalityRecs | mauricio-goncalves-analista-dados-fiesc/6_validacao/s7_gera_relat_consoludado_recomendacoes.py:144-168 | one municipality review exactly when the municipality check counted inconsistencies, with the Blumenau fixes, all Alta; nothing at all otherwise |
| Consolidated.InternalRecs | mauricio-goncalves-analista-dados-fiesc/6_validacao/s7_gera_relat_consoludado_recomendacoes.py:170-190 | one Alta internal fix exactly when the internal check counted inconsistencies, one Alta mapping fix exactly when some municipality is unmatched |
| Consolidated.Body | mauricio-goncalves-analista-dados-fiesc/6_validacao/s7_gera_relat_consoludado_recomendacoes.py:107-190 | the four groups in order; nothing in them is about the pipeline or Baixa |
| Consolidated.Recommendations | mauricio-goncalves-analista-dados-fiesc/6_validacao/s7_gera_relat_consoludado_recomendacoes.py:107-198 | the list ends with the Média pipeline recommendation, holds no other pipeline recommendation and nothing Baixa |
| Consolidated.GroupTriggers | mauricio-goncalves-analista-dados-fiesc/6_validacao/s7_gera_relat_consoludado_recomendacoes.py:107-190 | in the four groups concatenated, each whole-check category counts as in the one group that holds it |
| Consolidated.AssembleGroups | mauricio-goncalves-analista-dados-fiesc/6_validacao/s7_gera_relat_consoludado_recomendacoes.py:107-190 | four groups each triggering its own recommendations give a list with all five triggers |
| Consolidated.BodyTriggers | mauricio-goncalves-analista-dados-fiesc/6_validacao/s7_gera_relat_consoludado_recomendacoes.py:107-190 | the encoding fix, the two reviews, the internal fix and the mapping fix each occur once when their check found something (problems in `gold_micro`, positive `total_inconsistencias` of each check, unmatched municipalities) and never otherwise |
| Consolidated.RecommendationTriggers | mauricio-goncalves-analista-dados-fiesc/6_validacao/s7_gera_relat_consoludado_recomendacoes.py:107-198 | the final list keeps those five triggers: each whole-check recommendation occurs once exactly when its check found something |
| Consolidated.PipelineAdds | mauricio-goncalves-analista-dados-fiesc/6_validacao/s7_gera_relat_consoludado_recomendacoes.py:192-198 | appending the pipeline recommendation keeps the five triggers |
| Consolidated.AppendSpecific | mauricio-goncalves-analista-dados-fiesc/6_validacao/s7_gera_relat_consoludado_recomendacoes.py:135-142 | the loop over the first rows appends exactly their targeted fixes |
| Consolidated.AppendPriority | mauricio-goncalves-analista-dados-fiesc/6_validacao/s7_gera_relat_consoludado_recomendacoes.py:159-168 | the loop over the municipal rows appends exactly the Blumenau fixes |
| Consolidated.Recommend | mauricio-goncalves-analista-dados-fiesc/6_validacao/s7_gera_relat_consoludado_recomendacoes.py:107-198 | the recommendation steps compute exactly `recomendacoes` |
| Consolidated.CountRecommendations | mauricio-goncalves-analista-dados-fiesc/6_validacao/s7_gera_relat_consoludado_recomendacoes.py:107-198 | any count over the recommendations is the sum of the counts over its five groups |
| Consolidated.PipelineOnce | mauricio-goncalves-analista-dados-fiesc/6_validacao/s7_gera_relat_consoludado_recomendacoes.py:192-198 | the pipeline recommendation is there exactly once |
| Consolidated.SpecificFixesFromTopRows | mauricio-goncalves-analista-dados-fiesc/6_validacao/s7_gera_relat_consoludado_recomendacoes.py:118-142 | at most three targeted fixes, only when the region check counted inconsistencies, one per difference among the first three sorted rows |
| Consolidated.RegionSpecific | mauricio-goncalves-analista-dados-fiesc/6_validacao/s7_gera_relat_consoludado_recomendacoes.py:118-142 | the region group holds one targeted fix per differing row among the first three, and none when the region check counted no inconsistency |
| Consolidated.TopRowsHoldGaps | mauricio-goncalves-analista-dados-fiesc/6_validacao/s7_gera_relat_consoludado_recomendacoes.py:132-136 | in sorted rows with both counts the first three hold min(3, `total_inconsistencias`) rows with a difference |
| Consolidated.SpecificFixesAreTopGaps | mauricio-goncalves-analista-dados-fiesc/6_validacao/s7_gera_relat_consoludado_recomendacoes.py:118-142 | when the region validation produces a report, the number of targeted fixes is min(3, `total_inconsistencias`) |
| Consolidated.ReconciledTopGaps | mauricio-goncalves-analista-dados-fiesc/6_validacao/s7_gera_relat_consoludado_recomendacoes.py:118-142 | for any sorted region report with derived columns, the number of targeted fixes is min(3, `total_inconsistencias`) |
| Consolidated.DiffFirst | mauricio-goncalves-analista-dados-fiesc/6_validacao/s7_gera_relat_consoludado_recomendacoes.py:133-136 | in the sorted rows no row with a difference follows one without |
| Consolidated.PrefixCount | mauricio-goncalves-analista-dados-fiesc/6_validacao/s7_gera_relat_consoludado_recomendacoes.py:133-134 | when the rows meeting a test come first, any prefix holds as many of them as fit |
| Consolidated.PrefixRun | mauricio-goncalves-analista-dados-fiesc/6_validacao/s7_gera_relat_consoludado_recomendacoes.py:133-134 | when the rows meeting a test come first, they are exactly the first `Count` rows |
| Consolidated.SameCount | mauricio-goncalves-analista-dados-fiesc/6_validacao/s7_gera_relat_consoludado_recomendacoes.py:121-136 | `total_inconsistencias` (`> 0.01`) and the fix rule (`> 0`) count the same rows |
| Consolidated.BlumenauFixes | mauricio-goncalves-analista-dados-fiesc/6_validacao/s7_gera_relat_consoludado_recomendacoes.py:149-168 | one priority fix per Blumenau row when the municipal check counted inconsistencies, none otherwise |
| Consolidated.MunicipalityPriority | mauricio-goncalves-analista-dados-fiesc/6_validacao/s7_gera_relat_consoludado_recomendacoes.py:144-168 | the municipality group holds one priority fix per Blumenau row, and none when the municipality check counted no inconsistency |
| Consolidated.Consolidate | mauricio-goncalves-analista-dados-fiesc/6_validacao/s7_gera_relat_consoludado_recomendacoes.py:31-198 | the intended report fails only on a message that does not split in two, and its severity counts add up to its entries |
| Consolidated.ConsolidateAsWritten | mauricio-goncalves-analista-dados-fiesc/6_validacao/s7_gera_relat_consoludado_recomendacoes.py:96-104 | the script's report fails also exactly when there is no inconsistency |
| Consolidated.AsWrittenAgreesWhenSomethingIsFound | mauricio-goncalves-analista-dados-fiesc/6_validacao/s7_gera_relat_consoludado_recomendacoes.py:96-104 | the script and the intended report agree exactly when at least one inconsistency is found |
| PorkExports.Converted | mauricio-goncalves-analista-dados-fiesc/2_demanda2/demanda2.py:16-20 | after the conversions every code is padded to at least eight characters |
| PorkExports.Selected | mauricio-goncalves-analista-dados-fiesc/2_demanda2/demanda2.py:22-25 | every row of `df_merged` after the filter is of SC in 2024 |
| PorkExports.SelectedSound | mauricio-goncalves-analista-dados-fiesc/2_demanda2/demanda2.py:22-25 | every selected row pairs a converted export with a nomenclature row of the same padded code |
| PorkExports.SelectedComplete | mauricio-goncalves-analista-dados-fiesc/2_demanda2/demanda2.py:22-25 | every export of SC in 2024 is selected with every nomenclature row of the same padded code |
| PorkExports.SelectedCount | mauricio-goncalves-analista-dados-fiesc/2_demanda2/demanda2.py:22-25 | a merged row of SC in 2024 is selected once per pair of an export and a nomenclature row it combines, so a code `NCM.csv` lists twice doubles its exports; any other row never |
| PorkExports.FilteredJoinCount | mauricio-goncalves-analista-dados-fiesc/2_demanda2/demanda2.py:22-25 | filtering an inner join keeps each passing pair of rows once per copy of the two |
| PorkExports.SelectedPadded | mauricio-goncalves-analista-dados-fiesc/2_demanda2/demanda2.py:19-20 | every selected code has at least eight characters |
| PorkExports.Summary | mauricio-goncalves-analista-dados-fiesc/2_demanda2/demanda2.py:37-53 | `df_resumo`: one row per heading in the order of `resumo_map`, with its label, "Sim" and the sum of the values of the codes starting with it, then the Total row holding the sum of the four |
| PorkExports.PrefixLines | mauricio-goncalves-analista-dados-fiesc/2_demanda2/demanda2.py:39-47 | the four heading rows, one per prefix |
| PorkExports.BuildSummary | mauricio-goncalves-analista-dados-fiesc/2_demanda2/demanda2.py:37-53 | the loop over `prefixos_resumo` builds exactly `df_resumo` |
| PorkExports.Head | mauricio-goncalves-analista-dados-fiesc/2_demanda2/demanda2.py:61 | `str[:4]` of a code of at least four characters is its four-character prefix |
| PorkExports.StartsWithIsHead | mauricio-goncalves-analista-dados-fiesc/2_demanda2/demanda2.py:61 | on such codes `startswith(p)` and `str[:4] == p` select the same rows |
| PorkExports.FirstDescriptionIsFirst | mauricio-goncalves-analista-dados-fiesc/2_demanda2/demanda2.py:67 | `agg("first")` takes the description of the code's first row that has one, and is missing only when no row of the code has one |
| PorkExports.ByCodeIsPreorder | mauricio-goncalves-analista-dados-fiesc/2_demanda2/demanda2.py:73 | code order is a total preorder to sort by |
| PorkExports.SortedGroups | mauricio-goncalves-analista-dados-fiesc/2_demanda2/demanda2.py:65-73 | the listed groups are exactly the code groups with a positive sum, in code order |
| PorkExports.Detail | mauricio-goncalves-analista-dados-fiesc/2_demanda2/demanda2.py:78-88 | `df_detalhe` is the listed codes followed by a Total row holding their sum |
| PorkExports.DetailLinesShape | mauricio-goncalves-analista-dados-fiesc/2_demanda2/demanda2.py:61-76 | the listed codes come in strictly increasing order, each with a positive value that is the sum of that code's rows, a heading among the four, "Sim" and its first present description |
| PorkExports.DetailComplete | mauricio-goncalves-analista-dados-fiesc/2_demanda2/demanda2.py:61-70 | every code of the four headings whose sum is positive is listed |
| PorkExports.SummaryTotalIsHeadingSum | mauricio-goncalves-analista-dados-fiesc/2_demanda2/demanda2.py:37-53 | the summary total is the value of the rows of the four headings |
| PorkExports.KeptTotal | mauricio-goncalves-analista-dados-fiesc/2_demanda2/demanda2.py:61-62 | the rows kept for the detail carry exactly the value of the four headings |
| PorkExports.DetailTotalIsPositiveSum | mauricio-goncalves-analista-dados-fiesc/2_demanda2/demanda2.py:79 | the detail total is the sum of the positive groups |
| PorkExports.DetailTotalAtLeastSummary | mauricio-goncalves-analista-dados-fiesc/2_demanda2/demanda2.py:52-79 | dropping the groups that are not positive never lowers the total: the detail total is at least the summary total |
| PorkExports.TotalsAgree | mauricio-goncalves-analista-dados-fiesc/2_demanda2/demanda2.py:52-79 | when no value is negative the two totals agree |
| PorkExports.LeftOutGroupsAreZero | mauricio-goncalves-analista-dados-fiesc/2_demanda2/demanda2.py:70 | with no negative value the groups left out of the detail sum to zero |
| PorkExports.TotalsSplit | mauricio-goncalves-analista-dados-fiesc/2_demanda2/demanda2.py:52-79 | the summary total is the detail total plus the total of the groups left out |
| PorkExports.ValuesSplit | mauricio-goncalves-analista-dados-fiesc/2_demanda2/demanda2.py:70 | the positive and the non-positive groups split the total between them |
| PorkExports.Demanda2 | mauricio-goncalves-analista-dados-fiesc/2_demanda2/demanda2.py:5-88 | the report has five summary rows and at least the detail Total row |
| PorkExports.GerarDemanda2 | mauricio-goncalves-analista-dados-fiesc/2_demanda2/demanda2.py:5-88 | `gerar_demanda2`, with its loop, computes exactly that report |
| PorkExports.SelectedNonNegative | mauricio-goncalves-analista-dados-fiesc/2_demanda2/demanda2.py:16-25 | if no exported value is negative, no selected value is |
| PorkExports.ReportTotals | mauricio-goncalves-analista-dados-fiesc/2_demanda2/demanda2.py:37-88 | the detail total of the report is never below its summary total, and equals it when no exported value is negative |
| WorkforceStock.FirstValue | mauricio-goncalves-analista-dados-fiesc/4_demanda4/demanda4.py:46-48 | the value of the first row of the year, and nothing exactly when the table has no row for that year |
| WorkforceStock.ObservedIsYearSum | mauricio-goncalves-analista-dados-fiesc/4_demanda4/demanda4.py:26-50 | for each year of 2002..2022 the quantity the loop writes, with its default of 0, is the sum of that year's RAIS rows |
| WorkforceStock.BalanceIsYearSum | mauricio-goncalves-analista-dados-fiesc/4_demanda4/demanda4.py:40-65 | the balance an estimate adds is the year's admissions minus dismissals over the CAGED rows, 0 for a year without rows |
| WorkforceStock.ObservedRows | mauricio-goncalves-analista-dados-fiesc/4_demanda4/demanda4.py:44-55 | the loop appends one observed row per year, from 2002, in order |
| WorkforceStock.QuantityOf | mauricio-goncalves-analista-dados-fiesc/4_demanda4/demanda4.py:58-59 | `next(...)` gives the quantity of the first row of the year, 0 when there is none |
| WorkforceStock.Descending | mauricio-goncalves-analista-dados-fiesc/4_demanda4/demanda4.py:76-77 | `df_final` is `data_final` reordered, latest year first |
| WorkforceStock.LaterOrSameIsPreorder | mauricio-goncalves-analista-dados-fiesc/4_demanda4/demanda4.py:77 | the descending year order is a total preorder to sort by |
| WorkforceStock.ObservedRowsSnoc | mauricio-goncalves-analista-dados-fiesc/4_demanda4/demanda4.py:45-55 | each pass of the loop appends the next year's observed row |
| WorkforceStock.BuildData | mauricio-goncalves-analista-dados-fiesc/4_demanda4/demanda4.py:44-73 | the loop and the two appends build exactly `data_final` |
| WorkforceStock.EstimateStock | mauricio-goncalves-analista-dados-fiesc/4_demanda4/demanda4.py:5-77 | the script computes exactly the sorted table |
| WorkforceStock.FindQuantity | mauricio-goncalves-analista-dados-fiesc/4_demanda4/demanda4.py:58-59 | the generator search returns the quantity `next(...)` stands for |
| WorkforceStock.AscendingShape | mauricio-goncalves-analista-dados-fiesc/4_demanda4/demanda4.py:44-73 | `data_final` has the years 2002..2024 once each in increasing order, only 2023 and 2024 are estimates, and each estimate is the previous stock plus that year's balance |
| WorkforceStock.SortIsReversal | mauricio-goncalves-analista-dados-fiesc/4_demanda4/demanda4.py:76-77 | since the years are distinct the descending sort has one outcome, the list reversed |
| WorkforceStock.ReversedBySort | mauricio-goncalves-analista-dados-fiesc/4_demanda4/demanda4.py:77 | rows with increasing years, sorted latest first, come out reversed |
| WorkforceStock.DescendingShape | mauricio-goncalves-analista-dados-fiesc/4_demanda4/demanda4.py:44-77 | `df_final` has 23 rows from 2024 down to 2002, only the first two are estimates, each estimate adds its balance to the next row's stock, and the observed rows hold the loop's quantities |
| WorkforceStock.StockTableContents | mauricio-goncalves-analista-dados-fiesc/4_demanda4/demanda4.py:22-77 | in terms of the raw rows: each observed quantity is that year's RAIS sum (0 without data) and the estimates add the CAGED balances of 2023 and 2024 to the 2022 stock |
| VehicleRankings.SplitVehicle | mauricio-goncalves-analista-dados-fiesc/3_demanda3/demanda3.py:53 | `split(" ", n=1)`: the brand is the text before the first space and holds none; the model is missing exactly when there is no space, and otherwise brand, space and model rebuild `Marca_Modelo` |
| VehicleRankings.SplitAll | mauricio-goncalves-analista-dados-fiesc/3_demanda3/demanda3.py:53 | every row is split on its own |
| VehicleRankings.SplitColumns | mauricio-goncalves-analista-dados-fiesc/3_demanda3/demanda3.py:53 | assigning the split to two columns fails exactly when no row has a space; otherwise every row is split |
| VehicleRankings.NotSmallerIsPreorder | mauricio-goncalves-analista-dados-fiesc/3_demanda3/demanda3.py:58 | largest quantity first is a total preorder to sort by |
| VehicleRankings.Numbered | mauricio-goncalves-analista-dados-fiesc/3_demanda3/demanda3.py:59-61 | each row gets its position plus one as `Ranking` |
| VehicleRankings.Ranking | mauricio-goncalves-analista-dados-fiesc/3_demanda3/demanda3.py:55-61 | one ranked row per distinct key, ranked 1..n, quantities never rising |
| VehicleRankings.SortedGroups | mauricio-goncalves-analista-dados-fiesc/3_demanda3/demanda3.py:55-59 | the ranking numbers a reordering of the grouped sums |
| VehicleRankings.RankedIsGroup | mauricio-goncalves-analista-dados-fiesc/3_demanda3/demanda3.py:55-57 | each ranked row is one of the groups |
| VehicleRankings.RankingSums | mauricio-goncalves-analista-dados-fiesc/3_demanda3/demanda3.py:55-57 | each ranked quantity is the sum of its key's quantities |
| VehicleRankings.RankingKeysDistinct | mauricio-goncalves-analista-dados-fiesc/3_demanda3/demanda3.py:56-57 | no key is ranked twice |
| VehicleRankings.RankingCoversKeys | mauricio-goncalves-analista-dados-fiesc/3_demanda3/demanda3.py:56-57 | every key of the input is ranked |
| VehicleRankings.RankingTotal | mauricio-goncalves-analista-dados-fiesc/3_demanda3/demanda3.py:55-60 | the ranked quantities add up to the input total |
| VehicleRankings.BrandPairs | mauricio-goncalves-analista-dados-fiesc/3_demanda3/demanda3.py:56 | each split row is grouped under its brand with its quantity |
| VehicleRankings.ModelPairs | mauricio-goncalves-analista-dados-fiesc/3_demanda3/demanda3.py:65 | `groupby(["Marca", "Modelo"])` sees exactly the rows with a model, in order, each as its (brand, model) key and quantity; every row with a model is among them |
| VehicleRankings.RankAll | mauricio-goncalves-analista-dados-fiesc/3_demanda3/demanda3.py:55-71 | one brand ranking row per distinct brand and one model ranking row per distinct (brand, model) |
| VehicleRankings.SelectedSpaces | mauricio-goncalves-analista-dados-fiesc/3_demanda3/demanda3.py:52-53 | no Santa Catarina row has a space exactly when the selected rows have none |
| VehicleRankings.Demanda3 | mauricio-goncalves-analista-dados-fiesc/3_demanda3/demanda3.py:47-71 | `gerar_rankings_demanda3` fails exactly when no Santa Catarina `Marca_Modelo` holds a space |
| VehicleRankings.BrandRankingTotal | mauricio-goncalves-analista-dados-fiesc/3_demanda3/demanda3.py:52-61 | the brand ranking accounts for every Santa Catarina vehicle: its quantities add up to the state's total |
| JoinvilleWages.MissingColumns | mauricio-goncalves-analista-dados-fiesc/1_demanda1/demanda1.py:15-17 | as written, an expected column is reported missing exactly when the untrimmed header lacks that exact name |
| JoinvilleWages.StripNames | mauricio-goncalves-analista-dados-fiesc/1_demanda1/demanda1.py:25 | the renamed header has each name trimmed, in place |
| JoinvilleWages.MissingAfterStrip | mauricio-goncalves-analista-dados-fiesc/1_demanda1/demanda1.py:15-25 | an expected column is missing exactly when no trimmed header name equals it |
| JoinvilleWages.CheckAfterStrip | mauricio-goncalves-analista-dados-fiesc/1_demanda1/demanda1.py:15-25 | checking after the trim accepts every header the written check accepts, and trimming the header first changes nothing |
| JoinvilleWages.SpacedHeaderRefused | mauricio-goncalves-analista-dados-fiesc/1_demanda1/demanda1.py:15-22 | as written, a header naming " cnae" is refused with `cnae` missing |
| JoinvilleWages.SpacedHeaderAccepted | mauricio-goncalves-analista-dados-fiesc/1_demanda1/demanda1.py:15-25 | the trim that follows would have accepted that header |
| JoinvilleWages.PaddedHeaderAccepted | mauricio-goncalves-analista-dados-fiesc/1_demanda1/demanda1.py:15-25 | after the trim any header with every expected name, as it is or behind one blank, is accepted |
| JoinvilleWages.StripCell | mauricio-goncalves-analista-dados-fiesc/1_demanda1/demanda1.py:26 | a text cell is trimmed, a missing one stays missing |
| JoinvilleWages.CleanRow | mauricio-goncalves-analista-dados-fiesc/1_demanda1/demanda1.py:26-33 | a cleaned row has trimmed texts, a code of at least seven characters that keeps the value of a digit code, and the remuneration read from the trimmed text with a decimal comma |
| JoinvilleWages.Cleaned | mauricio-goncalves-analista-dados-fiesc/1_demanda1/demanda1.py:26-33 | the column steps clean each row on its own |
| JoinvilleWages.PrepareKeeps | mauricio-goncalves-analista-dados-fiesc/1_demanda1/demanda1.py:35-39 | only the rows whose remuneration converts stay, all of them, in order |
| JoinvilleWages.CommaDecimal | mauricio-goncalves-analista-dados-fiesc/1_demanda1/demanda1.py:32-33 | a remuneration written with a decimal comma reads as its whole part plus its fraction |
| JoinvilleWages.TwoSeparatorsRefused | mauricio-goncalves-analista-dados-fiesc/1_demanda1/demanda1.py:32-39 | a remuneration with two separators (a thousands '.' and a decimal ',', say) does not convert, so its row is dropped |
| JoinvilleWages.JoinvilleMatch | mauricio-goncalves-analista-dados-fiesc/1_demanda1/demanda1.py:42 | a cleaned row is a Joinville row exactly when its municipality, trimmed and lower-cased, reads "joinville" |
| JoinvilleWages.AnalysedRows | mauricio-goncalves-analista-dados-fiesc/1_demanda1/demanda1.py:35-42 | the rows analysed are exactly the cleaned Joinville rows whose remuneration converts |
| JoinvilleWages.MeanPay | mauricio-goncalves-analista-dados-fiesc/1_demanda1/demanda1.py:45-47 | `mean()` skips missing values, is NaN exactly when none is left, and times the count gives the total |
| JoinvilleWages.MeanWithin | mauricio-goncalves-analista-dados-fiesc/1_demanda1/demanda1.py:45-47 | a mean lies between any bounds of the values it averages |
| JoinvilleWages.PaySplit | mauricio-goncalves-analista-dados-fiesc/1_demanda1/demanda1.py:57-65 | splitting the rows by a test and its negation splits their count and their total |
| JoinvilleWages.SectorPairs | mauricio-goncalves-analista-dados-fiesc/1_demanda1/demanda1.py:45 | every row with a sector is grouped under it; rows without one are left out |
| JoinvilleWages.Sectors | mauricio-goncalves-analista-dados-fiesc/1_demanda1/demanda1.py:45-46 | each sector is listed once |
| JoinvilleWages.SectorMeans | mauricio-goncalves-analista-dados-fiesc/1_demanda1/demanda1.py:45-47 | one row per sector, holding the mean of that sector's rows |
| JoinvilleWages.SectorsCover | mauricio-goncalves-analista-dados-fiesc/1_demanda1/demanda1.py:45 | every row with a sector has its sector listed |
| JoinvilleWages.SectorsSound | mauricio-goncalves-analista-dados-fiesc/1_demanda1/demanda1.py:45 | every listed sector is the sector of some row |
| JoinvilleWages.SectorMeansKeys | mauricio-goncalves-analista-dados-fiesc/1_demanda1/demanda1.py:45-47 | the sector table names each sector of the rows once, and only those |
| JoinvilleWages.SectorMeanWithin | mauricio-goncalves-analista-dados-fiesc/1_demanda1/demanda1.py:45-47 | once every row has a remuneration, a sector with rows has a mean lying between any bounds of its rows' remunerations |
| JoinvilleWages.Division | mauricio-goncalves-analista-dados-fiesc/1_demanda1/demanda1.py:60-62 | `str[:2]` is the first two characters, or the whole of a shorter code |
| JoinvilleWages.IndustrialDivisionsRange | mauricio-goncalves-analista-dados-fiesc/1_demanda1/demanda1.py:50-54 | `cnaes_industriais` is exactly the two-digit divisions 05-33, 35-39 and 41-43 |
| JoinvilleWages.CnaeDivision | mauricio-goncalves-analista-dados-fiesc/1_demanda1/demanda1.py:29-62 | a code of at most seven digits is industrial exactly when its padded division, the value over 100000, is in those ranges |
| JoinvilleWages.MissingCnae | mauricio-goncalves-analista-dados-fiesc/1_demanda1/demanda1.py:29-62 | a missing code prints as "nan", pads to "0000nan" and counts as not industrial |
| JoinvilleWages.Comparison | mauricio-goncalves-analista-dados-fiesc/1_demanda1/demanda1.py:57-65 | `df_comparacao` holds the mean pay of the non-industrial rows, then that of the industrial rows |
| JoinvilleWages.ComparisonPartition | mauricio-goncalves-analista-dados-fiesc/1_demanda1/demanda1.py:57-65 | the two groups split the count and the total, and when both have a mean the overall mean lies between them |
| JoinvilleWages.SplitMeans | mauricio-goncalves-analista-dados-fiesc/1_demanda1/demanda1.py:57-65 | any split of the rows in two puts the overall mean between the means of the two parts |
| JoinvilleWages.MeanOfParts | mauricio-goncalves-analista-dados-fiesc/1_demanda1/demanda1.py:57-65 | two parts with their own means average to a mean between them |
| JoinvilleWages.MeansBetween | mauricio-goncalves-analista-dados-fiesc/1_demanda1/demanda1.py:57-65 | the mean of two groups together lies between the means of each |
| JoinvilleWages.Analyse | mauricio-goncalves-analista-dados-fiesc/1_demanda1/demanda1.py:41-65 | the two sheets over the cleaned Joinville rows, the comparison holding two rows |
| JoinvilleWages.Demanda1 | mauricio-goncalves-analista-dados-fiesc/1_demanda1/demanda1.py:13-65 | the script without its Excel output fails exactly when an expected column is missing from the header as read, reporting those columns; otherwise it gives the two sheets |
| JoinvilleWages.Demanda1Trimmed | mauricio-goncalves-analista-dados-fiesc/1_demanda1/demanda1.py:15-25 | the intended script, with the column check made after the trim, fails exactly when an expected column is missing from the trimmed header |
| JoinvilleWages.Demanda1Agreement | mauricio-goncalves-analista-dados-fiesc/1_demanda1/demanda1.py:15-25 | the two agree on every header without surrounding spaces, and the trimmed one accepts whatever the script accepts |
| JoinvilleWages.TrimmedHeaderChecks | mauricio-goncalves-analista-dados-fiesc/1_demanda1/demanda1.py:15-25 | on a header of already trimmed names the written and the trimmed check find the same columns missing |
| JoinvilleWages.Demanda1SpacedHeader | mauricio-goncalves-analista-dados-fiesc/1_demanda1/demanda1.py:15-25 | on the header " cnae;nm_mun;nu_remuneracao;setor" the script stops with `cnae` missing and the trimmed one gives the analysis |
| JoinvilleWages.GerarDemanda1 | mauricio-goncalves-analista-dados-fiesc/1_demanda1/demanda1.py:13-65 | the steps on a rebound frame, with the check on the header as read and the `dropna` done only when something failed to convert, give exactly the script's result |

## Left out

- Reading and writing files: `read_csv`, `read_excel`, the pickle files passed between the validation scripts, the Excel formatting with xlsxwriter, the HTML and CSV export of the consolidated report, the matplotlib and seaborn plots and all console output. The model starts from the tables as read and ends at the tables that would be written.
- The `os.path.exists` check and `exit()` of `demanda1` before the column check (a missing file), the `__main__` blocks and the `pip install` fallback for `unidecode`.
- `6_validacao/s1_importacao_e_compreensao_dados.py`: file discovery and separator and encoding retries around `read_csv`, all input.
- `5_analise_dados_vendas/ppt_demanda_5.py` (notebook, image and slide output) and `4_demanda4/demanda4preditivo.py` (a scikit-learn regression on floats): neither is part of this model.
- `datetime.now()` in the consolidated report.
- Names.Normalize: `unidecode` transliteration is not modelled; normalising is lower-casing then trimming, so names that differ only in accents get different keys here.
- Text.Lower: lower-cases ASCII and Latin-1 capitals only, not the rest of Unicode.
- Text.IsDigits: ASCII digits only, where Python's `isdigit` also accepts other Unicode digits.
- Text.ParseInt and Text.ParseDecimal: `to_numeric` is modelled for optional-sign integer literals and for '.'-decimal literals; exponents, "inf"/"nan" text, surrounding whitespace and thousands separators are not modelled and read as missing.
- PorkExports.Converted: `VL_FOB` and `CO_ANO` are read as integers, so a `VL_FOB` text with a fractional part is missing in the model and is skipped by the sums.
- Percent.Ratio: finite percentages are exact reals; float64 rounding and the scripts' `.round(2)` are not modelled.
- Row order of `groupby` and of outer `merge` results: pandas sorts the keys, the model keeps first-appearance order; no modelled result depends on it.
- Sorting.SortBy: the order among rows with equal sort keys (pandas' default quicksort is not stable) is left unspecified, so `VehicleRankings.Ranking` fixes the rank of tied quantities only up to that order.
- InternalConsistency.ValidateInternal: the `else` branch of `s6` (lines 90-93) is not modelled; the left merge always creates `microrregiao_norm`, so that branch is unreachable.
- The free-text columns `descricao`, `impacto` and `acao` of the consolidated report: entries and recommendations carry their kind, entity, figures and severity as datatypes instead of formatted strings.
- dtype strings (`tipos_dados`) beyond the split between text (`object`) and numeric columns.
- Extra CSV columns beyond the ones the scripts use, and duplicate column names after the header trim of `demanda1`.
- The `try`/`except` around `.values[0]` in `s3`: it cannot fail once a "Total" row exists, so `Totals.ChosenTotal` has no exception path.
- Missing `UF`, `Marca_Modelo` and `SG_UF_NCM` cells are not modelled; these columns are plain strings.
- A missing `CO_NCM` cell is not modelled: export and nomenclature codes are plain strings. In pandas such a cell stays NaN through `.str.zfill(8)`, and the merge would pair it with every nomenclature row that also lacks a code.
- A missing Gold `nu_quantidade` is not modelled: Gold rows hold a whole count (`Names.NamedCount`). In pandas, the totals' `sum()` would skip it, and the row-level comparison would give NaN columns and ❌ for that row.
- A missing RAIS `nu_quantidade` cell is not modelled: `WorkforceStock.RaisRow` holds a whole quantity. In pandas the year's `sum()` skips such a cell, which is the same total as a quantity of 0 in that row.
- A missing CAGED `nu_admitidos` or `nu_desligados` cell is not modelled: `WorkforceStock.CagedRow` holds whole counts. In pandas that row's `saldo` is NaN, and the year's `sum()` skips the whole row, so neither its admissions nor its dismissals count.
- A missing `Quantidade` cell in the vehicle table is not modelled: `VehicleRankings.Registration` holds a whole quantity. In pandas the rankings' `sum()` skips such a cell, the same total as a quantity of 0.

## Findings

| source | as written | input that shows it | evidently intended | confidence | as-written member | corrected member |
|---|---|---|---|---|---|---|
| mauricio-goncalves-analista-dados-fiesc/6_validacao/s7_gera_relat_consoludado_recomendacoes.py:96-104 | the severity counts index `df_inconsistencias['severidade']`, and `pd.DataFrame([])` of an empty list has no such column, so a KeyError stops the report | every check clean: no encoding message, no non-zero difference, no unmatched municipality | three zero counts and the recommendations | not executed | Consolidated.CleanReportFails | Consolidated.TallyCoversAll |
| mauricio-goncalves-analista-dados-fiesc/6_validacao/s7_gera_relat_consoludado_recomendacoes.py:38-42 | the description appends "valores com possíveis problemas de codificação" to the text after the colon, which already ends with that phrase | the message "nome: 3 valores com possíveis problemas de codificação" | the count and the phrase once | not executed | Consolidated.EncodingEntryAsWritten | Consolidated.ProblemRoundTrip |
| mauricio-goncalves-analista-dados-fiesc/1_demanda1/demanda1.py:15-25 | the expected columns are checked before the header names are trimmed | a header " cnae;nm_mun;nu_remuneracao;setor" | the check on the trimmed names, which the trim right after it prepares | not executed | JoinvilleWages.Demanda1SpacedHeader | JoinvilleWages.Demanda1Trimmed |
