# translator — a Dafny model of the usage-report pipeline

The translator reads a partner usage report (one row per partner account and part number)
and writes four files:

- `totals_by_product.csv`: item counts summed per product;
- `insert_into_chargeable.sql`: one INSERT tuple per billable row;
- two CSV error logs: the rows without a part number and the rows with a non-positive item
  count (and, in the model, the rows with a missing count; see Findings);
- `insert_into_domains.sql`: one INSERT tuple per distinct domain.

The model follows the program's layers:

- `wrappers.dfy`: `Option` and `Result`. A Python exception becomes a `Failure`.
- `seqs.dfy`: generic sequence combinators. These are the boolean-mask filter, keep-first
  de-duplication, subsequences and first-failure mapping, with lemmas about each.
- `frames.dfy`: the DataFrame stand-in. A `Table` is a set of present columns plus a
  sequence of typed `Row`s, and each `Row` has a generic `Cell` view. It also holds the
  errors and the required-column check.
- `strings.dfy`: `escape_sql_value` and `normalize_alphanumeric_string`, with integer text
  and the quoted-literal reader used as their inverses. Its `StringsExamples` module holds
  the cases of the string tests.
- `domain_rules.dfy`: the plan-ID rule on account GUIDs.
- `chargeable_rules.dfy`: the chargeable filter, as written and corrected. Each row gets a
  "fate", and `ChargeableRulesExamples` holds the test fixture and the row the filter as
  written loses.
- `df_functions.dfy`: product mapping, usage reduction, the domains table and the generic
  derived column. `DfFunctionsExamples` holds cases of their tests.
- `sql_generator.dfy`: the two statement writers. They are specified against a decoder,
  `SqlDecoder`: a rendered statement always reads back to exactly the tuples of the table.
  `SqlGeneratorExamples` holds the writers' tests.
- `processor.dfy`: the whole run. A `Run` lists the files written, in order, plus the error
  that stopped the run, if any. `ProcessorExamples` holds the totals test.

## Model

| member | source | states |
|---|---|---|
| Frames.RequireColumns | app/services/processor.py:113-118 | succeeds exactly when every required column is present; otherwise the error lists the absent ones, in the order requested |
| Frames.Missing | app/domain/business_rules_chargeable.py:19-20 | the absent columns are exactly the required ones not present, as a subsequence of the request order |
| Frames.RowsEqualByCells | app/domain/df_functions.py:78 | two rows that agree on every column's cell are the same row, so the cell view loses nothing |
| Strings.KeepAlnum | app/utils/strings.py:25 | the kept characters are all alphanumeric, form a subsequence of the input and keep every alphanumeric character with its multiplicity |
| Strings.Normalize | app/utils/strings.py:20-32 | succeeds exactly when no length is expected or the stripped text has that length; the value is the stripped text; the error carries the expected length and the stripped text |
| Strings.KeepAlnumFixpoint | app/utils/strings.py:25 | a string is its own normalization exactly when every character is alphanumeric |
| Strings.KeepAlnumIdempotent | app/utils/strings.py:25 | normalizing twice equals normalizing once |
| Strings.KeepAlnumSkipsPunctuation | app/utils/strings.py:25 | inserting a non-alphanumeric character anywhere does not change the normalization |
| Strings.NormalizeUnchecked | app/utils/strings.py:26 | without an expected length normalization never fails, never lengthens and is idempotent |
| Strings.NormalizesToEmpty | app/utils/strings.py:25 | a text normalizes to the empty text if and only if none of its characters is alphanumeric |
| Strings.Escape | app/utils/strings.py:6-18 | None becomes `NULL`; a text becomes a quoted literal whose inner quotes are all paired and which unquotes to the text; an integer becomes decimal text that reads back as the integer |
| Strings.IntTextRoundTrip | app/utils/strings.py:18 | the decimal text `str` gives an integer reads back as that integer, leaving the following text |
| Strings.CanonicalText | app/utils/strings.py:18 | a digit string without a leading zero (other than `0` itself) is the decimal text of its value |
| Strings.IntTextReadBack | app/utils/strings.py:18 | whatever the integer reader accepts is the decimal text of the integer it returns, followed by the rest; leading zeros and `-0` are refused |
| Strings.QuotedRoundTrip | app/utils/strings.py:16-17 | a body with doubled quotes followed by the closing quote reads back as the original text |
| Strings.QuotedReadBack | app/utils/strings.py:16-17 | whatever the literal reader accepts was produced by doubling the quotes of its result |
| Strings.EscapeTextBijective | app/utils/strings.py:15-17 | a literal unquotes to `x` if and only if it is the escape of `x` |
| Strings.DoubleQuotesAppend | app/utils/strings.py:16 | quote doubling distributes over concatenation |
| Strings.DoubleQuotesWithoutQuotes | app/utils/strings.py:16 | a text without quotes is unchanged by quote doubling |
| StringsExamples.EscapeNullExample | tests/strings_test.py:13-15 | None escapes to `NULL` |
| StringsExamples.EscapeQuoteExample | tests/strings_test.py:17-19 | `O'Reilly` escapes to `'O''Reilly'` |
| StringsExamples.EscapeSimpleExample | tests/strings_test.py:20 | `simple` escapes to `'simple'` |
| StringsExamples.EscapeIntExample | tests/strings_test.py:22-24 | 123 escapes to `123` |
| StringsExamples.EscapeEmptyExample | tests/strings_test.py:27-29 | the empty text escapes to `''` |
| StringsExamples.NormalizeExample | tests/strings_test.py:31-33 | `a-b_c.1` normalizes to `abc1` |
| StringsExamples.NormalizePunctuationExample | tests/strings_test.py:49-51 | `!@#$%^&*()` normalizes to the empty text |
| StringsExamples.NormalizeLengthExample | tests/strings_test.py:40-43 | `abc` with expected length 5 is a length error |
| DomainRules.MapPartnerPurchasedPlanId | app/domain/business_rules_domain.py:8-16 | succeeds exactly when the GUID has 32 letters and digits; the plan ID is those characters in order; otherwise a length error for 32 |
| DomainRules.CanonicalGuidIsPlanId | app/domain/business_rules_domain.py:13 | a GUID of exactly 32 alphanumeric characters is its own plan ID |
| DomainRules.PlanIdIdempotent | app/domain/business_rules_domain.py:13 | mapping a plan ID again gives it back |
| DomainRules.PunctuationIgnored | app/domain/business_rules_domain.py:13 | a non-alphanumeric character anywhere in the GUID changes neither the plan ID nor the error |
| DomainRules.AddPartnerPurchasedPlanIdColumn | app/domain/business_rules_domain.py:18-32 | a missing accountGuid column is an error; otherwise succeeds exactly when every GUID maps; each row gains its own plan ID and nothing else changes; a failure carries the error of the first bad GUID |
| ChargeableRules.FilterChargeable | app/domain/business_rules_chargeable.py:7-46 | the filter with the missing-count defect corrected (see Findings): succeeds exactly when PartNumber, itemCount and PartnerID are present; the three tables keep the columns and hold, in order, the rows with fate Kept, the rows with fate NoPartNumber, and the rows whose count is missing or non-positive |
| ChargeableRules.FilterChargeableAsWritten | app/domain/business_rules_chargeable.py:28-41 | the filter as written: the same column check; the tables hold, in order, the rows with fate Kept, NoPartNumber and NonPositiveCount (a present count of at most zero) |
| ChargeableRules.ChargeablePartition | app/domain/business_rules_chargeable.py:28-46 | the corrected filter's three tables and the skip-listed rows together are a permutation of the input: every row is kept, logged or skipped, exactly once |
| ChargeableRules.MissingCountRowLost | app/domain/business_rules_chargeable.py:34-37 | as written, a row with a part number and a missing count is in none of the three tables and is not skip-listed, so the tables and the skipped rows no longer make up the input |
| ChargeableRules.RulesAgreeWithoutMissingCounts | app/domain/business_rules_chargeable.py:34-37 | when every row has a count, the corrected filter and the filter as written give the same tables |
| ChargeableRules.MasksSelectFates | app/domain/business_rules_chargeable.py:28-41 | the three successive masks select exactly the rows of each fate |
| ChargeableRules.FatesPartition | app/domain/business_rules_chargeable.py:28-41 | the rows of the five fates (no part number, missing count, non-positive count, skip-listed, kept) together are a permutation of the input |
| ChargeableRules.FateMembership | app/domain/business_rules_chargeable.py:28-41 | a row is in a fate's table if and only if it is an input row with that fate |
| ChargeableRules.FatesKeepOrder | app/domain/business_rules_chargeable.py:28-41 | each table is a subsequence of the input, in input order |
| ChargeableRules.FilterChargeableIdempotent | app/domain/business_rules_chargeable.py:7-46 | filtering the kept rows again keeps them all and rejects none |
| ChargeableRules.NoOtherFate | app/domain/business_rules_chargeable.py:28-41 | rows that all share one fate contribute nothing to any other fate's table |
| ChargeableRules.RulesDifferOnlyInCountReport | app/domain/business_rules_chargeable.py:34-37 | the corrected filter and the filter as written fail alike, keep the same rows and log the same rows without part number; the count-error table as written is the corrected one without its rows whose count is missing |
| ChargeableRulesExamples.FixtureExample | tests/business_rules_chargeable_test.py:16-48 | on the test fixture with skip list [1], PartnerIDs 4 and 5 are kept, 2 has no part number and 3 has a non-positive count, under both the corrected filter and the filter as written |
| ChargeableRulesExamples.LostRowExample | app/domain/business_rules_chargeable.py:34-37 | one row with part number `A` and no count: as written all three tables are empty; corrected, the row is in the count-error table |
| ChargeableRulesExamples.MissingColumnsExample | tests/business_rules_chargeable_test.py:50-54 | a table with only PartnerID fails, naming PartNumber and itemCount |
| DfFunctions.AddProcessedColumn | app/domain/df_functions.py:66-80 | a missing source column is an error; otherwise succeeds exactly when the function accepts every source cell; the target cell of each row is the function's value and every other cell is unchanged; a failure carries the first rejected cell's error |
| DfFunctions.ApplyProductMapping | app/domain/df_functions.py:22-31 | fails exactly when PartNumber is absent; the rows are, in order, the rows whose part number the map knows, each given its product |
| DfFunctions.MapKnownIsFilterThenMap | app/domain/df_functions.py:27-29 | mapping then dropping unmapped rows equals selecting the known rows and then looking each one up |
| DfFunctions.ProductMappingRows | app/domain/df_functions.py:27-29 | a row is in the output if and only if it is an input row with a known part number, given that part number's product |
| DfFunctions.ReducedUsage | app/domain/df_functions.py:41-46 | fails exactly when the part number's rule is zero; otherwise a missing count gives a missing usage, and a present count gives a usage that times the rule is the count, or equals the count when no rule applies |
| DfFunctions.UsageUnique | app/domain/df_functions.py:41-46 | the relation in ReducedUsage's contract fixes the usage uniquely |
| DfFunctions.ApplyUsageReduction | app/domain/df_functions.py:33-49 | missing itemCount or PartNumber is an error; otherwise succeeds exactly when every row's usage is defined, and a failure is the division by zero of the first row whose rule is zero; each row gains only its usage |
| DfFunctions.PrepareDomains | app/domain/df_functions.py:51-64 | succeeds exactly when domains and partnerPurchasedPlanID are present; the output is a subsequence of the complete rows with distinct domains that covers every complete row's domain, each row being the first complete row for its domain; and it equals the positional reference: the complete rows whose domain no earlier complete row has, in report order |
| DfFunctionsExamples.ProductMappingExample | tests/df_functions_test.py:42-49 | part numbers X, Y and Z under the map X to prod1 and Y to prod2 give two rows, with products prod1 and prod2, and Z is dropped |
| DfFunctionsExamples.UsageReductionExample | tests/df_functions_test.py:57-64 | counts 1000 and 2000 under rules 100 and 1000 give usages 10 and 2 |
| DfFunctionsExamples.PrepareDomainsExample | tests/df_functions_test.py:78-89 | of a.com/id1, b.com/id2, no domain/id3 and a.com/no plan ID, exactly a.com/id1 and b.com/id2 remain |
| DfFunctions.DomainsSelection | app/domain/df_functions.py:60-62 | the two not-null masks select the complete rows; keeping the first per domain gives a subsequence that covers every domain |
| Seqs.FirstWinsIsFirsts | app/domain/df_functions.py:62 | keep-first de-duplication keeps exactly the elements that no earlier element shares a key with, in their original order |
| SqlGenerator.TruncateToInt | app/services/sql_generator.py:15 | `int()` truncates toward zero: the result lies within 1 of the argument, on the side of zero |
| SqlGenerator.ChargeableTuple | app/services/sql_generator.py:15-17 | a row's values exist exactly when the five source columns are present and the usage is defined |
| SqlGenerator.RenderChargeable | app/services/sql_generator.py:7-22 | an empty table gives the header and an empty tuple list; rendering succeeds exactly when the table is empty or has the five columns and every usage; the text decodes to one tuple per row, in order, holding partner ID, product, plan ID, plan and truncated usage |
| SqlGenerator.DomainsTuple | app/services/sql_generator.py:33-34 | a row's values exist exactly when both columns are present |
| SqlGenerator.RenderDomains | app/services/sql_generator.py:24-39 | an empty table gives the header and an empty tuple list; rendering succeeds exactly when the table is empty or has both columns; the text decodes to one tuple per row, in order, holding plan ID and domain |
| SqlGeneratorExamples.ChargeableStatementExample | tests/sql_generator_test.py:14-30 | the statement for partners 1 and 2 decodes to the tuples (1, prodA, idA, planA, 10) and (2, prodB, idB, planB, 20) |
| SqlGeneratorExamples.ChargeableHeaderText | app/services/sql_generator.py:10-12 | the chargeable statement opens with exactly `INSERT INTO chargeable ("partnerID", "product", "partnerPurchasedPlanID", "plan", "usage") VALUES`: the five column names, each in double quotes, joined by `, ` |
| SqlGeneratorExamples.DomainsHeaderText | app/services/sql_generator.py:28-30 | the domains statement opens with exactly `INSERT INTO domains ("partnerPurchasedPlanID", "domain") VALUES` |
| SqlGeneratorExamples.ChargeableTupleTextExample | tests/sql_generator_test.py:30 | the first of those tuples is written `(1, 'prodA', 'idA', 'planA', 10)` |
| SqlGeneratorExamples.DomainsStatementExample | tests/sql_generator_test.py:32-45 | the statement for plan IDs idA and idB decodes to the tuples (idA, a.com) and (idB, b.com) |
| SqlGeneratorExamples.DomainsTupleTextExample | tests/sql_generator_test.py:45 | the first of those tuples is written `('idA', 'a.com')` |
| SqlGenerator.ValueRoundTrip | app/utils/strings.py:13-18 | an escaped value followed by a separator reads back as the value |
| SqlGenerator.ValuesRoundTrip | app/services/sql_generator.py:18 | a tuple's joined values and closing parenthesis read back as the values |
| SqlGenerator.TuplesRoundTrip | app/services/sql_generator.py:21-22 | the joined tuples and the terminator read back as the tuples |
| SqlGenerator.StatementRoundTrip | app/services/sql_generator.py:20-22 | a whole statement of non-empty tuples decodes to exactly its tuples |
| SqlGenerator.ValueReadBack | app/utils/strings.py:13-18 | every value text the decoder accepts is the escape of the value it returns, followed by the rest |
| SqlGenerator.ValuesReadBack | app/services/sql_generator.py:18 | every value list the decoder accepts is a non-empty tuple's joined values and closing parenthesis |
| SqlGenerator.TuplesReadBack | app/services/sql_generator.py:21-22 | every tuple list the decoder accepts is the joined tuples and the terminator |
| SqlGenerator.StatementReadBack | app/services/sql_generator.py:20-22 | every text the decoder accepts is the statement rendered from the tuples it returns, so rendering and decoding are inverse bijections |
| Processor.TotalsMeaning | app/services/processor.py:90-91 | the totals have a key for exactly the products that occur, each holding the sum of that product's item counts |
| Processor.TotalsByProduct | app/services/processor.py:82-97 | fails exactly when product or itemCount is absent; the totals are keyed by exactly the products present, each with its sum |
| Processor.PlanIdCell | app/services/processor.py:41 | the plan-ID rule as a cell function: a text cell maps as MapPartnerPurchasedPlanId does, and every result fits the plan-ID column |
| Processor.PlanIdColumnAgrees | app/services/processor.py:41 | the generic derived column with the plan-ID rule gives the same table, or the same error, as the dedicated business rule |
| Processor.ChargeableStages | app/services/processor.py:56-59 | missing PartNumber, itemCount or PartnerID is an error naming them; otherwise the stages fail exactly when some billed row (kept, with a known product) has a reduction rule of zero, with the error of the first such row; on success the logs hold the rows without part number and the rows with a missing or non-positive count, and the reduced table holds, in order, one row per billed row: that row with its product and a usage that the rules give its count |
| Processor.ProcessChargeable | app/services/processor.py:49-62 | missing chargeable columns stop the branch before any file is written; a failure leaves either no file or the totals and an empty chargeable statement; a success writes the totals, the chargeable statement and the error logs, in that order |
| Processor.ProcessDomains | app/services/processor.py:64-68 | succeeds exactly when both columns are present, writing the rendered domains statement; otherwise no file is written and the error lists the absent columns |
| Processor.Process | app/services/processor.py:28-47 | a report without accountGuid stops the run before any file is written; a successful run writes totals, chargeable statement, error logs and domains statement, in that order |
| Processor.InvalidGuidStopsRun | app/services/processor.py:40-41 | the first GUID without 32 alphanumeric characters stops the run before any file is written, with that GUID's error |
| Processor.DomainsIndependentOfConfig | app/services/processor.py:44-47 | the domains file does not depend on the skip list, the reduction rules or the product map |
| Processor.DomainsFileContents | app/services/processor.py:47 | the domains file decodes to one tuple per distinct domain among complete rows, each from the first such row |
| Processor.ChargeableFileContents | app/services/processor.py:56-62 | the chargeable file decodes to one tuple per kept row with a known product, in order, holding its partner ID, its product, its plan ID, its plan and the truncation of the usage that the reduction rules give its count; the error logs hold exactly the rows without part number and the rows with a missing or non-positive count |
| Processor.CountLogAsWritten | app/services/processor.py:57-62 | the item-count log that the rule as written would write is the run's log less its rows with a missing count; the kept rows and the no-part-number log are the same under both rules |
| Processor.TotalsFileContents | app/services/processor.py:82-92 | the totals have one entry per product that a kept row's part number maps to, holding the sum of those rows' item counts |
| Processor.MapKnownSum | app/services/processor.py:90-91 | summing by product after the product lookup is summing each row under the product its part number maps to |
| ProcessorExamples.TotalsExample | tests/processor_test.py:65-75 | products A, B, A with counts 10, 20, 30 total to A = 40 and B = 20 |
| ProcessorExamples.DefaultConfigExample | app/config/config.py:17-26 | under the default configuration partner 26392 is skip-listed, and 5000 items of part EA000001GB0O are a usage of 5 |

## Left out

- CSV reading and header projection (`load_and_prepare_dataframe`, app/domain/df_functions.py:7-20) are left out because they are file I/O. The model starts from a loaded `Table`.
- The JSON product map (app/services/processor.py:70-80) and the environment configuration are left out. Both become the `Config` parameter. The defaults `DefaultSkip` and `DefaultReductionRules` copy app/config/config.py:17 and 21-26.
- Logging is left out throughout, and error messages are reduced to the data they carry.
- The `isinstance(dict)` check on the reduction rules (app/domain/df_functions.py:35-37) is left out: the rules are a `map` by type.
- File names and the CSV layout of the totals and error logs are left out. The files are modelled as their contents: a map of totals and two sequences of rows.
- Processor.TotalsByProduct: the totals are a map. The sorted row order that pandas' `groupby` gives the CSV is not modelled.
- `normalize_alphanumeric_string` has a second copy at app/domain/df_functions.py:82-100. It is identical apart from logging and is modelled once, as `Strings.Normalize`.
- Strings.IsAlnum: alphanumeric means ASCII letters and digits. Python's `str.isalnum` also accepts other Unicode letters and digits.
- Strings.Escape: only None, text and integers are modelled. Floats and their `str` form are not, because the pipeline converts usage to `int` before escaping.
- SqlGenerator.OptionalSql: a missing cell is written as `NULL`. A missing CSV cell reaches `escape_sql_value` as a float NaN, which it writes as `nan`. Only the `plan` column can be missing at that point; product, plan ID and domain are filtered or always set.
- DfFunctions.ReducedUsage: division is exact real division, not IEEE floating point. A zero rule is modelled as a `DivisionByZero` error. The source raises `ZeroDivisionError` or produces an infinity, depending on the numeric types; the default rules are all non-zero.
- Processor.PlanIdCell: a non-text cell fails with a length error for the empty text. In the model accountGuid cells are always text, so this branch is never reached from `Process`.
- Frames.Row: PartnerID is never missing, and partNumber and itemCount are missing only as `None`. A part number that is an empty string counts as present, which is how pandas' `isna` treats it.
- Frames.Row: itemCount is a whole number, so a fractional count such as `2.5`, which `read_csv` reads into a float column, is not modelled. The source compares such a count with zero (app/domain/business_rules_chargeable.py:34,37) and keeps it when positive. It divides it by the reduction rule (app/domain/df_functions.py:46), truncates the usage in the chargeable statement (app/services/sql_generator.py:15) and sums it as a float in the totals (app/services/processor.py:91). The totals are modelled as whole numbers for the same reason.
- DfFunctions.AddProcessedColumn: the target must be one of the model's nine columns, and every value the function returns must fit that column's type. The source derives a column of any name holding any value, as its test does with a column `b` holding `a * 2` (tests/df_functions_test.py:97-102).
- A missing item count adds nothing to a product's total, as pandas' grouped sum skips missing values. After the corrected filter no kept row has a missing count.
- Processor.ProcessChargeable: the run filters with the corrected rule (see Findings), so its item-count log also holds the rows with a part number and a missing count, which the source's rule drops. `Processor.CountLogAsWritten` states the source's log in terms of the run's; the totals and the chargeable statement do not differ.
- Processor.Process: the same difference in the item-count log as for Processor.ProcessChargeable.
- Processor.ChargeableFileContents: its log clause states the corrected log, `CountErrors`. The source's log is `WithFate(rows, skip, NonPositiveCount)`, which `Processor.CountLogAsWritten` relates to it.
- A product map entry whose value is null is not modelled, because the map's values are strings.

## Findings

| source | as written | input that shows it | evidently intended | confidence | as-written member | corrected member |
|---|---|---|---|---|---|---|
| app/domain/business_rules_chargeable.py:34-37 | the error mask `itemCount <= 0` and the keep mask `itemCount > 0` are both false for a missing (NaN) count, so a row with a part number and no count reaches no table and is not skipped either | one row with PartNumber `A`, no itemCount and PartnerID 7, empty skip list: all three tables are empty | such a row is logged with the rows whose count is not positive, so every input row is kept, logged or skipped | medium, not executed | ChargeableRules.FilterChargeableAsWritten, ChargeableRules.MissingCountRowLost, ChargeableRulesExamples.LostRowExample | ChargeableRules.FilterChargeable, ChargeableRules.ChargeablePartition |
