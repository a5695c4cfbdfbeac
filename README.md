# athena-logs-partitioner, modelled in Dafny

The partitioner is an AWS Lambda handler (`src/app.py`). Each run does three things:

1. It lists the account folders under a bucket prefix.
2. It lists the region folders of the first account.
3. For every (account, region) pair it registers the Athena partition of the date fixed when the process loaded (`src/app.py:22-26` runs at module level, so warm invocations reuse that date), unless the DynamoDB existence table already holds that partition's key. Registering means inserting the key `log_type#account#region#yyyy-mm-dd` into the table and submitting an `ALTER TABLE … ADD PARTITION …` statement.

This project models all of that and proves what the handler promises:

- the identifiers extracted from S3 listings;
- the date texts and the exact partition key and statement;
- coverage of accounts × regions;
- that a key already present is skipped;
- that the insert of a key comes before its statement is submitted;
- that each absent key gets exactly one submission;
- that a second run does nothing.

The modules follow the source file's parts:

| file | module | source |
|---|---|---|
| `wrappers.dfy` | `Wrappers` | `Option`, `Result` |
| `pystr.dfy` | `PyStr` | the Python string operations used: `str.replace`, `str.rjust`, `str(int)` |
| `dates.dfy` | `DateParts` | `year`, `month`, `day`, `str_date` (lines 21-26), for a date given as a parameter |
| `statements.dfy` | `Statements` | `bucket_prefix.format(account_id=…)`, the partition key, `build_query_partition` |
| `discovery.dfy` | `Discovery` | `list_accounts`, `list_regions` |
| `store.dfy` | `PartitionStore` | `get_partition`, `insert_partition`, `run_query` (as class `Services`), plus `Run`, the reference definition of the registration loop, and its lemmas |
| `handler.dfy` | `Handler` | `lambda_handler`: discovery, then the double loop as methods proved equal to `Run` |

The outside world is modelled as follows:

- **S3 listing**: a function (`Listing`) from (bucket, prefix) to the `Prefix` values of `CommonPrefixes`, in order. A response without `CommonPrefixes` is `None`.
- **DynamoDB table**: the field `Services.partitions` holds its keys.
- **Failed lookups**: a fixed set `Services.faults` holds the keys whose `get_item` raises `ClientError` during the run. `get_partition` swallows that error and returns nothing, so the key counts as absent.
- **Puts and query submissions**: both are recorded, in order, in `Services.calls`.
- **Stopped runs**: a run that the source stops with an exception (iterating over a missing `CommonPrefixes`, or `accounts[0]` on an empty account list) returns `Err` in the model.

The partition location ends with the two-digit day and then `';`, with no trailing `/` (`src/app.py:90-100`, `Statements.LocationEndsWithDay`).

An identifier can still contain the stripped prefix, because the source removes the prefix from the whole entry:

- When the prefix contains `/`, no identifier contains the prefix (`Discovery.ExtractIdClean`), since every `/` is removed afterwards.
- When the prefix has no `/`, removing it can join the remaining halves into a new copy: with prefix `ab`, the entry `aabb/` yields `ab` (`Discovery.ExtractIdCanKeepPrefix`).
- Every occurrence is removed, not only the leading one: with prefix `ab/`, the folder `ab/ab/` yields an empty identifier (`Discovery.ExtractIdRemovesEveryOccurrence`).

## Model

The store lemmas take the key and statement builders as a `Job` (two functions of a pair). `Handler.JobOf` fills them in with the partition key and `build_query_partition`.

| member | source | states |
|---|---|---|
| PyStr.Replace | src/app.py:37-39 | definition of `str.replace(pat, rep)` for a non-empty pattern: scans left to right and replaces non-overlapping occurrences (the lemmas below state its properties) |
| PyStr.RemoveAll | src/app.py:37-39 | definition of `.replace(pat, "")`, which leaves the string unchanged when the pattern is empty, as Python does |
| PyStr.ReplaceAbsent | src/app.py:38 | `str.replace` with a pattern that does not occur returns the string unchanged |
| PyStr.ReplaceCharGone | src/app.py:38 | after `.replace("/", "")` no `/` is left |
| PyStr.ReplaceAtMatch | src/app.py:38 | helper of the `Replace` lemmas: a leading occurrence of the pattern is replaced and the scan resumes after it (non-overlapping, left to right) |
| PyStr.ReplaceNoMatch | src/app.py:38 | helper of the `Replace` lemmas: a character where no occurrence starts is copied and the scan moves one character on |
| PyStr.ReplaceSkipsPrefix | src/app.py:50 | a prefix that lacks the pattern's first character is copied unchanged and the scan goes on after it |
| PyStr.ReplaceCharConcat | src/app.py:38 | removing a single character distributes over concatenation |
| PyStr.AbsentCharExcludes | src/app.py:38 | a string without some character of the pattern holds no occurrence of the pattern |
| PyStr.SplitAtFirst | src/app.py:132 | two joins at a separator absent from the first parts are equal only if the parts are equal |
| PyStr.RJust | src/app.py:24-25 | `rjust`: length is max(width, len), the original is the suffix, the rest is the fill character |
| PyStr.Decimal | src/app.py:23-25 | `str(n)`: at least one digit, all digits, no leading zero unless n = 0, one digit iff n < 10, two iff 10 ≤ n < 100 |
| PyStr.DecimalRoundTrip | src/app.py:23-25 | reading `str(n)` back as a decimal gives n |
| DateParts.YearText | src/app.py:23 | definition of `year = str(date.year)` |
| DateParts.MonthText | src/app.py:24 | definition of `month = str(date.month).rjust(2, "0")` |
| DateParts.DayText | src/app.py:25 | definition of `day = str(date.day).rjust(2, "0")` |
| DateParts.StrDate | src/app.py:26 | definition of `str_date = f"{year}-{month}-{day}"` |
| DateParts.TextsOf | src/app.py:23-26 | the four module-level texts of one date |
| DateParts.PaddedTwoDigits | src/app.py:24-25 | a value below 100 padded to width 2 has exactly two digits, a leading "0" iff it is below 10, and reads back as the value |
| DateParts.MonthDayWidth | src/app.py:24-25 | `month` and `day` are two characters, with a leading "0" exactly when the value is below 10 |
| DateParts.ParseDateLayout | src/app.py:26 | a `year-mm-dd` text with two-digit month and day splits back into its three fields |
| DateParts.StrDateRoundTrip | src/app.py:23-26 | `str_date` reads back as the date it was made from |
| DateParts.StrDateInjective | src/app.py:26 | distinct valid dates give distinct `str_date` texts |
| DateParts.StrDateExample | src/app.py:23-26 | 5 March 2024 gives "2024", "03", "05" and "2024-03-05" |
| Statements.FormatAccount | src/app.py:50 | definition of `bucket_prefix.format(account_id=…)`, replacing each `{account_id}` |
| Statements.PartitionKey | src/app.py:132 | definition of the f-string key `log_type#account#region#str_date` |
| Statements.BuildQueryPartition | src/app.py:80-101 | definition of `build_query_partition`, as head, partition clause and location tail |
| Statements.FormatWithoutPlaceholder | src/app.py:50 | a template without braces is left unchanged by the format |
| Statements.FormatFillsPlaceholder | src/app.py:50 | a template with one `{account_id}` and no other brace gets the account id in its place |
| Statements.HashJoinInjective | src/app.py:132 | four fields joined by `#`, the first three `#`-free, determine their fields |
| Statements.PartitionKeyInjective | src/app.py:132 | keys of `#`-free log types, accounts and regions on valid dates are equal only for equal log type, account, region and date |
| Statements.LocationText | src/app.py:91-99 | helper of `QueryText`: the location is `s3://`, bucket, `/`, formatted prefix, region, then `/year/month/day`, as one flat concatenation |
| Statements.ClauseText | src/app.py:82-90 | helper of `QueryText`: the head and partition clause are the source's literals around table, account, region and `str_date` |
| Statements.QueryText | src/app.py:80-101 | the statement is exactly the source's concatenation of literals, account, region, `str_date`, bucket, formatted prefix, year, month and day |
| Statements.PartitionSpecLayout | src/app.py:84-89 | the account and the region sit at fixed offsets inside the partition clause, each closed by a quote |
| Statements.QueryLayout | src/app.py:81-90 | the partition clause follows directly after `ALTER TABLE <table> ADD PARTITION (` |
| Statements.QuotedValueAt | src/app.py:84-87 | two quote-free values read at the same offset, each closed by a quote, are equal |
| Statements.QuotedValueIn | src/app.py:81-90 | a quoted value inside a substring sits at the shifted offset of the whole statement |
| Statements.QueryAccountAt | src/app.py:82-85 | the account sits at a fixed offset of the statement, closed by a quote |
| Statements.QueryRegionAt | src/app.py:84-87 | the region sits at an offset fixed by the account's length, closed by a quote |
| Statements.QueryAccountDetermined | src/app.py:80-101 | equal statements with quote-free accounts have the same account |
| Statements.QueryRegionDetermined | src/app.py:80-101 | equal statements for one account with quote-free regions have the same region |
| Statements.QueryInjective | src/app.py:80-101 | statements for quote-free (account, region) pairs are equal only for equal pairs |
| Statements.LocationEndsWith | src/app.py:93-99 | the location ends with `/` followed by the day text |
| Statements.LocationEndsWithDay | src/app.py:90-100 | for a valid date the location ends with `/` and the two-digit day, with no trailing slash |
| Statements.LocationFillsTemplate | src/app.py:91-99 | under a template with one `{account_id}`, the location is bucket, template with the account in place of the placeholder, region, then the date path |
| Discovery.ExtractId | src/app.py:37-39 | definition of `entry.replace(strip, "").replace("/", "")` |
| Discovery.Identifiers | src/app.py:36-40 | definition of the identifier list, one `ExtractId` per entry, in listing order |
| Discovery.CollectIdentifiers | src/app.py:36-40 | the append loop yields one identifier per entry, in listing order, with no deduplication |
| Discovery.ListAccounts | src/app.py:29-42 | a response without `CommonPrefixes` is an error naming the prefix; otherwise one identifier per entry, stripped of the bucket prefix |
| Discovery.ListRegions | src/app.py:45-62 | lists under the template formatted with the account and strips that same formatted prefix; a missing `CommonPrefixes` is an error |
| Discovery.ExtractIdClean | src/app.py:37-39 | no identifier contains `/`; when the prefix contains `/`, no identifier contains the prefix |
| Discovery.IdentifiersClean | src/app.py:36-40 | the above for every identifier of a listing |
| Discovery.ExtractIdRecoversSegment | src/app.py:37-39 | an entry `prefix + segment + "/"` gives back the `/`-free segment when the prefix does not recur in it |
| Discovery.ExtractIdRemovesEveryOccurrence | src/app.py:38 | the folder `ab/ab/` under prefix `ab/` gives the empty identifier |
| Discovery.RemoveMiddleMatch | src/app.py:38 | `"aabb/".replace("ab", "")` is `"ab/"` |
| Discovery.RemoveTrailingSlash | src/app.py:38 | `"ab/".replace("/", "")` is `"ab"` |
| Discovery.ExtractIdCanKeepPrefix | src/app.py:37-38 | under the `/`-free prefix `ab`, the entry `aabb/` gives `ab`, which contains the prefix |
| PartitionStore.Pairs | src/app.py:130-131 | definition of the pairs the double loop visits, accounts outer and regions inner |
| PartitionStore.Step | src/app.py:132-147 | definition of one inner iteration: lookup, then put and submission when the lookup finds nothing |
| PartitionStore.Run | src/app.py:130-149 | definition of the whole loop as `Step` folded over `Pairs` |
| PartitionStore.Registered | src/app.py:133-137 | definition of the pairs the loop registers, in loop order: those whose key is neither in the table beforehand nor an earlier pair's key, and those whose lookup fails |
| PartitionStore.Effects | src/app.py:136-146 | definition of the calls for the registered pairs: put, then statement, per pair |
| PartitionStore.Keys | src/app.py:132 | definition of the set of keys of the visited pairs |
| PartitionStore.PairsLength | src/app.py:130-131 | the loop visits \|accounts\| × \|regions\| pairs |
| PartitionStore.PairsIndex | src/app.py:130-131 | account i with region j is visited at position i·\|regions\| + j (accounts outer, regions inner) |
| PartitionStore.RowMembership | src/app.py:131 | the inner loop for an account visits that account with exactly the listed regions |
| PartitionStore.PairsMembership | src/app.py:130-131 | a pair is visited iff its account and its region are both listed |
| PartitionStore.KeysMembership | src/app.py:132 | a key is among the run's keys iff it is the key of one of its pairs |
| PartitionStore.RunAppend | src/app.py:130-147 | helper of `RunShape`: one more pair is one more loop step |
| PartitionStore.RunRowStep | src/app.py:131-147 | helper of `RegisterAll`: one more region of the inner loop is one more step |
| PartitionStore.PairsRow | src/app.py:130-131 | helper of `RegisterAll`: the inner loop starts after the earlier accounts' pairs and ends after one more account's row |
| PartitionStore.RunShape | src/app.py:130-147 | a run adds exactly its keys to the table and appends exactly the calls for its registered pairs |
| PartitionStore.EffectsAt | src/app.py:136-146 | for each registered pair the insert of its key comes first and its statement right after |
| PartitionStore.EffectsWithoutKey | src/app.py:136-137 | the calls for pairs whose keys differ from k hold no insert of k |
| PartitionStore.SubmittedAppend | src/app.py:146 | the statements of a concatenated call log are those of its parts |
| PartitionStore.SubmittedOfPair | src/app.py:137-146 | an insert followed by a submission submits exactly that statement |
| PartitionStore.SubmittedSnoc | src/app.py:137-146 | appending an insert and a submission adds exactly that statement |
| PartitionStore.SubmittedEffects | src/app.py:136-146 | one statement per registered pair, in order |
| PartitionStore.RegisteredOnlyAbsent | src/app.py:133-137 | every registered pair is a visited pair whose key was absent or whose lookup failed |
| PartitionStore.RegisteredKeys | src/app.py:133-137 | when no lookup fails, the registered keys are exactly the run's keys absent beforehand |
| PartitionStore.RegisteredOnce | src/app.py:133-137 | when no lookup fails, no key is registered twice |
| PartitionStore.RegisteredCount | src/app.py:133-137 | when no lookup fails, there are as many registrations as keys absent beforehand |
| PartitionStore.RegisteredQueriesDistinct | src/app.py:139-146 | when no lookup fails and statements tell pairs apart, no statement is registered twice |
| PartitionStore.RunCovers | src/app.py:130-137 | after the loop every key of accounts × regions is in the table, no key has been removed, and the log only grows |
| PartitionStore.PairKeyVisited | src/app.py:130-132 | the key of account i with region j is among the run's keys |
| PartitionStore.RunOrdersCalls | src/app.py:136-146 | the run keeps the old log and appends, for each registered pair in order, the insert of its key and then its statement |
| PartitionStore.RunSkipsPresent | src/app.py:133-137 | a key already in the table whose lookup succeeds is never inserted and no registered pair has it, so no statement is submitted for it |
| PartitionStore.RunSubmitsAbsent | src/app.py:133-146 | when no lookup fails, the number of submissions equals the number of distinct keys of the run absent beforehand |
| PartitionStore.RunSubmitsNoDuplicate | src/app.py:133-146 | when no lookup fails and statements tell pairs apart, the statements a run submits are pairwise distinct |
| PartitionStore.RunIdempotent | src/app.py:130-147 | a second run on the table left by the first changes nothing and makes no call, when no lookup fails |
| PartitionStore.Services.constructor | src/app.py:17-19 | a table with the given keys and failing lookups, and an empty call log |
| PartitionStore.Services.GetPartition | src/app.py:65-72 | returns the item exactly when the key is stored and its lookup does not fail |
| PartitionStore.Services.InsertPartition | src/app.py:75-77 | adds the key to the table and records the put |
| PartitionStore.Services.RunQuery | src/app.py:104-113 | records the submission and leaves the table unchanged |
| Handler.Discover | src/app.py:123-128 | no `CommonPrefixes` for accounts is an error naming the bucket prefix; an empty account list is an error iff the account listing is empty; for a non-empty account listing, a missing region listing is an error naming the prefix formatted with the first account, and otherwise the plan is the bucket prefix's identifiers with the first account's regions; success holds exactly when both listings are present and the account listing is non-empty; all identifiers are `/`-free |
| Handler.RegisterPartition | src/app.py:132-147 | one inner iteration: the table and log become one `Step` of the loop |
| Handler.RegisterAll | src/app.py:130-149 | the double loop leaves the table and the log as `Run` over accounts × regions |
| Handler.LambdaHandler | src/app.py:116-156 | a failed discovery returns its error and touches nothing; otherwise it registers as `Run` says and returns 200 with "Athena Partitions created" |
| Handler.JobKey | src/app.py:132 | the loop's key for a pair is `log_type#account#region#str_date` |
| Handler.JobQueriesDistinguish | src/app.py:139-144 | with quote-free identifiers, the loop's statements tell its pairs apart |
| Handler.HandlerSubmitsNoDuplicate | src/app.py:123-146 | for quote-free accounts and regions and no failing lookup, an invocation submits no statement twice |

## Left out

- The boto3 clients and the S3, DynamoDB and Athena calls they make are foreign services. They are replaced by the `Listing` function, the `Services.partitions` set and the `Services.calls` log.
- `Listing`: the S3 pagination limit of `list_objects` (1000 keys) is not modelled. A listing is whatever sequence the function returns.
- Entries of `CommonPrefixes` are modelled as their `Prefix` strings. An entry without `Prefix` corresponds to the empty string, which is what `account.get("Prefix", "")` yields.
- The environment variables `DATABASE`, `OUTPUT_BUCKET` and `DYNAMODB_TABLE`, and the output location and database passed to `start_query_execution`, are configuration. They do not affect the statement text or the table.
- `datetime.datetime.now()` is wall-clock time. The date is a parameter of `LambdaHandler`.
- `LambdaHandler` takes the date per call. The source reads the clock once, at module load, and every invocation served by that process uses the same `year`, `month`, `day` and `str_date`. A warm invocation on a later day therefore finds the earlier day's keys and registers nothing for the new day. The model covers this only when the caller passes the load-time date to every call.
- `time.sleep` and `print` have no effect on the modelled state.
- `FormatAccount`: the general `str.format` grammar is not modelled. Only `{account_id}` is replaced. Other placeholders and stray braces, which make Python raise, are left in the text.
- `GetPartition`: a `ClientError` is modelled as a fixed set of failing keys, not as a failure that varies over time.
- Failures of `put_item` or `start_query_execution` abort the real run midway (an uncaught exception). The model has these calls always succeed.
- A missing event key raises `KeyError` before anything happens. `Event` always holds all five fields.
- Concurrent invocations racing on the same table are out of scope.
- `RunSubmitsAbsent`, `RunSubmitsNoDuplicate`, `RunIdempotent`, `RegisteredKeys`, `RegisteredOnce`, `RegisteredCount`, `RegisteredQueriesDistinct` and `HandlerSubmitsNoDuplicate` require that no lookup of the run fails. A failing lookup makes the source register the key again, which `RunOrdersCalls` covers.
- `HandlerSubmitsNoDuplicate` also requires identifiers without a `'`. The source does not escape quotes in the statement, and the model proves distinct statements only for quote-free identifiers.
