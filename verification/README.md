# Verified models of the SQL Server MCP server

This project models the parts of the server whose correctness is about histories, interleavings or
exact arithmetic, and proves what they promise, for every input and every run.

- **Guards over time.** The circuit breaker, the rate limiter and the query cache are mutex-protected
  objects that remember very little. Each is a class that changes in place, and each is proved to answer
  as a specification over the whole history of lock acquisitions would. A call of the breaker is two
  atomic steps, admission and completion, so late completions arrive in any phase; a call of the limiter
  carries the clock reading it took before the lock and the time it held the lock; the cache's victim is
  whichever key the hash order offers.
- **Publish and get-or-build.** Writing a temp file and renaming it, and checking, building and inserting
  if absent, are state machines over the steps of any number of callers, in any number of processes for
  the temp files, with crashes and reused process ids.
- **Exact values.** Decimal parsing and printing within `i128`, and temporal rendering with two epochs,
  1/300 s ticks, scaled increments and zone offsets, against independent meanings: the value of a digit
  string, the number of a day, the nanoseconds of an instant.
- **Statements.** The T-SQL text is compared with a lexer and parser of it. The parameter schema is
  followed from the Python generator that writes it to the Rust client that reads it, orders it and binds
  values to placeholders.
- **Merge, rank and cut; profile folding.** The dictionary-building loops of the generator and of the
  profile converter are methods with loop invariants, proved against statements about their inputs alone.

| file | models |
|---|---|
| `CircuitBreaker.dfy`, `CircuitBreakerCalls.dfy` | `src/core/circuit_breaker.rs`, by lock acquisitions and by the calls that make them |
| `RateLimiter.dfy` | `src/core/rate_limiter.rs` |
| `QueryCache.dfy` | `src/core/cache_manager.rs` |
| `GetOrBuild.dfy` | the caches of `src/data/store.rs` and `src/services/sql_pool.rs` |
| `StorePublish.dfy` | `resolve_store_path` of `src/data/store.rs` |
| `SqlNumeric.dfy` | `parse_numeric` and `format_numeric` of `src/services/sql_type.rs` |
| `Calendar.dfy`, `DateTimeText.dfy`, `SqlTemporal.dfy` | the temporal half of `src/services/sql_type.rs` |
| `SqlStatement.dfy`, `ApiClient.dfy` | `src/services/api_client.rs` |
| `RequestSchema.dfy` | the schema writer of `generate_openapi.py` and its readers in Rust |
| `OpenApiMerge.dfy`, `OpenApiRank.dfy` | `build_operations` and `main` of `generate_openapi.py` |
| `SamplyText.dfy` | `scripts/samply_to_text.py` |
| `Wrappers.dfy`, `Digits.dfy`, `Text.dfy`, `Json.dfy`, `Sorting.dfy` | what they share |

## Where the code and its documentation differ

The models follow the code. Where a comment promises more, a lemma says exactly when the code keeps it.

- `circuit_breaker.rs:44-47` promises that after the timeout one trial call decides whether to close again
  or re-open. The code lets every call through that arrives before a completion, and any completion, also
  that of a call admitted before the outage, ends the half-open phase. The trial decides, in every
  continuation, if and only if it is the only arrival and no older call is still in flight:
  `TrialDecidesIffAlone`. `LateFailureBringsSecondTrial` is a run with one arrival where a late failure
  brings a second trial beside the first.
- `rate_limiter.rs:8-9` promises at most `limit` calls per `window`. Because the clock is read before the
  lock, that holds for lock-time intervals of length `window - d`, where `d` bounds the delay between the
  two, and for no longer ones: `GuaranteedIntervalIsExact`.
- `failure_count` is a `u32` and is never clamped; a release build wraps it. Rejection is what the history
  calls for, in every possible run without more than r failures in a row, if and only if r is below 2^32 or
  the threshold or the timeout is zero: `RefinesIffCounterFits`. It takes a late completion to go wrong: in
  `WrappedCounterLosesAFailure` the failure that wraps the counter to 0 finds the breaker open and so leaves
  `opened_at` alone. While calls do not overlap the width never matters, however long the run:
  `SequentialCallsRefine`.
- `format_numeric` prints the least `i128` as a text that `parse_numeric` rejects; it is the only one:
  `RoundTripIffNotMinimum`.
- A `datetimeoffset` whose local year falls outside 0..9999 is printed with a signed year, which RFC 3339
  (section 5.6) has no room for: `OffsetTextKeepsTheInstant`, with 9999-12-31T23:30Z at +01:00 as an example
  in `LastHalfHourIsLost`.
- `api_client.rs:14-16` describes a bare `SELECT name(args)` for scalar functions; the code selects from
  every kind that is not writable, scalar functions included, and from no other:
  `SelectsFromIffNotWritable`.
- A view's text has no placeholders, though the values of its declared parameters are still converted and
  bound. The numbers agree if and only if the kind is not a view or nothing is declared:
  `PlaceholdersMatchIffNotBoundView`.
- `api_client.rs:237-242` says that a procedure with only optional parameters and no arguments is called
  with a bare `EXEC name`. The code binds an explicit NULL for every declared parameter and prints a bare
  EXEC if and only if none is declared: `BareExecIffNothingDeclared`.
- `collapse_thread` joins names with `;`, so self-time totals agree with folded totals only while no
  sampled leaf contains one: `SelfTimeMatchesIffNoSemicolon`.

## Model

| member | source | states |
|---|---|---|
| CircuitBreaking.BreakerRefinesHistory | src/core/circuit_breaker.rs:67-108 | in every interleaving of admissions, late completions and abandoned calls, a call is rejected iff the failures since the last success have reached the threshold and the latest of them is younger than the reset timeout |
| CircuitBreaking.FieldsAgreeWithHistory | src/core/circuit_breaker.rs:101-108 | the inductive invariant: the counter is the run of failures, the phase is Closed iff the run is below the threshold, and otherwise `opened_at` is the time of the latest failure |
| BreakerCalls.RefinesIffCounterFits | src/core/circuit_breaker.rs:67-108 | for every configuration and every r: rejection is the history's in all possible runs with at most r failures in a row iff r < 2^32, or the threshold or the timeout is zero |
| BreakerCalls.WrappedCounterLosesAFailure | src/core/circuit_breaker.rs:101-108 | for every threshold and timeout above zero a possible run, 2^32 admissions and then their failures, after which a call is admitted during the outage |
| BreakerCalls.SequentialCallsRefine | src/core/circuit_breaker.rs:67-108 | while no two calls are in flight together rejection is the history's for runs of any length, wrapped counter or not |
| BreakerCalls.TrialDecidesIffAlone | src/core/circuit_breaker.rs:44-47 | in every continuation the breaker is half open exactly until the trial completes iff the trial is the only call to arrive and no earlier call is still in flight |
| BreakerCalls.LateFailureBringsSecondTrial | src/core/circuit_breaker.rs:101-108 | a possible run in which one call arrives after the timeout, an older call then fails, and a second trial is admitted beside the first |
| CircuitBreaking.OneTrialIffOneArrival | src/core/circuit_breaker.rs:72-82 | between the timeout and the next completion at most one call is let through iff at most one arrives |
| CircuitBreaking.EveryArrivalIsATrial | src/core/circuit_breaker.rs:72-82 | the number let through is the number that arrive |
| CircuitBreaking.OutageIsPaced | src/core/circuit_breaker.rs:67-108 | over calls that do not overlap and all fail, each admission past the threshold starts a further reset timeout after the first call |
| CircuitBreaking.OutageBound | src/core/circuit_breaker.rs:67-108 | so those admitted within a span of the first number at most the threshold plus the whole reset timeouts in the span |
| CircuitBreaking.CircuitBreaker.Admit | src/core/circuit_breaker.rs:72-82 | the locked block of `execute` on the fields, answering as the history specification does |
| CircuitBreaking.CircuitBreaker.OnSuccess | src/core/circuit_breaker.rs:95-99 | closes the breaker and ends the run of failures, from any phase |
| CircuitBreaking.CircuitBreaker.OnFailure | src/core/circuit_breaker.rs:101-108 | lengthens the run by one and makes this failure the latest, from any phase, keeping the fields those of the history |
| CircuitBreaking.CircuitBreaker.Execute | src/core/circuit_breaker.rs:67-93 | which steps an uninterrupted call takes, and that it runs the wrapped call iff it is not rejected |
| RateLimiting.AcquireRefinesFullHistory | src/core/rate_limiter.rs:25-35 | with readings in lock order, `acquire` succeeds iff fewer than `limit` of all grants ever made are younger than the window, although the vector has forgotten most of them |
| RateLimiting.VectorIsYoungGrants | src/core/rate_limiter.rs:28-33 | the invariant behind it: pruned now or pruned all along, the vector is the young part of all grants |
| RateLimiting.VectorIsBounded | src/core/rate_limiter.rs:28-33 | whatever the readings, the vector never holds more than `limit` timestamps |
| RateLimiting.EveryWindowOfReadings | src/core/rate_limiter.rs:25-35 | every half-open interval of readings as long as the window holds at most `limit` grants |
| RateLimiting.SkewedWindow | src/core/rate_limiter.rs:25-35 | if no caller waits longer than `skew` between reading and lock, lock-time intervals of length up to `window - skew` hold at most `limit` grants, in every concurrent run |
| RateLimiting.LongerIntervalOverflows | src/core/rate_limiter.rs:25-35 | for every longer interval there is a run with `limit + 1` grants in it |
| RateLimiting.GuaranteedIntervalIsExact | src/core/rate_limiter.rs:8-9 | the documented limit holds in every run for intervals of a length iff length plus skew is at most the window |
| RateLimiting.RateLimiter.Acquire | src/core/rate_limiter.rs:25-35 | prune, test and push on the vector field: a grant is recorded iff the call succeeds, as the full history decides |
| QueryCaching.HitsAreSound | src/core/cache_manager.rs:28-36 | in every run a hit is the latest value set for the key since the last clear, no later than its expiry |
| QueryCaching.StoreIsBounded | src/core/cache_manager.rs:38-53 | whichever victims are evicted, the store holds at most `max(1, max_size)` entries |
| QueryCaching.AgreesWithUnboundedMap | src/core/cache_manager.rs:28-57 | if at most `max(1, max_size)` distinct keys are set between clears, `get` answers exactly as an unbounded map with expiry |
| QueryCaching.SomeLiveKeyMisses | src/core/cache_manager.rs:38-53 | and with more live keys than entries no choice of victims avoids a miss |
| QueryCaching.IdealIffKeysFit | src/core/cache_manager.rs:28-57 | every legal run with at most k distinct keys between clears answers as the unbounded map iff k is at most `max(1, max_size)` |
| QueryCaching.SetRemovesOnlyVictim | src/core/cache_manager.rs:38-53 | a set removes nothing but the victim, and that only from a full store for a new key, and changes no other entry |
| QueryCaching.QueryCache.Get | src/core/cache_manager.rs:28-36 | the answer after the log so far, sound always and exact under the key bound; nothing but the expired key leaves the store |
| QueryCaching.QueryCache.Set | src/core/cache_manager.rs:38-53 | the set value becomes the key's latest with its expiry, some key that was there may be evicted and nothing else changes, and the bound holds |
| QueryCaching.QueryCache.Clear | src/core/cache_manager.rs:55-57 | empties the store and starts a new count of keys |
| GetOrBuilding.CallersAgree | src/data/store.rs:180-200 | in every interleaving of check, build and insert steps all callers of one key are given the same handle, whenever they return |
| GetOrBuilding.EntriesAreStable | src/data/store.rs:184-199 | an entry once present never changes |
| GetOrBuilding.LosersHandleIsNeverReturned | src/services/sql_pool.rs:40-46 | a builder that finds its key taken returns the winner's handle, and its own is given to no caller at any later point |
| GetOrBuilding.CheckReturnsEntry | src/data/store.rs:184-186 | from any state a check returns a cached handle at once, and otherwise goes on to build |
| GetOrBuilding.BuildYieldsNewHandle | src/services/sql_pool.rs:37-38 | a build yields a handle never seen before, or fails |
| GetOrBuilding.InsertReturnsEntry | src/services/sql_pool.rs:45-46 | from any state an insert leaves the key cached and returns what is cached, its own handle if it is the first |
| GetOrBuilding.UninterruptedCall | src/data/store.rs:180-200 | the four steps of a call in a row, from any state: what was cached before, else the built handle, now cached, else nothing |
| GetOrBuilding.CallersFinish | src/services/sql_pool.rs:24-47 | wherever a caller stands, three more steps of its own bring it a handle unless its build has failed |
| GetOrBuilding.HandleCache.InsertIfAbsent | src/services/sql_pool.rs:46 | `entry().or_insert()`: no entry changes and the result is the entry |
| GetOrBuilding.HandleCache.GetOrBuild | src/services/sql_pool.rs:24-47 | an uninterrupted call: the cached handle, or the one built and now cached, or the build's failure and no entry |
| StorePublishing.PublicationIsSafe | src/data/store.rs:97-116 | over all interleavings of writers in any processes, with crashes: no two calls in flight share a temp name, every published path is absent or a complete payload, and a caller that opens it after its own rename sees a complete payload |
| StorePublishing.TempNameIsInjective | src/data/store.rs:98-102 | file, process id and counter can be read back from a temp name |
| StorePublishing.TempNameIsNotPublished | src/data/store.rs:98-102 | no temp name is a published name |
| StorePublishing.PayloadsComeFromCalls | src/data/store.rs:93-108 | what counts as a complete payload for a file was extracted by a call for that file, or was there at the start |
| StorePublishing.StoreFileNamesVersion | src/data/store.rs:26-31 | exactly four versions have a file, each its own, named after the version but for the newest |
| StorePublishing.CrashAndRespawn | src/data/store.rs:97-102 | a process that dies loses its calls, not its files, and the next one with its id counts from 0 again |
| StorePublishing.UninterruptedCallPublishes | src/data/store.rs:97-116 | the steps of one call in a row put its payload at the path, leave no temp file, and its open sees the payload |
| StorePublishing.StoreDirectory.ResolveStorePath | src/data/store.rs:55-117 | the same as one method on the directory, with the unknown version's error |
| SqlNumeric.ParseIsExact | src/services/sql_type.rs:52-72 | on every plain signed decimal, blanks around it allowed, `parse_numeric` yields exactly value times 10^scale, or the error for too many fraction digits or for overflow |
| SqlNumeric.OnlyDecimalsAreRead | src/services/sql_type.rs:52-72 | conversely, an accepted text with no sign but its first character is a plain decimal with blanks around it, and is read as exactly that |
| SqlNumeric.PrecisionFitsI128 | src/services/sql_type.rs:65-71 | integer digits plus scale of at most 38 never overflow |
| SqlNumeric.FormatDenotesValue | src/services/sql_type.rs:82-95 | the printed text denotes value / 10^scale with exactly `scale` fraction digits, at least one integer digit, no superfluous zero, and a minus sign iff negative |
| SqlNumeric.RoundTripIffNotMinimum | src/services/sql_type.rs:52-95 | parsing what was printed gives the number back iff it is not the least `i128` |
| SqlNumeric.FormatAfterParseIsIdempotent | src/services/sql_type.rs:52-95 | parse, print, parse, print gives the first print |
| Calendar.AddDaysMovesDayNumber | src/services/sql_type.rs:314-316 | walking the proleptic Gregorian calendar day by day agrees with the closed-form day number |
| Calendar.MonthStartIsClosedForm | src/services/sql_type.rs:314-316 | the months' first days follow the usual formula of 153 days in five months |
| Calendar.DayNumberIsInjective | src/services/sql_type.rs:314-316 | a valid date is determined by its day number |
| SqlTemporal.DateTextKeepsTheDay | src/services/sql_type.rs:314-325 | any day number from any epoch renders to a text that reads back as the date exactly that many days from the epoch |
| SqlTemporal.EpochsAreAFixedGapApart | src/services/sql_type.rs:314-338 | the 1900 and year-1 epochs are 693,595 days apart, for every day number |
| SqlTemporal.DateTextIsInjective | src/services/sql_type.rs:323-325 | different day numbers never share a text |
| SqlTemporal.TickIsRecoverable | src/services/sql_type.rs:339 | the 1/300 s tick can be computed back from the truncated nanoseconds |
| SqlTemporal.TickIsTruncated | src/services/sql_type.rs:339 | the nanoseconds are the largest whole number within the tick's time |
| SqlTemporal.TicksAreIncreasing | src/services/sql_type.rs:339 | a later tick has strictly more nanoseconds |
| SqlTemporal.TicksWithinTheDay | src/services/sql_type.rs:339 | nanoseconds stay below 24 h iff the tick is below one day |
| SqlTemporal.TimeOfDayIsExact | src/services/sql_type.rs:317-320 | the product neither overflows an `i64` nor wraps midnight iff the increments are fewer than a day holds, for every `u64` and scale |
| SqlTemporal.TimeTextKeepsTheTime | src/services/sql_type.rs:234-241 | every time of day, to the nanosecond, reads back from its text |
| SqlTemporal.ShortTimeIsRead | src/services/sql_type.rs:235-239 | every hour and minute is read without seconds as well |
| SqlTemporal.SecondFormatIsRedundant | src/services/sql_type.rs:235-239 | what the second format would read the first has read already, with the same result |
| SqlTemporal.ClockTextKeepsTheClock | src/services/sql_type.rs:243-246 | every date with time reads back from its text |
| SqlTemporal.ShiftMovesInstant | src/services/sql_type.rs:358-362 | local time is the UTC instant moved by the offset, across day, month and year ends |
| SqlTemporal.OffsetTextKeepsTheInstant | src/services/sql_type.rs:243-251 | adding the offset, printing and reparsing returns the same instant and offset, and `parse_naive_datetime` the UTC clock, iff the local year has four digits |
| SqlTemporal.TemporalTextKeepsTheValue | src/services/sql_type.rs:313-367 | for all six temporal cells, binding the rendered text again gives the date, nanoseconds and offset the wire carried iff the time is within the day and, for `datetimeoffset`, the local year has four digits |
| SqlTemporal.LastHalfHourIsLost | src/services/sql_type.rs:353-363 | the text of 9999-12-31T23:30Z at +01:00 is read by neither parser |
| SqlTemporal.OnlyValidTimesAreRead | src/services/sql_type.rs:191-213 | no parser reads a date outside the calendar, a time outside the day or an offset of a day or more |
| DateTimeText.ScanClockText | src/services/sql_type.rs:243-246 | the clock scanner, in the `%` form or the RFC 3339 form, takes exactly the printed clock off a longer text |
| DateTimeText.DateSays | src/services/sql_type.rs:191-195 | whatever text is scanned as a date has year, month and day in this order, in digits of the allowed widths, and is a date of the calendar |
| DateTimeText.SecondsSay | src/services/sql_type.rs:234-241 | whatever is scanned as a time of day has hours below 24, minutes and seconds below 60, in this order |
| DateTimeText.FractionSays | src/services/sql_type.rs:235 | a scanned fraction is absent, or a point and digits of which the first nine count |
| DateTimeText.OffsetSays | src/services/sql_type.rs:247-249 | a scanned offset is zulu, or a sign with two-digit hours below 24 and minutes below 60 |
| DateTimeText.FractionIsShortest | src/services/sql_type.rs:326-328 | the fraction is printed with the fewest of 0, 3, 6 and 9 digits that are exact |
| SqlStatement.ReaderInvertsText | src/services/api_client.rs:204-266 | a lexer for bracketed names and a small parser recover database, schema and name of any characters, the form, and the argument names in order or their number |
| SqlStatement.FunctionKindIff | src/services/api_client.rs:229 | a kind is a function's iff it ends in `_FUNCTION` or has `TABLE_VALUED_FUNCTION` anywhere |
| SqlStatement.CatalogKinds | src/services/api_client.rs:196-202 | views and every `_FUNCTION` kind are read only; procedure kinds and an unknown kind are not |
| SqlStatement.IdentCharsByCode | src/services/api_client.rs:70-80 | identifiers are made of ASCII letters, digits and the underscore |
| ApiClient.TextIsUnambiguous | src/services/api_client.rs:204-266 | so equal texts address the same object in the same way |
| ApiClient.ExecIffWritable | src/services/api_client.rs:196-202 | the recovered form is an EXEC iff `is_writable_kind` holds of the kind |
| ApiClient.SelectsFromIffNotWritable | src/services/api_client.rs:227-236 | the text begins with `SELECT * FROM `, or with `SELECT` at all, iff the kind is not writable |
| ApiClient.PlaceholdersMatchIffNotBoundView | src/services/api_client.rs:227-261 | the text read back has as many placeholders as bound values iff the kind is not a view or no parameter is declared |
| ApiClient.BareExecIffNothingDeclared | src/services/api_client.rs:237-246 | the text read back is a bare EXEC iff the kind is writable and no parameter is declared |
| ApiClient.PathRoundTripIffSafe | src/services/api_client.rs:46-80 | the generator's path parses to its schema and name iff both are safe identifiers |
| ApiClient.ParsePathIff | src/services/api_client.rs:46-54 | for all paths: it is read as a schema and a name iff it is these two safe identifiers after any number of slashes |
| ApiClient.BadPathIff | src/services/api_client.rs:46-54 | the shape is refused iff no nonempty schema and name are left |
| ApiClient.ResolvesToPassed | src/services/api_client.rs:100-118 | the caller's database comes first, then the configured one; it must be a string and a safe identifier |
| ApiClient.BuildStatement | src/services/api_client.rs:204-266 | the text of the statement and, for each parameter in order, the conversion of the body's value for its name, null when the body has none; or the first such value that does not convert; or the first unsafe EXEC name |
| ApiClient.Prepare | src/services/api_client.rs:332-379 | `execute` up to the query: refused under `read_only` iff the kind is writable; else the first of the path, schema and database errors; else prepared iff the passed values convert and the names are safe. What is prepared reads back as a statement on the path's object in the requested or configured database, never an EXEC under `read_only`, with every parameter bound to the value the caller passes for it |
| RequestSchema.BuildRequestSchema | docs/sqlserver-eda-openapi-pipeline/tools/generate_openapi.py:306-354 | the loop builds the schema whose reading the next rows are about |
| RequestSchema.ContractSurvivesTheSchema | src/services/api_client.rs:133-169 | reading the written schema back, inline or behind a `$ref`, under any property order, gives exactly the input parameters in ordinal order with their types |
| RequestSchema.ReadsBackIffDistinguishable | src/services/api_client.rs:149-169 | it does so for every property order iff names and ordinals are distinct, the reserved name is unused and the ordinals fit 64 bits |
| RequestSchema.CallGenerated | src/services/api_client.rs:222-261 | from dump to call: the k-th placeholder is the k-th input parameter, named as dumped in an EXEC and bound to the value the caller's `body` has for it, null when it has none, under the dumped type |
| RequestSchema.EffectiveNameDropsAts | docs/sqlserver-eda-openapi-pipeline/tools/generate_openapi.py:319 | a dumped name loses exactly its leading `@`s |
| RequestSchema.UnnamedGoesByOrdinal | docs/sqlserver-eda-openapi-pipeline/tools/generate_openapi.py:319 | an unnamed parameter goes by its ordinal |
| RequestSchema.PropertySays | docs/sqlserver-eda-openapi-pipeline/tools/generate_openapi.py:282-303 | a property carries its type, its format and default if there are any, its ordinal and its SQL type |
| RequestSchema.RequiredAreMandatory | docs/sqlserver-eda-openapi-pipeline/tools/generate_openapi.py:332-333 | the required names are those of the inputs without a default, in order |
| RequestSchema.RequiredIsListed | docs/sqlserver-eda-openapi-pipeline/tools/generate_openapi.py:351-354 | the schema lists them, and has no list when there are none |
| RequestSchema.DatabasePropertySays | docs/sqlserver-eda-openapi-pipeline/tools/generate_openapi.py:335-349 | the reserved property is a string, marked synthetic, and names the databases |
| RequestSchema.DeclaredShapesAreTaken | src/services/sql_type.rs:134-232 | across the languages: for every type whose name reads back, the binding takes any JSON value of the type the schema declares, and where it is choosy nothing else but null, and text for exact decimals |
| RequestSchema.FormatsFollowTypes | docs/sqlserver-eda-openapi-pipeline/tools/generate_openapi.py:128-160 | which format goes with which declared type |
| RequestSchema.LengthsAreCharacters | docs/sqlserver-eda-openapi-pipeline/tools/generate_openapi.py:271-278 | lengths are printed in characters, half the bytes for the Unicode types, and `max` for -1 |
| RequestSchema.OtherSuffixes | docs/sqlserver-eda-openapi-pipeline/tools/generate_openapi.py:267-279 | time types print a scale above 0, and the other types nothing |
| RequestSchema.UnannotatedReadsAsText | src/services/api_client.rs:154-164 | a property without annotations reads as ordinal 0 and `nvarchar(max)` |
| RequestSchema.NoBodyNoParams | src/services/api_client.rs:133-143 | no body, or a `$ref` that leads nowhere, means no parameters |
| RequestSchema.BaseTypeReadsBackIff | src/services/sql_type.rs:22-29 | for every type name and whatever length, precision or scale follows it, `base_type` recovers the name in lower case iff it has no parenthesis and no surrounding white space |
| RequestSchema.TypeTextReadsBack | docs/sqlserver-eda-openapi-pipeline/tools/generate_openapi.py:254-279 | for decimal and numeric `base_type` recovers the type, and `precision_scale` the precision and scale iff both fit a byte |
| RequestSchema.BareTypeReadsBack | src/services/sql_type.rs:35-46 | without a precision the reader falls back to (18, 0) |
| RequestSchema.PrecisionAlone | src/services/sql_type.rs:35-46 | a precision alone means scale 0; without a closing parenthesis nothing is read |
| OpenApiMerge.BuildOperations | docs/sqlserver-eda-openapi-pipeline/tools/generate_openapi.py:671-736 | operations plus dropped extended procedures number the distinct identities of the three dumps; the survivors are exactly the documented ones, each once, each listing its holders, with parameters from the first holder with any, and as result set the first described rows with a named column, else the first FMTONLY columns, else "none" if a holder confirms it, else the first error |
| OpenApiMerge.BuildRegistry | docs/sqlserver-eda-openapi-pipeline/tools/generate_openapi.py:680-705 | the loop nest builds the registry of all sightings in order |
| OpenApiMerge.RegistryHoldsIdentities | docs/sqlserver-eda-openapi-pipeline/tools/generate_openapi.py:697-705 | the registry's keys are the identities of the dumps, each once |
| OpenApiMerge.CandidatesAreHolders | docs/sqlserver-eda-openapi-pipeline/tools/generate_openapi.py:697-705 | an object's candidates are the databases holding it, each with its own evidence |
| OpenApiMerge.HoldersAreListed | docs/sqlserver-eda-openapi-pipeline/tools/generate_openapi.py:697-731 | the sorted list has each database once for every time its dump lists the object, and no other |
| OpenApiMerge.ChooseBestResultSet | docs/sqlserver-eda-openapi-pipeline/tools/generate_openapi.py:658-668 | that choice, over the candidates in priority order, without reference to ranks |
| OpenApiMerge.FirstOfMaximalTier | docs/sqlserver-eda-openapi-pipeline/tools/generate_openapi.py:631-668 | the first evidence of maximal rank is what that choice asks for |
| OpenApiMerge.ParamsOfPicks | docs/sqlserver-eda-openapi-pipeline/tools/generate_openapi.py:688-690 | an object's parameters are those of exactly the rows with its schema and its name, in dump order |
| OpenApiMerge.RowsOfPicks | docs/sqlserver-eda-openapi-pipeline/tools/generate_openapi.py:692-694 | and so are its result rows |
| OpenApiMerge.FirstNonemptyIsFromFirst | docs/sqlserver-eda-openapi-pipeline/tools/generate_openapi.py:624-628 | the parameters are those of the first holder that has any |
| OpenApiMerge.DroppedIffUndocumented | docs/sqlserver-eda-openapi-pipeline/tools/generate_openapi.py:714-723 | the drop test on the merged operation asks exactly whether no holder knows a parameter or a column of the extended procedure |
| OpenApiRank.ComputePresence | docs/sqlserver-eda-openapi-pipeline/tools/generate_openapi.py:578-601 | every identity of any version, with exactly the versions that hold it |
| OpenApiRank.EmitPaths | docs/sqlserver-eda-openapi-pipeline/tools/generate_openapi.py:787-863 | paths plus collisions number the kept operations; each path is "/schema/name" of the operation it holds, the first of the kept with it |
| OpenApiRank.CutSplitsCandidates | docs/sqlserver-eda-openapi-pipeline/tools/generate_openapi.py:777-780 | kept and ranked out together are the candidates, and nothing is ranked out before the cut is full |
| OpenApiRank.CutIsByRank | docs/sqlserver-eda-openapi-pipeline/tools/generate_openapi.py:739-780 | no operation ranked out has a strictly better key than a kept one, nor is preferred to it |
| OpenApiRank.BetterIffPreferred | docs/sqlserver-eda-openapi-pipeline/tools/generate_openapi.py:739-760 | a strictly better key means: on more versions; else more documented (both, then columns, then parameters); else of an earlier kind (procedures, functions, views); else earlier schema, then name, in dictionary order |
| OpenApiRank.SharePathIff | docs/sqlserver-eda-openapi-pipeline/tools/generate_openapi.py:789 | two operations share a path iff they share schema and name, unless a schema has a slash in it |
| OpenApiRank.EmittedIsBest | docs/sqlserver-eda-openapi-pipeline/tools/generate_openapi.py:787-800 | an emitted operation is a candidate, and no kept operation on its path ranks above it or is preferred to it |
| OpenApiRank.FullPresenceSurvivesTheCut | docs/sqlserver-eda-openapi-pipeline/tools/generate_openapi.py:739-780 | if at least `TOP_N_PER_VERSION` candidates exist on every version, every kept one does |
| OpenApiRank.RankAndEmit | docs/sqlserver-eda-openapi-pipeline/tools/generate_openapi.py:763-863 | paths plus collisions plus ranked out plus dropped procedures number the identities of the dumps; every path is "/schema/name" of its operation, and the client's `parse_path` reads it as these iff both are safe identifiers |
| Sorting.SortIsStable | docs/sqlserver-eda-openapi-pipeline/tools/generate_openapi.py:777 | elements of equal rank keep their order |
| Sorting.StrictOrderIsUnique | src/services/api_client.rs:167 | there is one strictly sorted sequence of given elements, so the order of JSON properties cannot show |
| SamplyText.BuildSymbolicator | scripts/samply_to_text.py:31-62 | a resolver for exactly the libraries with an entry, the last entry of an id winning |
| SamplyText.EntryForIsLast | scripts/samply_to_text.py:45 | the entry of a code id is the last one with it |
| SamplyText.KnownIsLastPair | scripts/samply_to_text.py:42-55 | the last pair of an address names it, "0x?" when its index is outside the table |
| SamplyText.ResolverHoldsRows | scripts/samply_to_text.py:56-59 | the ranges are those of the symbol rows, each from start to start plus size |
| SamplyText.RangeLeIsTupleOrder | scripts/samply_to_text.py:56-59 | tuples compare by start, then end, then name |
| SamplyText.ResolverStartsAscend | scripts/samply_to_text.py:56-60 | tuple sorting leaves the starts ascending, as bisection needs |
| SamplyText.BisectAgreesWithScan | scripts/samply_to_text.py:88-99 | when ranges do not overlap the bisecting lookup gives the known name first, else the name of the one range holding the address, else nothing |
| SamplyText.FrameNameIsFound | scripts/samply_to_text.py:65-99 | a frame gets the known name of its address, else the name of whichever range of its library holds it, else the profile's own name, which it also keeps without address, library or resolver |
| SamplyText.NoResolversNoLookup | scripts/samply_to_text.py:75-76 | without a sidecar every frame keeps the profile's own name |
| SamplyText.AtMostOneCovers | scripts/samply_to_text.py:95-97 | there is at most one such range |
| SamplyText.FrameCache.StackFrames | scripts/samply_to_text.py:102-113 | whatever is cached already, the names are those of the chain of prefixes from a stack without one up to the stack itself, in this order, and no cached path changes |
| SamplyText.PathFollowsChain | scripts/samply_to_text.py:107-111 | the plain recursion lists that chain, root first |
| SamplyText.ChainIsUnique | scripts/samply_to_text.py:107-111 | a stack has only one such chain |
| SamplyText.LeafIsOwnFrame | scripts/samply_to_text.py:127 | the last name is that of the stack's own frame |
| SamplyText.CollapseThread | scripts/samply_to_text.py:116-128 | the self-time of a name is the number of samples whose own frame resolves to it, a folded count the number of samples whose root-to-leaf names join to the text; each counter adds up to the number of samples that are not null; each self-time is the sum of the folded counts ending in its name iff no sampled leaf has a `;` |
| SamplyText.TotalsAreSampleCounts | scripts/samply_to_text.py:116-128 | folded and self-time totals both equal the number of those samples |
| SamplyText.SelfTimeMatchesIffNoSemicolon | scripts/samply_to_text.py:126-127 | every self-time count is the sum of the folded counts ending in that name iff no sampled leaf has a `;` |

## Left out

- Connections, queries and library calls: TDS, SQLite, vector search, embeddings, zstd, HTTP, OTLP, logging, keychain and AES. Payloads, handles, bound values and clock readings are abstract values; `json_to_param` is the parameter `bind` of `BuildStatement`.
- The command line, setup wizard, prompts, configuration layering, authentication, sanitizer, component registry, shutdown order and `severity_category`: plumbing, or true by reading.
- `chrono` is not part of this model beyond the format items the source names: white space between items, a 60th second, a space between date and time in RFC 3339 and the years `chrono` cannot represent are not modelled; years here are unbounded.
- BreakerRefinesHistory: stated for histories in which no run of 2^32 failures occurs; `RefinesIffCounterFits` says when that bound is needed. A debug build stops at the overflow instead of wrapping.
- TrialDecidesIffAlone: a call that was dropped while it ran never completes, but nothing in the breaker says so, and it counts as in flight here.
- Clock readings are natural numbers and additions to them do not overflow; the `AtomicU64` of temp names does not wrap.
- PublicationIsSafe: live processes have distinct ids, as on one machine. Containers with ids of their own that share a temp directory are not covered.
- ParseIsExact: speaks of plain decimals only; repeated signs and the exponents of JSON numbers go through the same function but denote nothing here, and the default scale of `money` is not modelled. The scale is any natural number here; the library's constructor, which is not part of this model, may refuse a scale larger than SQL Server's 38 digits need.
- A scalar text cell, binary, XML and the non-temporal arms of `column_data_to_json` are library conversions.
- JSON numbers are integers; the description text of `execution_database` is shortened to the list of databases it ends with; lower-casing is ASCII.
- BuildRegistry: the dictionaries that group parameter and result rows by object are modelled by the selection they hold, and `load_json_dump` and `load_fmtonly_dump` by their results.
- EmitPaths: models which operation each path holds, not the YAML document; operation ids and schema keys are joined with `_`, so their uniqueness is not claimed.
- BuildSymbolicator: the dictionary comprehensions for entries and known addresses are functions; reading the profile and its sidecar is left out.
- Adding up the threads' counters and printing them in `main` of `samply_to_text.py`: sums and a sort over what is proved here.
- SelfTimeMatchesIffNoSemicolon: is about one thread's counters; stack links that do not go strictly downward are outside `WellFormed`, as the recursion need not end on them.
