# Blossom Buddy plant core, in Dafny

This is a model of the core of the Blossom Buddy Laravel back end, with proofs about it. The core has four parts:

- **Catalogue synchronisation** (`PlantService`). It runs under a daily request quota and walks the Perenual species ids one by one from a persisted watermark, called the cursor. Each response that carries a record is upserted into the `plants` table, keyed by `api_id`. Each attempt is counted as a success or a failure, and every attempt but one that trips the stop rule also counts as a request and moves the cursor. If the ten ids before a miss are all absent locally, the run stops early.
- **The cursor row** (`ApiSyncTracking::getTodaysTracking`). There is one row per (api name, day). A new day's row gets zeroed counters and the watermark of the latest earlier day.
- **The weather service** (`WeatherService`):
  - how many forecast days a watering benchmark asks for (`"7"`, `"6-12"`, quoted values, the unit check, the cap);
  - the per-date average humidity of a forecast;
  - the forecast lookup through a key-addressed cache.
- **The plant endpoints with logic** (`PlantController::show`, `update`, `destroy`):
  - `show` and `update` find the first plant by a substring of its name;
  - `update` merges only the fields the request supplies;
  - `destroy` deletes by id.

Modules follow the program:

| file | module | contents |
|---|---|---|
| `Wrappers.dfy` | `Wrappers` | `Option`, `Result` |
| `Php.dfy` | `Php` | the PHP built-ins the core relies on: `min`, `max`, `strtolower`, `trim`, `explode`, `intval`, integer interpolation |
| `Http.dfy` | `Http` | `successful()` of Laravel's HTTP client |
| `Plants.dfy` | `Plants` | the `plants` table, its queries, the keyed upsert and the `PlantTable` class |
| `ApiSyncTracking.dfy` | `ApiSyncTracking` | the cursor table, `firstOrCreate`, the watermark seed and the `TrackingTable` class |
| `PlantSync.dfy` | `PlantSync` | `PlantService`, plus a value-level specification of one attempt (`FetchStore`, `AfterFetch`, `Step`) and of a run (`Iterate`) |
| `Weather.dfy` | `Weather` | `WeatherService`, the day-count parser, the humidity fold and the cache key |
| `Controllers.dfy` | `Controllers` | `PlantController` |

State the source changes in place is held in classes, updated by methods with `modifies` clauses:

- `PlantTable`, `TrackingTable`, `PlantService` and `WeatherService` (whose cache is a field);
- `PlantController`, over a `PlantTable`.

The synchronisation loop is an imperative `while` loop. Its invariant ties the service's state after `i` iterations to `Iterate(start, fetch, i)`. The facts a run promises are lemmas about `Iterate`:

- the quota is respected;
- processed = created + updated;
- the success and failure counters follow the statistics;
- after a stop, further steps change nothing.

Inputs from outside the program are parameters:

- the Perenual HTTP call is an oracle `fetch: int -> Response`;
- the WeatherAPI call is an oracle `fetch: (string, int) -> WeatherResponse`;
- "today" is an integer day number.

## Model

| member | source | states |
|---|---|---|
| Php.IntVal | app/Services/WeatherService.php:137-140 | Without a `-` in the string, `intval` is never negative. |
| Php.IntValOfPrefix | app/Services/WeatherService.php:137-140 | `intval` of blanks, an optional `+` or `-`, a run of digits and then anything that does not continue the number (no digit, `.`, `e` or `E`) is the signed value of the digits. |
| Php.Min | app/Services/WeatherService.php:29 | `min` gives the smaller of its two arguments. |
| Php.Max | app/Services/PlantService.php:192 | `max` gives the larger of its two arguments. |
| Php.Trim | app/Services/WeatherService.php:131 | `trim` gives the middle of the input: it starts after the leading run of trimmed characters, everything after it is a trimmed character, and it neither starts nor ends with one. |
| Php.Explode | app/Services/WeatherService.php:136 | `explode` gives at least one piece, no piece holds the separator, and the pieces joined by the separator give the input back. When the separator occurs there are at least two pieces, so `$range[1]` exists. |
| Php.IndexOf | app/Services/WeatherService.php:134 | `strpos` finds the separator exactly when it occurs, and at its first occurrence. |
| Php.ToLower | app/Services/WeatherService.php:122 | `strtolower` keeps the length and lowers exactly the ASCII capitals. |
| Php.IntToStringRoundTrip | app/Services/WeatherService.php:32 | The decimal rendering of an integer in the cache key reads back to that integer. |
| Plants.IndexOfApiId | app/Services/PlantService.php:145-148 | The lookup of `updateOrCreate` finds a row exactly when one has the key, and the first such row in table order. |
| Plants.IndexOfId | app/Http/Controllers/PlantController.php:259 | `findOrFail($id)` fails exactly when no row has the id; otherwise the row it finds has it. |
| Plants.ContainsOccurs | app/Http/Controllers/PlantController.php:131 | `Contains`, the `LIKE '%name%'` test, holds exactly when the string occurs in the name at some position. |
| Plants.FirstNameMatch | app/Http/Controllers/PlantController.php:131 | `firstOrFail` on `LIKE '%name%'` gives the first row in table order whose name contains the string, and fails exactly when none does. |
| Plants.UpsertByApiId | app/Services/PlantService.php:145-151 | `updateOrCreate` creates exactly when the key is absent (`wasRecentlyCreated`). Only then do the table and the next id grow by one, and the new row holds the next id and the payload. |
| Plants.UpsertStores | app/Services/PlantService.php:145-148 | After the upsert, the key leads to a row carrying the payload. Rows with other keys are untouched, and every existing row keeps its local id. |
| Plants.UpsertPresence | app/Services/PlantService.php:176 | After an upsert, `HasApiId`, the `exists()` query, holds exactly for the stored key and the keys present before, so the stop scan sees every stored record. |
| Plants.UpsertKeepsValid | app/Services/PlantService.php:145-148 | The upsert keeps local ids unique and below the next id, and upstream keys unique. |
| Plants.SameKeysKeepValid | app/Http/Controllers/PlantController.php:224 | Saving a row with new non-key columns keeps the table invariant. |
| Plants.DeleteKeepsValid | app/Http/Controllers/PlantController.php:264 | Deleting a row keeps the table invariant. |
| Plants.UpsertTwice | app/Services/PlantService.php:145-148 | A second store of the same key updates rather than creates, and the latest payload wins. |
| Plants.UpsertIdempotent | app/Services/PlantService.php:145-148 | Storing the same payload again changes nothing and reports "updated". |
| Plants.PlantTable.UpdateOrCreate | app/Services/PlantService.php:145-151 | The in-place upsert leaves the table `UpsertByApiId` gives, with the same created flag, and keeps the table invariant. |
| Plants.PlantTable.Save | app/Http/Controllers/PlantController.php:224 | `save()` of a fetched row replaces that row only and keeps the invariant. |
| Plants.PlantTable.DeleteAt | app/Http/Controllers/PlantController.php:264 | `delete()` removes that row only, the others keep their order, and the invariant holds. |
| ApiSyncTracking.FindRow | app/Models/ApiSyncTracking.php:31-34 | The `(api_name, last_sync_date)` lookup finds a row exactly when one has the key, and the first such row. |
| ApiSyncTracking.LatestEarlier | app/Models/ApiSyncTracking.php:45-48 | The query gives no row exactly when no row of that api is dated before today. Otherwise it gives such a row with the greatest date. |
| ApiSyncTracking.GetLastProcessedId | app/Models/ApiSyncTracking.php:43-51 | The seed is 0 when there is no earlier row. Otherwise it is the watermark of an earlier row whose date no earlier row exceeds. |
| ApiSyncTracking.SeedIsLatestEarlierRow | app/Models/ApiSyncTracking.php:45-50 | Under the unique index, the seed is the watermark of the one latest earlier row. |
| ApiSyncTracking.Relevant | app/Models/ApiSyncTracking.php:45-46 | The two `where` clauses keep exactly the rows of that api dated before today. |
| ApiSyncTracking.SeedIgnoresIrrelevantRows | app/Models/ApiSyncTracking.php:45-48 | Rows of other apis, and rows dated today or later, never change the seed. |
| ApiSyncTracking.FirstOrCreate | app/Models/ApiSyncTracking.php:29-41 | Today's row is returned when it exists, and the table is unchanged. Otherwise a row with zeroed counters and the seeded watermark is appended. Either way the result is the table's row for today, and the unique index is kept. |
| ApiSyncTracking.FirstOrCreateIdempotent | app/Models/ApiSyncTracking.php:29-41 | A second call on the same day returns the same row and creates nothing. |
| ApiSyncTracking.FirstOrCreateKeepsRows | app/Models/ApiSyncTracking.php:29-41 | Existing rows, those of earlier days included, are never modified. |
| ApiSyncTracking.TrackingTable.GetTodaysTracking | app/Models/ApiSyncTracking.php:29-41 | The table becomes `FirstOrCreate`'s table, the method returns its row, and the unique index holds. |
| ApiSyncTracking.TrackingTable.Save | app/Services/PlantService.php:78 | `save()` overwrites the row with the same key and nothing else. |
| PlantSync.FormatWateringBenchmark | app/Services/PlantService.php:156-167 | The stored benchmark always has a value and a unit. It is the payload's own when both are set, otherwise the watering period (default "7") in days. |
| PlantSync.PlantDataOf | app/Services/PlantService.php:131-143 | The columns written are the payload's `id` as `api_id`, its name or "Unknown", the formatted benchmark and the descriptive columns. |
| PlantSync.FetchStore | app/Services/PlantService.php:103-127 | An exception is an error. Any non-2xx status (`Successful` is `successful()`, a status from 200 to 299), an empty body or a body without `id` gives null and leaves the table alone. A storable body is upserted by its `id`. |
| PlantSync.Advance | app/Services/PlantService.php:75-77 | The watermark moves to the candidate, today's and the total request counts rise by one, and nothing else changes. |
| PlantSync.AfterFetch | app/Services/PlantService.php:59-90 | The accounting of one fetch: the run stops exactly when the fetch gave null and the stop rule holds. Then the cursor and the saved row stay where they were; otherwise the cursor moves to the candidate and is saved. A stored record adds one to processed, to exactly one of created or updated (by its flag) and to `successful_requests`. Null and an exception add one to errors and to `failed_requests`. No other counter moves. |
| PlantSync.Step | app/Services/PlantService.php:54-90 | A stopped run stays as it is. Otherwise an iteration moves the cursor by one, unless it is the one that stops the run. |
| PlantSync.Iterate | app/Services/PlantService.php:53-91 | A stopped run stays as it is, and a run of n iterations that did not stop has moved the cursor by exactly n. |
| PlantSync.FetchStoreKeepsValid | app/Services/PlantService.php:103-127 | Storing a response keeps the plants-table invariant. |
| PlantSync.StepKeepsValid | app/Services/PlantService.php:53-91 | One iteration keeps the plants-table invariant. |
| PlantSync.RunAccounting | app/Services/PlantService.php:53-91 | After n iterations: the watermark moves by at most n, and by exactly n unless the run stopped. Today's and the total request counts rise as much as the watermark. processed = created + updated. `successful_requests` rises with processed and `failed_requests` with errors. A stop leaves the saved row one failure behind the in-memory one. |
| PlantSync.StepKeepsAccounted | app/Services/PlantService.php:56-90 | Every iteration, stopped or not, keeps the run's bookkeeping. |
| PlantSync.StepAccounted | app/Services/PlantService.php:56-90 | One unstopped iteration keeps the run's bookkeeping for every fetch outcome, with one more iteration in the budget. Only a stop leaves the cursor where it was. |
| PlantSync.IterateNext | app/Services/PlantService.php:53-57 | The next iteration fetches the id after the watermark. |
| PlantSync.StoppedStays | app/Services/PlantService.php:69-72 | After the stop rule fires, nothing further happens (`break`). |
| PlantSync.RunEnds | app/Services/PlantService.php:53-91 | A loop that ran its whole budget, or broke early, ends in the state of the full budget. |
| PlantSync.QuotaRespected | app/Services/PlantService.php:29-40 | Starting under the daily limit with budget `min(maxRequests ?? dailyLimit, remaining)`: the watermark moves by at most that budget, today's count rises by exactly as much and never passes the daily limit, and processed = created + updated. |
| PlantSync.PlantService.constructor | app/Services/PlantService.php:18-24 | The service loads or creates today's "perenual" cursor row, as `FirstOrCreate` says. |
| PlantSync.PlantService.GetStats | app/Services/PlantService.php:186-198 | The remaining requests are `max(0, limit - used)`: zero exactly when the quota is used up, and otherwise they add up with the used count to the limit. The other fields project the cursor, and the plant count is the table's size. |
| PlantSync.PlantService.StorePlant | app/Services/PlantService.php:129-154 | `storePlant` upserts the payload's columns by its `id` and reports created or updated. |
| PlantSync.PlantService.FetchAndStorePlant | app/Services/PlantService.php:103-127 | The outcome and the new table are those `FetchStore` gives for the oracle's response. |
| PlantSync.PlantService.ShouldStopOnConsecutiveErrors | app/Services/PlantService.php:169-184 | The scan with its resetting counter is `StopRule`, its closed form: true exactly when none of the ids `n-10 .. n-1` is stored, so it is always false for `n <= 10`. |
| PlantSync.PlantService.FetchAndStorePlants | app/Services/PlantService.php:26-101 | With the quota used up, it returns the `getStats()` snapshot and changes nothing. Otherwise the cursor, the saved row, the plants table and the returned figures are those of `Iterate` over `min(maxRequests ?? dailyLimit, remaining)` iterations. |
| PlantSync.PlantService.RunIterations | app/Services/PlantService.php:53-91 | The `for` loop with its `break`: after k iterations the state is `Iterate`'s for k, and all iterations ran unless the stop rule fired. |
| PlantSync.PlantService.Attempt | app/Services/PlantService.php:54-90 | One iteration of the loop body is one `Step`. |
| PlantSync.PlantService.Account | app/Services/PlantService.php:59-90 | The counters and the cursor after one fetch follow `AfterFetch`, the stop quirk included. |
| PlantSync.PlantService.AdvanceAndSave | app/Services/PlantService.php:75-78 | The watermark advances, the request counts rise, and only the cursor row is saved. |
| PlantSync.PlantService.ResetProgress | app/Services/PlantService.php:200-210 | The watermark and today's counters are zero and saved. `getStats()` then reports a full quota and changes in no other field. |
| Weather.CountOfZero | app/Services/WeatherService.php:99-109 | `DayAverage` models one day's entry of the fold. No hour is counted exactly when no hour carries a humidity, which is when the day's entry is null. |
| Weather.SumWithin | app/Services/WeatherService.php:99-107 | When every humidity lies in `[lo, hi]`, the running total lies between `lo` and `hi` times the count. |
| Weather.DayAverageWithin | app/Services/WeatherService.php:88-111 | A day with hourly data is null exactly when no hour has a humidity. Otherwise its mean lies within the hours' bounds. |
| Weather.DailyHumidityKeys | app/Services/WeatherService.php:86-113 | `DailyHumidity` models the `$dailyHumidity` fold. The result has one entry per forecast date, and no other. |
| Weather.DailyHumidityLastWins | app/Services/WeatherService.php:88-111 | The entry for a date is the value of the last day with that date. |
| Weather.CacheKeyRoundTrip | app/Services/WeatherService.php:32 | `CacheKey` is the interpolated key. The cache key reads back to the city and the day count it was built from. |
| Weather.CacheKeyInjective | app/Services/WeatherService.php:32-39 | Two lookups share a cache entry only when both city and clamped day count are the same. |
| Weather.ForecastDaysOf | app/Services/WeatherService.php:131-141 | The day count read from a benchmark value is never negative: the piece after a dash holds no dash. |
| Weather.DaysOfClean | app/Services/WeatherService.php:133-141 | The day count read from a value whose quotes are trimmed is never negative. |
| Weather.QuotesTrimmed | app/Services/WeatherService.php:131 | `trim($value, '"')` strips exactly the enclosing double quotes from a value that does not itself start or end with one. |
| Weather.QuotedReadsSame | app/Services/WeatherService.php:131 | A value in double quotes reads as the same value without them. |
| Weather.UndashedReadsWhole | app/Services/WeatherService.php:138-141 | An unquoted value without a dash is read whole by `intval`. |
| Weather.SingleReadsItself | app/Services/WeatherService.php:138-141 | A single count such as `7` reads as that number. |
| Weather.IntValOfDigits | app/Services/WeatherService.php:140 | `intval` of a string of digits is the number it denotes. |
| Weather.DashedTakesSecond | app/Services/WeatherService.php:134-137 | A dashed value reads as the piece after its first dash, trimmed of blanks. |
| Weather.RangeTakesUpperBound | app/Services/WeatherService.php:134-137 | A range `a-b` reads as `b`. |
| Weather.TrailingDashGivesZero | app/Services/WeatherService.php:136-137 | A value such as `5-` reads as 0. `$range[1]` is the empty string, so `?? $range[0]` never applies. |
| Weather.WeatherService.constructor | app/Services/WeatherService.php:18-24 | The service holds the configured maximum and works on the application-wide cache it is given, which may already hold well-formed entries of earlier requests. |
| Weather.WeatherService.DetermineForecastDays | app/Services/WeatherService.php:116-145 | The result never exceeds the maximum, and it is never negative when the maximum is not. A benchmark lacking a value or a unit, or whose lower-cased unit is not "days", gives the maximum. |
| Weather.WeatherService.DetermineRange | app/Services/WeatherService.php:122-144 | A "days" benchmark (any letter case) holding `a-b` asks for `min(b, max)` days. |
| Weather.WeatherService.DetermineSingle | app/Services/WeatherService.php:116-144 | A "days" benchmark (any letter case) holding a single count `a` asks for `min(a, max)` days. |
| Weather.WeatherService.DetermineQuotedRange | app/Services/WeatherService.php:116-144 | A "days" benchmark holding a quoted range `"a-b"` asks for `min(b, max)` days, as the unquoted range does. |
| Weather.WeatherService.CalculateDailyAverageHumidity | app/Services/WeatherService.php:84-114 | The nested loops compute `DailyHumidity`, the per-date fold whose properties the lemmas above state. |
| Weather.WeatherService.GetForecast | app/Services/WeatherService.php:26-82 | The day count is clamped. A cache hit returns the cached forecast without calling the API. A miss calls the API and, depending on the response, either fails or caches and returns the processed forecast. Failures are an exception, a non-2xx status or a body without `forecast.forecastday`, and they cache nothing. The source throws a plain exception for each; the model's error value also carries the status, which the source only logs. The processed forecast carries the request's city, the clamped count and its own daily humidity. |
| Controllers.MergeUpdate | app/Http/Controllers/PlantController.php:206-222 | Keys and other columns never change. The name changes only when supplied. When a benchmark object is supplied, its value and unit each change only when supplied. |
| Controllers.MergeNoFields | app/Http/Controllers/PlantController.php:206-224 | An update naming no field leaves the plant as it was. |
| Controllers.MergeBenchmarkFields | app/Http/Controllers/PlantController.php:210-222 | A supplied value replaces the value and keeps the unit, and a supplied unit does the reverse. |
| Controllers.MergeIdempotent | app/Http/Controllers/PlantController.php:206-222 | Sending the same update twice has the effect of sending it once. |
| Controllers.DeleteRemovesExactly | app/Http/Controllers/PlantController.php:259-264 | Deleting the row found by id in a valid table removes exactly the plant with that id: the rest are the old plants with other ids. |
| Controllers.PlantController.Show | app/Http/Controllers/PlantController.php:129-133 | `show` answers 404 exactly when no name contains the string. Otherwise it answers a plant of the table whose name contains it, with no earlier row matching. |
| Controllers.PlantController.Update | app/Http/Controllers/PlantController.php:191-227 | `update` answers 404 with the table unchanged when nothing matches. Otherwise the first match gets `MergeUpdate` in place and is answered, and every other row is unchanged. |
| Controllers.PlantController.Destroy | app/Http/Controllers/PlantController.php:256-267 | `destroy` answers 404 exactly when no plant has the id, leaving the table unchanged. Otherwise it answers 204 and deletes that row, keeping the others in order. Either way the remaining plants are exactly the old ones with another id. |

## Left out

- HTTP transport, JSON decoding and the API keys and URLs. Both HTTP calls are oracles returning an already-decoded body.
- `sleep(1)` and all logging: neither has observable state.
- Clocks: `Carbon::today()` is an integer day number. `last_synced_at`, `retrieved_at`, `created_at` and `updated_at` are not modelled.
- The cache: Laravel's store is shared by the whole application and outlives each service object, so the constructor takes the current cache as input. Entries written under the same keys by code other than `getForecast` are not modelled: the model requires every entry to be one `getForecast` could have written.
- Cache expiry: the cache duration and the Cache facade's TTL are left out, and the cache is a map without expiry. `if ($cachedData)` is taken as "the key is present", which matches because a cached forecast is a non-empty array.
- Weather.DayAverage: the mean is exact, without `round(…, 1)`, because floating point is not modelled.
- Weather.DailyHumidity: a map, so the insertion order of PHP's array is not kept.
- Hour and day entries missing their `date`, or holding a non-numeric humidity, are not modelled. PHP would raise a warning or coerce the value there.
- Plants.Contains: a plain substring test. The `%` and `_` wildcards inside the search string and the database collation (case folding) are not modelled.
- Request validation in `update` (`sometimes|string|max:255`, the 422 answer) is not modelled. The request is taken as validated, so no supplied field is null: a field is `None` exactly when the request leaves it out.
- Plant mass assignment: `app/Models/Plant.php` lists only `common_name` and `watering_general_benchmark` as fillable. Eloquent could therefore drop `api_id` and the descriptive columns in `updateOrCreate`. The model writes every column that `storePlant` lists, as the code intends. Plant.php is not part of this model.
- Integer width: integers are unbounded, so PHP's 64-bit overflow and `intval`'s saturation on huge numbers are not modelled. Php.IntVal reads a fraction or exponent exactly rather than through a double.
- Concurrency between sync runs: the code gives no atomicity, and runs are not meant to overlap.
- Database and framework failures are not modelled: exceptions raised by `save()`, by `Plant::where(...)->exists()` inside the stop check, or by `storePlant` itself. Only the HTTP call can throw. An exception of the former kinds after the counters were incremented would land in the `catch` and be counted twice; that path is left out.
- `PlantController::index` and `store` pass straight through to the ORM. `PlantUserController` and the `FetchPlants` console command are not part of this model.
- `destroy` takes the integer id, although `routes/api.php` names the segment `{common_name}`. Route binding and type coercion of that segment are not modelled.
- When the stop rule fires (app/Services/PlantService.php:65-78), the loop breaks after counting the failure (`errors` and `failed_requests`) and before advancing the cursor, counting the request or saving. So the saved row lags the in-memory one by that failure (see PlantSync.RunAccounting).
- In `determineForecastDays`, the fallback `$range[1] ?? $range[0]` never applies: once the value holds a dash, `explode` yields at least two pieces. A value ending in a dash therefore reads as 0 days (Weather.TrailingDashGivesZero).
- ShouldStopOnConsecutiveErrors: each `Plant::where('api_id', $i)->exists()` is read as a test on the table value. The queries are not counted.
