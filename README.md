# Wikipedia page-view analytics: ETL transformation and API core in Dafny

This project models the core of a Wikipedia page-view analytics system and proves properties of that model. The system has two parts:

- a Python ETL step, `transform_data`. It aggregates the raw per-title, per-day view counts of one extraction into one row per page. A page is identified by language, normalised title and day. Each row also carries:
  - a keyword category;
  - the first original title;
  - 7- and 28-row rolling means;
  - a day-over-day variation;
  - a 28-row z-score called `trend_score`.
- a NestJS API in front of the database:
  - `PageService.getTopPages`, which clamps the request, counts and then fetches a ranked slice;
  - `PaginationService.buildResponse`, the response envelope;
  - `EtlControlService`, which starts ETL jobs, looks them up and, once a minute, completes the oldest running one in simulation;
  - the request rules of `GetTopPagesDto`, `GetPageSeriesDto` and `PageParamsDto`, as `ValidationPipe({ transform: true })` applies them.

Modules, one per source component:

| file | module | models |
|---|---|---|
| `wrappers.dfy` | `Wrappers` | `Option` and `Result` |
| `text.dfy` | `Text` | Python's `str.lower` on Latin-1; the Python and JavaScript white-space classes; substring search; decimal digits |
| `classify.dfy` | `Classification` | `classify_page` |
| `normalize.dfy` | `TitleNormalization` | `normalize_string` and the `title_normalized` chain |
| `slug_words.dfy` | `SlugWords` | the slug of lines 49 to 53 read as words joined by '_', and the proof that the chain computes it |
| `rolling.dfy` | `RollingMetrics` | rolling means, variation and `trend_score` over one page's views |
| `transform.dfy` | `Transformation` | `transform_data`: both group-bys, both sorts, category, original title, metrics |
| `pagination.dfy` | `Pagination` | `buildResponse` |
| `page_service.dfy` | `PageService` | `getTopPages` with `parseInt(...) \|\| 0` over an abstract store |
| `etl_control.dfy` | `EtlControl` | the `etl_jobs` table as a class with `startEtlJob`, `getJobStatus` and `simulateJobCompletion` |
| `validation.dfy` | `Validation` | `Number(...)` conversion and the class-validator rules of the three DTOs |

How the model represents the source:

- **Group-bys.** Each group-by of `transform_data` is a left fold of a sorted upsert over the frame's rows. A row whose key is already present adds its views and keeps the earlier row's original title; this is pandas' `first`. The fold's result is in (language, name, day) order, which is the order the following `sort_values` gives.
- **Metrics.** They are computed per page, over that page's views in day order, with rows counted the way pandas counts them.
- **`trend_score`.** It is the pair `TrendScore(sign, square)`: the exact sign of the score and the exact value of its square. The square root is never taken.
- **Job table.** `JobTable` holds a `map` from job id to job. Its methods change it in place. Ids are stored in the canonical text PostgreSQL gives a `uuid`. A requested id is read the way PostgreSQL reads `uuid` input (see the PostgreSQL documentation of the uuid type) and looked up by its value.
- **Parameters.** The clock, the random draw, the database-generated id and the ISO-8601 date check are parameters.
- **Store.** The database behind `getTopPages` is a `Store`. For each (date, language) slot it holds the count cell as the driver returns it and the rows of the ranking view in rank order.

Where the code and the design description of the system disagree, the model follows the code:

- `buildResponse` answers page 1 for offset 0, also when total is 0. It never answers page 0.
- The windows of the rolling means and of the z-score count rows of the page, not calendar days.
- `variations` is a percentage, not a fraction.
- A variation after a missing or zero previous row is 0, not undefined. So is a z-score over a one-row or constant window.
- `getTopPages` does not check the limit. A negative limit reaches the database, which refuses it.
- The controller documents a 400 for a malformed job id (api/src/etl/etl-control.controller.ts:36). The service passes any id to `findOne`. PostgreSQL then refuses an id that is not a `uuid`, and that error is not a 400. The model returns a distinct `InvalidUuidSyntax` error for it, not `NotFound`.

## Model

| member | source | states |
|---|---|---|
| `Text.LowerMapping` | etl/transformation_etl.py:10 | `str.lower` below U+0100: A-Z and U+00C0..U+00DE except U+00D7 move up by 0x20 (so A-Z become a-z), every other character below U+0100 is unchanged |
| `Text.LowerIdempotent` | etl/transformation_etl.py:10 | below U+0100, lower-casing leaves no capital, so doing it twice is doing it once |
| `Text.LowerString` | etl/transformation_etl.py:17 | lower-casing keeps the length and lower-cases each character in place |
| `Text.ContainsIff` | etl/transformation_etl.py:19-25 | the keyword scan finds a word exactly when the word occurs somewhere in the text, as `re.search` does for a literal |
| `Text.DigitRun` | api/src/page/page.service.ts:34 | the digit prefix `parseInt` reads: every character before it is a digit, and the character after it is not |
| `Text.SkipSpaces` | api/src/page/page.service.ts:34 | the leading white space `parseInt` skips: the result is a suffix of the input, does not start with white space, and every character skipped is white space |
| `Classification.ClassifyIsFirstMatchingGroup` | etl/transformation_etl.py:16-28 | the category is the first group, in the order Cine_TV, Tecnologia, Ciencia, Deportes, with a keyword in the lower-cased title; General exactly when no group has one |
| `Classification.ClassifyPythonProg` | tests/etl/test_transformations.py:56-59 | 'Python_Prog' is Tecnologia |
| `Classification.ClassifyCancion` | tests/etl/test_transformations.py:60-61 | 'Mi-Canción_favorita' is General |
| `Classification.ClassifySpain` | etl/transformation_etl.py:21 | keywords match as substrings: 'Spain' holds 'ai' and is Tecnologia |
| `SlugWords.SlugIsWords` | etl/transformation_etl.py:49-53 | the slug is the words of the title, split at white space after `_`, `-` and `.` became spaces, each stripped to `[a-z0-9]`, the empty ones dropped, joined by single '_' |
| `TitleNormalization.SlugIsTrimmed` | etl/transformation_etl.py:49-53 | the replace/strip steps give an underscored slug with no '_' at either end; it keeps every `[a-z0-9]` character in order and is empty exactly when there is none |
| `TitleNormalization.NormalizeTitleIsSlug` | etl/transformation_etl.py:48-55 | `title_normalized` has 1 to 250 characters from `[a-z0-9_]`, no leading '_' and no "__"; it can end with '_' only when it was cut at 250 |
| `TitleNormalization.NormalizeTitleLetters` | etl/transformation_etl.py:48-55 | the 'unknown_page' fallback fires exactly when the accent-free title has no `[a-z0-9]` character; otherwise the slug keeps those characters in order, all of them when nothing is cut |
| `TitleNormalization.NormalizeTitleOfTrimmed` | etl/transformation_etl.py:48-55 | a slug of 1 to 250 characters without a '_' at either end is its own `title_normalized` |
| `TitleNormalization.NormalizeTitleIdempotent` | etl/transformation_etl.py:48-55 | normalising a `title_normalized` that does not end with '_' gives it back |
| `TitleNormalization.TrailingUnderscoreIsNotFixed` | etl/transformation_etl.py:52-55 | a slug that ends with '_' is not its own `title_normalized` |
| `TitleNormalization.CutSlugIsNotFixed` | etl/transformation_etl.py:55 | 249 'a's followed by "_b" normalise to a 250-character slug ending in '_', and normalising that slug again changes it |
| `TitleNormalization.NormalizeTitleOfSingleSeparated` | etl/transformation_etl.py:48-55 | a title whose accent-free lower-case form is slug characters joined by single `_`, `-` or `.` becomes that form with each separator turned into '_' |
| `TitleNormalization.NormalizeStringOfUnderscored` | etl/transformation_etl.py:6-14 | `normalize_string` leaves `[a-z0-9_]` text unchanged |
| `TitleNormalization.NormalizePythonProg` | tests/etl/test_transformations.py:49-52 | 'Python_Prog' becomes 'python_prog' |
| `TitleNormalization.NormalizeCancion` | tests/etl/test_transformations.py:49-53 | 'Mi-Canción_favorita' becomes 'mi_cancion_favorita' |
| `RollingMetrics.Window` | etl/transformation_etl.py:67-74 | the rows `rolling(window=n, min_periods=1)` covers at row k: the last min(k+1, n) rows, ending at row k |
| `RollingMetrics.RollingMeanBounds` | etl/transformation_etl.py:67-74 | each rolling mean lies between the least and the greatest views of its window |
| `RollingMetrics.FirstRowMean` | etl/transformation_etl.py:67-74 | on a page's first row both rolling means equal its views |
| `RollingMetrics.VariationRecoversViews` | etl/transformation_etl.py:77-81 | applying the variation, as a percentage, to the previous views gives the current views |
| `RollingMetrics.VariationSign` | etl/transformation_etl.py:77-81 | after positive views, the variation is positive exactly when views grew and 0 exactly when they stayed the same |
| `RollingMetrics.VarianceIsSampleVariance` | etl/transformation_etl.py:84-86 | the variance used is the sample variance (ddof 1): the squared deviations from the window's mean, summed and divided by the window size minus 1 |
| `RollingMetrics.VarianceZeroIffConstant` | etl/transformation_etl.py:84-86 | the sample variance (ddof 1) of a window is 0 exactly when the window is constant |
| `RollingMetrics.TrendOfConstant` | etl/transformation_etl.py:89-99 | the score is 0 on a page's first row and on a constant 28-row window |
| `RollingMetrics.TrendOfVarying` | etl/transformation_etl.py:89-99 | otherwise the score's sign is the sign of views minus the 28-row mean, and its square is (views − mean)² over the sample variance |
| `RollingMetrics.TrendZeroIff` | etl/transformation_etl.py:89-99 | the score is 0 exactly on a first row, on a constant window, or when the views equal the mean |
| `RollingMetrics.ConstantViewsHaveNoTrend` | tests/etl/test_transformations.py:75-84 | constant views give every row the score 0 |
| `RollingMetrics.ShortMeansExample` | tests/etl/test_transformations.py:69-73 | views 100, 150, 110, 220 have 7-row means 100, 125, 120, 145 |
| `RollingMetrics.VariationsExample` | tests/etl/test_transformations.py:63-67 | the same views have variations 0, 50, −80/3 and 100 |
| `RollingMetrics.SpikeExample` | tests/etl/test_transformations.py:86-97 | views 100, 100, 500 give the last row a positive score whose square is 4/3 (about 1.1547²) |
| `Transformation.KeyLessTotal` | etl/transformation_etl.py:42 | the sort order on (language, title, day) is total: two different keys are ordered one way round |
| `Transformation.AggregateSortedKeys` | etl/transformation_etl.py:37-42 | a group-by followed by the sort gives rows in strict key order, one per distinct key of the input |
| `Transformation.AggregateViews` | etl/transformation_etl.py:37-39 | the group-by keeps the views of every set of keys: its sum over the keys of a selector equals the input's |
| `Transformation.AggregateFirst` | etl/transformation_etl.py:57-61 | the group-by's original title of a key is the first one the input rows carry for it (pandas `first`) |
| `Transformation.ByPageKeys` | etl/transformation_etl.py:57-64 | the grouped pages are sorted by (language, title_normalized, day), one row each, and are exactly the pages of the raw rows |
| `Transformation.ByPageViews` | etl/transformation_etl.py:37-61 | a page-day's views are the sum of the views of all raw rows whose normalised title, language and day are the page-day's |
| `Transformation.ByPageOriginal` | etl/transformation_etl.py:42-61 | a page-day's original title is the least title, in Python string order, among the raw rows on that page-day |
| `Transformation.TransformPages` | etl/transformation_etl.py:31-64 | the output is empty exactly when the input is; it is strictly ordered by (language, title_normalized, day) and holds exactly the input's page-days |
| `Transformation.TransformRow` | etl/transformation_etl.py:37-61 | each output row: views summed over its raw rows; original title the least raw title on it, which normalises to `title_normalized`; category that title's |
| `Transformation.TransformMetrics` | etl/transformation_etl.py:66-99 | each row's means, variation and score are computed on the views of its page's run of output rows up to it |
| `Transformation.TransformFirstDay` | etl/transformation_etl.py:66-99 | on a page's first row both means are its views, and the variation and the score are 0 |
| `Transformation.TransformNextDay` | etl/transformation_etl.py:64-81 | a page's next row is a later day, and its variation is the percentage change from the previous row (0 after 0 views) |
| `Transformation.TransformCount` | tests/etl/test_transformations.py:49-54 | there is one output row per distinct (language, title_normalized, day) of the input |
| `Transformation.TransformTotal` | etl/transformation_etl.py:37-61 | the output holds as many views in all as the input |
| `Pagination.PageOf` | api/src/pagination/pagination.service.ts:20 | for a nonzero offset the page is ⌊offset / limit⌋ + 1, bracketed by the real quotient; a zero limit gives ±Infinity |
| `Pagination.BuildResponse` | api/src/pagination/pagination.service.ts:13-30 | items, total and params pass through unchanged; page_size is the limit; offset 0 is page 1 |
| `Pagination.PageFormula` | api/src/pagination/pagination.service.ts:20 | for limit ≥ 1 and offset ≥ 0 the page is offset div limit + 1, offset 0 included |
| `Pagination.PageBounds` | api/src/pagination/pagination.service.ts:20 | the page is at least 1 and holds the offset: (page − 1)·limit ≤ offset < page·limit |
| `PageService.ParseDecimal` | api/src/page/page.service.ts:34 | `parseInt` reads the decimal digits of n back as n, whatever non-digit text follows |
| `PageService.CountOfDecimal` | api/src/page/page.service.ts:34 | a count cell holding the digits of n counts n |
| `PageService.CountWithoutDigits` | api/src/page/page.service.ts:34 | a missing count cell, or one without digits, counts 0 (`\|\| 0`) |
| `PageService.Page` | api/src/page/page.service.ts:40-55 | LIMIT/OFFSET over the ranked rows: min(limit, rows − offset) rows, not fewer than 0, taken in rank order from the offset |
| `PageService.GetTopPages` | api/src/page/page.service.ts:13-57 | one or two queries are issued, the count query first |
| `PageService.Clamped` | api/src/page/page.service.ts:16-23 | the echoed params carry the request's date and language, the limit capped at 200 and the offset raised to 0; page_size is that limit |
| `PageService.NoCountOneRead` | api/src/page/page.service.ts:33-38 | exactly one query is issued when the count is 0, and then the answer has no items and total 0 |
| `PageService.CountTwoReads` | api/src/page/page.service.ts:40-56 | with a nonzero count, the second query asks for the clamped slice; a negative limit is refused; otherwise the answer is `buildResponse` of the LIMIT/OFFSET slice of the ranked rows, the count, the clamped limit and offset, and the echoed params |
| `PageService.TopPagesSlice` | api/src/page/page.service.ts:40-56 | with a nonzero count the answer holds min(limit, rows − offset) rows, not fewer than 0, the ranked rows from the offset on, the count as total and the clamped limit as page_size |
| `PageService.TopPagesPageNumber` | api/src/page/page.service.ts:40-56 | with a nonzero count and a limit of at least 1, the answer's page is offset div limit + 1 |
| `PageService.LargeLimit` | tests/api/page.service.spec.ts:84-94 | a request for 500 rows asks the database for 200 |
| `PageService.FiftyExample` | tests/api/page.service.spec.ts:63-72 | count '50' and one ranked row: two queries, that row, total 50 |
| `PageService.ZeroExample` | tests/api/page.service.spec.ts:74-82 | count '0': one query, no items, total 0 |
| `EtlControl.NewJob` | api/src/etl/etl-control.service.ts:15-29 | a started job is a running daily ingest of the date, requested and started now, with no finish, worker, row count or error |
| `EtlControl.SimulatedRows` | api/src/etl/etl-control.service.ts:52 | the simulated row count lies in [50000, 150000] |
| `EtlControl.Completed` | api/src/etl/etl-control.service.ts:50-53 | completion sets status COMPLETADO, finished_at, rows_processed and worker 'simulador-local', and nothing else |
| `EtlControl.OldestExists` | api/src/etl/etl-control.service.ts:44-47 | an oldest running job (started_at ascending, NULLs last) exists exactly when some job is running |
| `EtlControl.StartAddsOneRunning` | api/src/etl/etl-control.service.ts:15-29 | starting a job adds exactly one running job |
| `EtlControl.CompleteRemovesOneRunning` | api/src/etl/etl-control.service.ts:49-56 | completing a running job leaves exactly one running job fewer |
| `EtlControl.CompleteStatuses` | api/src/etl/entities/etl-job.entity.ts:14-16 | a completion only moves one job from EN_CURSO to COMPLETADO; every other status stays |
| `EtlControl.UuidRoundTrip` | api/src/etl/entities/etl-job.entity.ts:7 | the canonical text of a uuid is read back as the same 16 bytes, so a stored id is found by its own text |
| `EtlControl.BracedUuid` | api/src/etl/entities/etl-job.entity.ts:7 | the canonical text in braces is read as the same uuid |
| `EtlControl.ShortIdIsInvalid` | api/src/etl/etl-control.service.ts:31-32 | an id such as 'abc' is not uuid input |
| `EtlControl.JobTable.StartEtlJob` | api/src/etl/etl-control.service.ts:15-29 | inserts `NewJob` under the canonical text of the fresh uuid and returns it; every other job stays |
| `EtlControl.JobTable.GetJobStatus` | api/src/etl/etl-control.service.ts:31-39 | an id that is not uuid input is refused as such; otherwise the job stored under that uuid is returned (any case, with or without braces), or the not-found message with the id as given |
| `EtlControl.JobTable.SimulateJobCompletion` | api/src/etl/etl-control.service.ts:41-57 | does nothing exactly when no job is running; otherwise completes one oldest running job and leaves every other job as it was |
| `Validation.DigitsNumber` | api/src/page/dto/get-top-pages.dto.ts:16 | `Number` of a run of decimal digits is its value |
| `Validation.NoDigitsIsNaN` | api/src/page/dto/get-top-pages.dto.ts:16 | `Number` of text without digits is NaN, unless it is blank or Infinity |
| `Validation.Converted` | api/src/page/dto/get-top-pages.dto.ts:16 | conversion leaves an absent field absent and converts a given one |
| `Validation.TopPagesAccepted` | api/src/page/dto/get-top-pages.dto.ts:4-25 | accepted exactly when date is nonempty and ISO, lang is en or es, limit is absent or an integer in [1, 200], and offset is absent or an integer ≥ 0; the request then carries those values, with 10 and 0 as defaults |
| `Validation.ValidTopPagesExample` | tests/api/page.controller.integration.spec.ts:62-78 | date 2025-10-01, lang es, limit '10', offset '0' pass as 10 and 0 |
| `Validation.MissingDate` | tests/api/page.controller.integration.spec.ts:80-87 | a request without date is rejected for IsNotEmpty on date |
| `Validation.NonNumericLimit` | tests/api/page.controller.integration.spec.ts:89-96 | limit 'invalid' is rejected for IsInt on limit |
| `Validation.PageSeriesAccepted` | api/src/page/dto/get-page-series.dto.ts:3-18 | accepted exactly when lang is en or es and each date has the YYYY-MM-DD shape and passes the ISO check; no rule relates the two dates |
| `Validation.SlashedDate` | api/src/page/dto/get-page-series.dto.ts:11 | '2025/01/01' breaks the shape rule whatever the ISO check says |
| `Validation.MissingDateFrom` | tests/api/page.controller.integration.spec.ts:170-177 | a series request without date_from is rejected |
| `Validation.TitleAccepted` | api/src/page/dto/page-params.dto.ts:3-9 | a title passes exactly when it holds a character that is not white space, and it is passed on unchanged |
| `Validation.TitleExamples` | api/src/page/dto/page-params.dto.ts:4-6 | 'NestJS-Documentation' passes; the empty and a blank title do not |

## Left out

- I/O is left out: the `print` in `transform_data`, the database connection, logging and HTTP status codes. A rejected request is a set of (field, rule) violations. A not-found job is an error carrying the message text.
- The ranking materialised view, `getTrendingPages` and `getPageSeries` are not part of this model. The store hands over the view's rows in rank order.
- Floating point is left out: every mean, variation and quotient is an exact `real`. The z-score's square root is never taken; the score is its sign and its exact square.
- `TitleNormalization.NormalizeString`: lower-casing and accent stripping are exact only below U+0100 (ASCII and Latin-1). Other characters are kept as they are. The step that deletes everything outside `[a-z0-9\s]` then drops them. Under NFD, Python decomposes most Latin Extended letters at U+0100 and above (Ā, č, Š, ş, ű …) into an ASCII letter and a combining mark. So the source keeps that letter, and the model deletes the whole character.
- `Classification.Classify` has the same limit below U+0100. A non-Latin-1 character whose Python lower case is an ASCII letter is not mapped to that letter. The Kelvin sign is one such character.
- The `pd.isna` branch of `normalize_string` is left out: titles are strings, never NaN.
- The day is a day number, not a timestamp.
- `Transformation.TransformCount` covers the eight-row count of the test fixture in general form. It is not proved as an instance on the fixture's rows.
- The category comes from the first original title of each page-day. This agrees with `first` of the category column, since each category is computed from that row's title.
- `Validation.ToNumber` reads decimal literals as exact reals. It does not round them to the nearest double. So a literal that only rounds to an integer, or overflows to Infinity, is judged on its exact value.
- The ISO 8601 check of `IsDateString` is a parameter, `isoDate`. Its internals are not modelled.
- Repeated query parameters (arrays) and the rule messages are not modelled.
- `EtlControl.JobTable.StartEtlJob`: the uuid comes from the database's `gen_random_uuid()` and is a parameter (16 bytes). The model requires it to be fresh.
- `EtlControl.ParseUuid` reads PostgreSQL's uuid input syntax. PostgreSQL's own error text is not modelled.
- `new Date()` and `Math.random()` are parameters (`now` and `random`). The `lang` of `startEtlJob` is accepted and not stored, as in the source.
- The once-a-minute schedule is left out. Each call of `SimulateJobCompletion` is one tick.
- The tick's find and save happen in one step. Concurrent ticks and requests are not modelled.
- `PageService.GetTopPages`: PostgreSQL refuses a negative LIMIT, and the model returns an error for it. The error's text is the model's own, not the database's.
