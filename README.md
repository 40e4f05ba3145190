# LinkedIn profile finder — the resolution engine and its batch bookkeeping

The LinkedIn profile finder takes people (typed into a form or uploaded as a
list) and, for each one, looks for the LinkedIn profile that belongs to them.
Each lookup asks two candidate providers in turn:

- a structured web-search API (SerpAPI);
- a headless-browser Bing search, used when SerpAPI gives nothing. It is
  retried, a bounded number of times per name, when the browser session
  faults.

A candidate is accepted when the similarity between the person's full name
and the candidate's title passes a cosine threshold OR a fuzzy threshold.
Among the accepted candidates, the first one with the highest effective score
(`max(cosine, fuzzy)`) is kept. Its title is cleaned (boiler-plate phrases
removed, the best `|`-fragment chosen). A background pool of workers runs one
task per person, and a callback collects the rows. A one-second interval timer
shows progress and numbers the rows. Once the batch is over, it prices every
row with an estimated income and builds the final table. The stop button
cancels the queued tasks and leaves the bookkeeping as it is. The restart
button clears the rows, the task count and the pending list, and cancels
nothing.

The model has nine modules, one per file:

| module | file | what it holds |
|---|---|---|
| `Wrappers` | `wrappers.dfy` | `Option` |
| `Text` | `text.dfy` | the Python string operations the engine uses (`lower`, `strip`, `split`, `in`, `replace`) |
| `Records` | `records.dfy` | the person and the result row |
| `Scoring` | `scoring.dfy` | `is_best_match`, the effective score, `extract_best_title`, the university table, the query string |
| `Selection` | `selection.dfy` | the best-candidate fold both providers share |
| `Providers` | `providers.dfy` | the SerpAPI search and the Bing branch, each as a loop proved against a fold |
| `Retry` | `retry.dfy` | the provider chain of `search_person` with its `retry_attempts` counter |
| `Income` | `income.dfy` | `finalize_income_estimates`, in place on an array |
| `Orchestrator` | `orchestrator.dfy` | the worker clamp, the percentage, the numbering, and the `Engine` class holding the module-level state |

The `Engine` class:

- **State.** It holds `completed_results`, `total_tasks`, `scraping_active`,
  the futures, `pending_tasks`, `retry_attempts`, `final_table_ready`,
  `finalized_table_data` and the timer flag.
- **Methods.** Each method is one atomic step of the program:
  - submitting a batch, a worker starting or finishing a task
  - `task_done`, stop, restart
  - the search button, one interval tick
- **The `Accounted()` invariant.** The rows already collected plus the
  submitted futures still unsettled make up exactly `total_tasks`.

Machine learning and I/O are parameters:

- **Similarity models.** The embedding similarity, rapidfuzz's
  `token_set_ratio` and the NER location finder are opaque functions in a
  `Models` value.
- **Provider answers.** What SerpAPI and the browser answered is an input. For
  SerpAPI: the organic results, an `error` reply, or a fault. For the browser:
  the page's entries, or a fault.
- **Environment key.** The environment's SerpAPI key is an argument.
- **Random salary.** The salary drawn by `random.randint` is any value of its
  band.

Some behaviours of the code as written are proved as properties, not corrected:

- **Sentinel rows are priced.** The guard `title == "Not Found"` compares the
  lower-cased title with a capitalised string, so it never holds. The "Not
  Found" and "Error" sentinel rows are therefore priced with the default band.
- **Two dead keywords.** `"account manager"` is shadowed by `"manager"`, and
  `"doctor"` by `"cto"`. A doctor is priced as a chief technology officer.
- **The SerpAPI thresholds are fixed.** The SerpAPI loop always uses the
  default thresholds, whatever the user chose.
- **The retry forgets the caller.** The retry runs with the default thresholds
  and the environment key.
- **Stale rows after restart.** Restart leaves queued and running futures
  alone, so the rows stop accounting for the batch as soon as a task is still
  queued or running.

## Model

| member | source | states |
|---|---|---|
| Text.LowerChar | LinkedinProfileFinder.py:171 | lower-casing leaves no capital letter and changes only capitals |
| Text.Lower | LinkedinProfileFinder.py:171 | `lower()` keeps the length, leaves no capital letter, keeps every other character in place and turns each capital into its small letter |
| Text.LowerIdempotent | LinkedinProfileFinder.py:171 | lower-casing twice is lower-casing once |
| Text.StripLeftSpec | LinkedinProfileFinder.py:168 | `lstrip` drops exactly the leading whitespace |
| Text.StripRightSpec | LinkedinProfileFinder.py:168 | `rstrip` drops exactly the trailing whitespace |
| Text.StripSpec | LinkedinProfileFinder.py:168-169 | `strip()` is a slice of its input with no outer whitespace; it is empty exactly when the input is all whitespace |
| Text.StripIdempotent | LinkedinProfileFinder.py:168-169 | stripping twice is stripping once |
| Text.StripKeeps | LinkedinProfileFinder.py:168 | `strip()` removes only whitespace: every other character keeps its count |
| Text.Split | LinkedinProfileFinder.py:169 | `split` on the bar gives at least one piece and no piece holds the separator |
| Text.JoinSplit | LinkedinProfileFinder.py:169 | joining the pieces of a split gives back the string |
| Text.SplitJoin | LinkedinProfileFinder.py:169 | splitting a join of separator-free pieces gives back the pieces |
| Text.ContainsAt | LinkedinProfileFinder.py:272 | `sub in s` holds exactly when `sub` occurs at some position of `s` |
| Text.RemoveAll | LinkedinProfileFinder.py:167-168 | `replace(ph, "")` never lengthens the string |
| Text.RemoveAbsent | LinkedinProfileFinder.py:167-168 | removing a phrase that does not occur changes nothing |
| Text.RemoveKeepsOthers | LinkedinProfileFinder.py:167-168 | removing a phrase keeps the count of every character outside it |
| Scoring.Fuzzy | LinkedinProfileFinder.py:182 | the fuzzy score `token_set_ratio / 100` lies in 0..1 |
| Scoring.EffectiveScore | LinkedinProfileFinder.py:279-284 | the effective score `max(cos, fuzzy)` is never negative |
| Scoring.IsBestMatch | LinkedinProfileFinder.py:175-184 | a candidate without a name or without a title is never accepted |
| Scoring.AcceptanceBounds | LinkedinProfileFinder.py:175-184 | an accepted candidate scores at least the lower threshold; one with a name and a title reaching both thresholds is accepted |
| Scoring.OrSemantics | LinkedinProfileFinder.py:184 | the two tests are joined by OR: a fuzzy 0.80 with a cosine 0.1 passes at 0.75 and fails at 0.85 |
| Scoring.ArgMaxFirst | LinkedinProfileFinder.py:172 | `max(parts, key=…)` picks an element with the largest key, the first one on ties |
| Scoring.CleanFromKeepsBars | LinkedinProfileFinder.py:166-168 | removing the boiler-plate phrases and stripping keeps every bar character |
| Scoring.CleanTitleKeepsBars | LinkedinProfileFinder.py:165-168 | the cleaned title has the raw title's bar count, so no fragment boundary is lost |
| Scoring.BoilerplateHasNoBar | LinkedinProfileFinder.py:167 | no boiler-plate phrase is empty or holds a bar character |
| Scoring.Fragments | LinkedinProfileFinder.py:169 | the fragments are non-empty, stripped and free of bars, no more than the pieces; there are none exactly when every piece is blank |
| Scoring.FragmentsFromPieces | LinkedinProfileFinder.py:169 | every fragment is one of the pieces, stripped |
| Scoring.FragmentsKeepPieces | LinkedinProfileFinder.py:169 | every piece that is not blank once stripped is among the fragments |
| Scoring.FragmentsAppend | LinkedinProfileFinder.py:169 | the fragments keep the order of the pieces: the fragments of two runs of pieces are the fragments of each, in order |
| Scoring.BestFragmentSpec | LinkedinProfileFinder.py:169-172 | "Not Found" when every fragment is blank, else the first fragment with the highest key, non-empty, stripped and without a bar |
| Scoring.ExtractBestTitleSpec | LinkedinProfileFinder.py:161-172 | `extract_best_title`: "Not Found" for an empty title or all-blank fragments, else the first best fragment against the cleaned title |
| Scoring.ExtractBestTitle | LinkedinProfileFinder.py:161-172 | "Not Found" for an empty title; every answer is non-empty, trimmed and free of bars |
| Scoring.ExpandUniversity | LinkedinProfileFinder.py:187-196 | an abbreviation in the table is replaced, anything else kept, and the answer is never itself an abbreviation, so expanding twice is expanding once |
| Scoring.FullName | LinkedinProfileFinder.py:252 | the full name has no outer whitespace |
| Scoring.SearchQueryRoundTrip | LinkedinProfileFinder.py:254 | the name and university can be read back from the quoted query |
| Scoring.SearchQuery | LinkedinProfileFinder.py:254 | the query is the name in double quotes, a space, the university in double quotes, then ` site:linkedin.com` |
| Selection.FirstBest | LinkedinProfileFinder.py:264-302 | the kept candidate is eligible and beats the initial score -1.0 |
| Selection.FirstBestSpec | LinkedinProfileFinder.py:264-302 | the loop keeps an eligible candidate with the highest score, the first on ties, or nothing when none beats -1.0 |
| Selection.FirstBestUnique | LinkedinProfileFinder.py:285-286 | those properties determine the kept candidate |
| Selection.FirstBestNone | LinkedinProfileFinder.py:264-304 | with non-negative scores, nothing is kept exactly when no candidate is eligible |
| Providers.Anchor | LinkedinProfileFinder.py:298 | the profile-link cell is never empty |
| Providers.ScoreSerpAll | LinkedinProfileFinder.py:267-284 | one score per organic result |
| Providers.ScoreSerpAt | LinkedinProfileFinder.py:267-284 | result `j` is scored by the quick filter, `is_best_match` at the defaults and `max(cos, fuzzy)` |
| Providers.ScoreSerpAllNonNegative | LinkedinProfileFinder.py:284 | every SerpAPI score is non-negative |
| Providers.SerpScanIsBest | LinkedinProfileFinder.py:264-302 | the loop's fold ends in the row of the first best passing result and its score |
| Providers.SerpApiSearch | LinkedinProfileFinder.py:242-314 | no request without a key; else the quoted query with the expanded university and the session-or-environment key; the answer is the selection over the results, nothing on an `error` reply or a fault |
| Providers.SelectSerpResult | LinkedinProfileFinder.py:264-302 | the loop (filter, accept, strictly better) ends with the row of the first best passing result |
| Providers.SerpBestSelects | LinkedinProfileFinder.py:264-308 | nothing exactly when no result passes; else the row of a result passing the name filter and the default thresholds, best, first on ties |
| Providers.SerpApiSelects | LinkedinProfileFinder.py:244-262 | with a key, a reply with results is answered by the selection; a fault or an `error` reply gives nothing |
| Providers.SerpApiOutcome | LinkedinProfileFinder.py:242-314 | nothing without a key or without organic results; any row answered carries the person's names, the expanded university, a profile link, "Unknown" income, no status |
| Providers.TakeEntries | LinkedinProfileFinder.py:335 | `[:10]` keeps a prefix of at most ten entries, all of them when there are ten or fewer |
| Providers.ScoreBing | LinkedinProfileFinder.py:339-351 | an unreadable entry is never eligible; a readable one is eligible exactly when `is_best_match` accepts its stripped title, and is scored `max(cos, fuzzy)` on that title; scores are non-negative |
| Providers.ScoreBingAll | LinkedinProfileFinder.py:338-351 | one score per entry |
| Providers.ScoreBingAt | LinkedinProfileFinder.py:338-351 | entry `j` is scored at the caller's thresholds |
| Providers.ScoreBingAllNonNegative | LinkedinProfileFinder.py:351 | every Bing score is non-negative |
| Providers.BingScanIsBest | LinkedinProfileFinder.py:336-368 | the loop's fold ends in the row of the first best accepted entry and its score |
| Providers.BingSearch | LinkedinProfileFinder.py:326-369 | the page loaded is the Bing query with the university as given; the answer is the selection over the first ten entries |
| Providers.SelectBingEntry | LinkedinProfileFinder.py:336-369 | the loop (skip unreadable, accept at the caller's thresholds, strictly better) ends with the first best entry's row |
| Providers.BingBestSelects | LinkedinProfileFinder.py:336-369 | nothing exactly when no entry is readable and accepted; else the row of the first best accepted entry |
| Providers.BingFirstTen | LinkedinProfileFinder.py:335 | entries after the tenth never change the answer |
| Providers.BingOutcome | LinkedinProfileFinder.py:335-369 | nothing for a page without entries; any row answered carries the person's names, the university as given, a profile link, "Unknown" income, no status |
| Retry.ChainCountsRetries | LinkedinProfileFinder.py:328-374 | each retry raises the name's `retry_attempts` by one, never past `MAX_RETRIES`; other names' counters are untouched |
| Retry.ChainExhausted | LinkedinProfileFinder.py:372 | a name with no retries left is tried once and its counter stays |
| Retry.ChainFirstInvocation | LinkedinProfileFinder.py:321-374 | a retry happens only after SerpAPI gave nothing and the browser faulted; otherwise the first invocation's answer stands |
| Retry.ChainRetryForgetsCaller | LinkedinProfileFinder.py:374 | once retrying, the answer no longer depends on the caller's thresholds or key |
| Retry.Chain | LinkedinProfileFinder.py:320-378 | whatever the chain answers is a row for the person asked about, with a profile link; it takes one invocation plus at most one per retry left |
| Income.SalaryTableWellFormed | LinkedinProfileFinder.py:381-434 | every band is a non-empty range of non-negative salaries |
| Income.FirstHit | LinkedinProfileFinder.py:451-455 | a keyword found is one that occurs in the title |
| Income.FirstHitSpec | LinkedinProfileFinder.py:451-455 | the search stops at the first keyword that occurs; none found means none occurs |
| Income.BandOfWellFormed | LinkedinProfileFinder.py:451-459 | a well-formed table gives a non-empty non-negative band |
| Income.BandOf | LinkedinProfileFinder.py:450-459 | the band of the first keyword that occurs in the title, the default band when none occurs |
| Income.TitleBand | LinkedinProfileFinder.py:381-459 | the band a title is priced from is a non-empty range of non-negative salaries |
| Income.Shadowed | LinkedinProfileFinder.py:451-455 | a keyword containing an earlier keyword never prices a title |
| Income.AccountManagerIsDead | LinkedinProfileFinder.py:393-406 | "account manager" never prices a title |
| Income.DoctorIsDead | LinkedinProfileFinder.py:398-410 | "doctor" never prices a title |
| Income.SoftwareEngineerBand | LinkedinProfileFinder.py:383-384 | "Senior Software Engineer" is priced as an engineer, 85000..150000 |
| Income.DoctorBand | LinkedinProfileFinder.py:398-410 | "Doctor" is priced with the cto band, 160000..300000 |
| Income.MatchRange | LinkedinProfileFinder.py:450-455 | the loop finds the band of the first keyword that occurs, nothing exactly when none occurs |
| Income.FinalizeRow | LinkedinProfileFinder.py:438-466 | one row: a salary stands; an empty title gives "Unknown"; otherwise a salary in the band, and "Match Found" when there is a link |
| Income.FinalizeIncomeEstimates | LinkedinProfileFinder.py:380-470 | every row of the array is finalised in place and no row moves |
| Income.FinalizedIdempotent | LinkedinProfileFinder.py:438-466 | finalising twice is finalising once |
| Income.SentinelsArePriced | LinkedinProfileFinder.py:445-448 | the "Not Found" and "Error" rows get a default-band salary, because the guard compares with a capitalised string |
| Income.SentinelsGetDefaultBand | LinkedinProfileFinder.py:436-459 | no keyword occurs in "not found" or "error" |
| Income.HitAt | LinkedinProfileFinder.py:451-455 | the search stops at keyword `n` when it occurs and no earlier one does |
| Income.Finalized | LinkedinProfileFinder.py:438-466 | a row without income is priced exactly when its title is non-empty; the status only changes to "Match Found" on a priced row with a link; names, title, link, score and number stay |
| Income.LowerNeverCapital | LinkedinProfileFinder.py:445-447 | a lower-cased title is never "Not Found", and is empty only when the title is |
| Income.ContainsTransitive | LinkedinProfileFinder.py:453 | a keyword inside a keyword occurs wherever the outer one does |
| Orchestrator.MaxThreads | LinkedinProfileFinder.py:102 | the pool has 4..8 workers: 4 up to 6 CPUs, 8 from 11 on, `int(cpus*0.75)` between |
| Orchestrator.MaxThreadsMonotone | LinkedinProfileFinder.py:102 | more CPUs never mean fewer workers |
| Orchestrator.PercentComplete | LinkedinProfileFinder.py:2068 | no percentage for an empty batch (the division by zero); otherwise the percentage rounded down |
| Orchestrator.PercentBounds | LinkedinProfileFinder.py:2068 | the percentage stays within 0..100 and is 100 exactly when every task has reported |
| Orchestrator.PercentMonotone | LinkedinProfileFinder.py:2068 | the bar never moves back as rows arrive |
| Orchestrator.NumberedSpec | LinkedinProfileFinder.py:2074-2121 | numbering keeps the rows and their order, numbers row `i` as `i + 1`, and in the final table gives every row a status, "No Match" where missing |
| Orchestrator.NumberedIdempotent | LinkedinProfileFinder.py:2074-2121 | numbering again changes nothing; the final numbering of a progress-numbered table is its final numbering |
| Orchestrator.NumberRows | LinkedinProfileFinder.py:2074-2080 | the numbering loop computes the numbered table |
| Orchestrator.CompletionRow | LinkedinProfileFinder.py:495-509 | `task_done` appends the task's row, the "Not Found" sentinel for no result, the "Error" sentinel for an exception; sentinels have no link |
| Orchestrator.CancelFromSpec | LinkedinProfileFinder.py:2159-2161 | after a stop no pending future is still queued; the others are unchanged |
| Orchestrator.SubmittedUnsettled | LinkedinProfileFinder.py:486-489 | a batch submits one unsettled future per person |
| Orchestrator.UnsettledZero | LinkedinProfileFinder.py:2160 | no future is unsettled exactly when every future is done |
| Orchestrator.BatchEndsWhenIdle | LinkedinProfileFinder.py:510-512 | while the rows account for the batch, the run ends exactly when no future is queued or running |
| Orchestrator.Engine.constructor | LinkedinProfileFinder.py:88-104 | the start-up state has no rows, no tasks and no counters, and is accounted |
| Orchestrator.Engine.TaskDone | LinkedinProfileFinder.py:493-513 | appends exactly one row and ends the run when the rows reach `total_tasks` |
| Orchestrator.Engine.Enqueue | LinkedinProfileFinder.py:476-490 | a fresh batch: active, no rows, `total_tasks` people, one queued future each as `pending_tasks`; accounted exactly when nothing of an earlier batch was still queued or running |
| Orchestrator.Engine.StartTask | LinkedinProfileFinder.py:487 | a worker starts a queued future; the accounting is kept |
| Orchestrator.Engine.FinishTask | LinkedinProfileFinder.py:487-513 | a running future finishes, returning or raising, and its callback appends the row for that outcome; the accounting is kept |
| Orchestrator.Engine.Cancel | LinkedinProfileFinder.py:2160-2161 | `cancel()` on a queued future settles it and appends an "Error" row; other futures are untouched |
| Orchestrator.Engine.CancelNext | LinkedinProfileFinder.py:2159-2161 | one turn of the stop loop keeps the futures and rows of a partial stop |
| Orchestrator.Engine.Stop | LinkedinProfileFinder.py:2156-2162 | the run ends, the timer stops, every queued pending future is cancelled with one "Error" row each; the accounting is kept |
| Orchestrator.Engine.Restart | LinkedinProfileFinder.py:2165-2180 | rows, `total_tasks` and `pending_tasks` are cleared and the timer stops; accounted exactly when no future is still queued or running |
| Orchestrator.Engine.SearchPerson | LinkedinProfileFinder.py:320-378 | the recursive `search_person` answers what the provider chain answers and leaves the counters the chain leaves |
| Orchestrator.Engine.RunTask | LinkedinProfileFinder.py:487-513 | a worker runs a task: the row appended is the chain's answer for that person with the batch's thresholds and key |
| Orchestrator.Engine.Search | LinkedinProfileFinder.py:2038-2064 | the search button starts a batch exactly when the form names a person or a list was uploaded; the final table is reset either way |
| Orchestrator.Engine.IntervalTick | LinkedinProfileFinder.py:2066-2128 | a tick shows the percentage and the numbered rows while active (a crash on an empty batch), leaving the timer on and the final table alone; after the run it builds the final table once, then stops the timer; the accounting is kept |
| Orchestrator.Engine.ShowProgress | LinkedinProfileFinder.py:2067-2106 | a tick while active: a crash and no change for an empty batch, else the percentage with the rows numbered for display; only the rows change; the accounting is kept |
| Orchestrator.Engine.ShowFinal | LinkedinProfileFinder.py:2112-2128 | the final table is built once from the finalised, numbered rows and then only shown again |
| Orchestrator.FinalRows | LinkedinProfileFinder.py:2115-2121 | the final table is the rows finalised and then numbered with "No Match" |
| Orchestrator.People | LinkedinProfileFinder.py:2043-2061 | a batch exists exactly when the form names a person or a list was uploaded, and it is never empty |
| Orchestrator.PeopleSpec | LinkedinProfileFinder.py:2043-2061 | the typed person wins over the list; a batch from the list is a prefix of it no longer than a positive name limit |

## Left out

- Network, browser and model calls. The HTTP request to SerpAPI, the Selenium
  driver and its sleep, the sentence-embedding model, rapidfuzz and the NER
  pipeline are not modelled. Their answers are parameters (`SerpResponse`,
  `BingPage`, `Models`).
- Threads and the lock. Every submission, worker step, callback, stop, restart
  and tick is one atomic step on `Engine`. Interleavings inside a step are not
  modelled. Neither is two tasks for the same name racing on `retry_attempts`.
- Clocks. The ETA, the speed and the 30-second stall warning read the clock,
  and change only the message shown, not the rows.
- Orchestrator.PercentComplete: computed in exact integer arithmetic. The
  program computes `int(done / total * 100)` in floating point, which can be
  one lower (for example 29 of 100 gives 28).
- Orchestrator.Engine.RunTask: the provider answers never make
  `search_person` raise, so RunTask always finishes its future with a
  returned value. In the program, `driver.quit()` in the `finally` (lines
  375-377) can raise after the Bing branch returned, or after a retry
  succeeded. The task then raises and `task_done` appends the "Error"
  sentinel. Engine.FinishTask accepts a raised outcome for such a task, but
  a failing `quit()` is not among the provider answers.
- The `setdefault` calls of the interval tick are not modelled: every row the
  engine builds already holds each of those keys, so they change nothing.
- Scoring.ScorePercent: the `Score` column is modelled as the floor of the
  score times 100. The program truncates a float, which is the floor for
  non-negative scores, up to float rounding.
- Text.Lower: lower-cases ASCII letters only. The program's `str.lower`
  handles all of Unicode.
- The dashboard. Login and logout, the CSV upload parser and download, the
  SerpAPI-key settings dialog, the video tutorial and the page layout are
  outside the engine. Restart's reset of the form fields (empty names, the
  default thresholds, no name limit, no key) is a UI output and is not
  modelled.
- The second `retry_attempts = {}` and `MAX_RETRIES = 2` (lines 539-540)
  rebind the same values before any task runs. The model has one counter map
  and one constant.
- Logging is not modelled.
