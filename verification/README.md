# Daily reservation sheet: store, memo sync and producer, in Dafny

This project models the core of a small reservation-sheet system, written in
Python, and proves properties of that model. The system has two sides.

- **The API service** (`api.py`) keeps one sheet per date in a database:
  - a version counter, the rows and a content hash per date;
  - a version-checked full write (`update_daily_sheet`);
  - a row patch that acts only on the management memo column `관리메모`
    (`patch_single_row`) and feeds a memo queue;
  - a forced restore from a JSON file;
  - a debounced, single-runner scheduler for the memo-sync job
    (`memo_edit_touch`, `_schedule_memo_sync_locked`,
    `_run_memo_sync_subprocess`, `memo_sync_run_now`, `memo_sync_status`).
- **The producer** (`day.py`) scrapes the booking site and uploads each day:
  - it classifies table rows (site and status columns);
  - it waits until the next day's table is stable;
  - it normalises the booking rows (`normalize_memo`, `normalize_bookings`,
    and the copy of that loop inside `push_sheet_to_api`);
  - it uploads with one merge-and-retry on a version conflict, and writes a
    backup when the upload cannot complete;
  - it keeps an in-process run-status record.

The modules follow that structure:

- `wrappers.dfy` (`Wrappers`): `Option`.
- `pyvalues.dfy` (`PyValues`): the Python values the rows carry, `str()`,
  `str.strip()`, `str.split`, `"\n".join` and the "non-blank trimmed
  entries" filter both sides use, with their laws.
- `sheet_store.dfy` (`SheetStore`): the store.
  - Each write is a function from the old store to the new store and the
    response.
  - The class `Store` performs each write step by step. It is proved to end
    in exactly that state and to keep the unique-key invariant.
- `memo_sync.dfy` (`MemoSync`): the scheduler.
  - Each transition is a function on the scheduler state.
  - Traces of events give the single-runner and debounce properties.
  - The class `MemoSyncScheduler` holds the globals and is proved to
    perform each transition.
- `day_rows.dfy` (`DayRows`): the producer's row normalisation, with the
  in-place array loops.
- `day_push.dfy` (`DayPush`): the merge of the server and client rows and
  the upload protocol.
- `run_status.dfy` (`RunStatus`): the `_status` record.
- `scrape.dfy` (`Scrape`): row classification and the stability counter of
  `wait_for_next_day_table`.

Python dicts on the producer side are `map<string, PyVal>`. On the service
side, a payload row and a stored row are datatypes holding the columns that
the logic reads; all other columns are carried through as one opaque value.

Where the code and its documented intent differ, the model follows the code:

- After a merge, the conflict backup holds the merged payload, not the
  original one (day.py:748, 795-796).
- The merge key is four fields: site, customer name, phone and reservation
  date. The last duplicate of a key wins. The store's own row key is
  (site, reservation date).
- A memo patch on a row outside site `E10` queues a task even when the memo
  did not change (api.py:689-699, committed at 757).
- Every save of the memo-sync state file rebuilds it from the three base
  entries plus that save's extra only. So an edit touch drops the last
  run's start and finish times from the file.
- A restore does not recompute the content hash. A date that did not exist
  starts from version 0, so it ends at version 1.
- In the list normaliser, a text that parses as JSON but not as a list
  gives `[v]`, the original untrimmed text (api.py:590-597).

## Model

| member | source | states |
|---|---|---|
| PyValues.StripEmptyIff | day.py:561 | `strip()` gives the empty text exactly when every character is whitespace |
| PyValues.StripIdempotent | day.py:561-567 | trimming a trimmed text changes nothing |
| PyValues.JoinSplitOn | api.py:696 | splitting a text on a separator and joining the pieces back gives the text |
| PyValues.SplitOnJoin | api.py:696 | joining a non-empty list of pieces that lack the separator, then splitting the result, gives the pieces back |
| PyValues.CleanPartsClean | day.py:564 | the non-blank trimmed entries of a list are all non-empty and trimmed |
| PyValues.CleanPartsOfClean | day.py:564 | a list of non-empty trimmed texts is kept as it is |
| PyValues.CleanLinesClean | day.py:566 | the non-blank trimmed lines of a text are all non-empty and trimmed |
| PyValues.CleanLinesStrip | api.py:682-684 | taking the non-blank trimmed lines of a text gives the same result before and after trimming the whole text |
| SheetStore.NormalizeListField | api.py:577-597 | `_normalize_list_field`: `None`, blank and `"null"` in any case give `[]`; a list gives the `str` of each element; a JSON list gives its elements; an unparsable text gives its non-blank trimmed lines; a JSON non-list text gives the text itself; any other value gives `[str(v)]` |
| SheetStore.NormalizeListFieldOfStored | api.py:577-583 | a list of texts read back through the normaliser is unchanged |
| SheetStore.StdMemoClean | api.py:677-684 | the patch's standardised memo holds no empty or untrimmed entry |
| SheetStore.StdMemoOfText | api.py:681-684 | for a value that is neither `None` nor a list, the standardised memo is the non-blank trimmed lines of its text, with or without a line break |
| SheetStore.QueuedMemoSplitsBack | api.py:689-699 | the memo text queued for a text-valued patch splits on line breaks back into exactly the standardised memo lines |
| SheetStore.FullWriteRejections | api.py:501-526 | a body that is not JSON or lacks a date gives 400; then a missing or null version gives 428; then a payload that fails validation gives 422; then a date that is not a `YYYY-MM-DD` calendar date gives 400; none changes the store |
| SheetStore.FullWriteConflict | api.py:528-532 | a version that differs from the stored one gives 409 with the stored version, and the store is unchanged |
| SheetStore.FullWriteAccepted | api.py:533-628 | a well-formed write whose rows have unique keys is accepted when its date is new, whatever its version, or when it carries the stored version; it moves an existing date to its old version plus one, or creates the date at version 1; the date then holds exactly the normalised payload rows and the hash of the payload; the response reports both; no other date and not the queue change |
| SheetStore.FullWriteDuplicateKeys | db_models.py:95 | payload rows that repeat a (site, reservation date) key fail at commit, and the store is unchanged |
| SheetStore.FullWritePreservesValid | db_models.py:95 | every full write keeps row keys unique within each date |
| SheetStore.SameVersionWritersOneWins | api.py:528-535 | of two writes applied one after the other that carry the same version, the first wins and moves the version on by one; the second gets 409 carrying the winner's version |
| SheetStore.FindRow | api.py:651-657 | the lookup returns the first row with the given site and reservation date, or none when no row has that key |
| SheetStore.FoundRowIsOnlyOne | api.py:651-655 | with unique keys, the row found is the only row with that key |
| SheetStore.PatchRejections | api.py:638-657 | missing date or version gives 400; a missing key part gives 400; a date text the database cannot read as a date makes the lookup raise, giving 500; an unknown date gives 404; a version that differs in value gives 409 with the stored version (a float such as `3.0` matches version 3, and `True` matches 1); a missing row gives 404; these are checked in that order and none changes the store |
| SheetStore.PatchVersioning | api.py:659-758 | a memo update outside site `E10` on a row whose name or phone is NULL fails with 500 and changes nothing; otherwise, with no memo in the update, or a standardised memo equal to the stored one, the version stays and no column is reported as changed; otherwise the version rises by exactly one, the memo column is reported and that row alone gets the new memo |
| SheetStore.PatchEnqueue | api.py:661-699 | a memo update on a row outside site `E10` appends exactly one pending `replace` task with 0 tries, carrying the line-break join of the standardised memo, whether or not the memo changed, unless the row's name or phone is NULL, when the request fails with 500 (both columns are NOT NULL in `memo_queue`, db_models.py:103-104) and the queue is unchanged; otherwise the queue is unchanged |
| SheetStore.PatchPreservesValid | db_models.py:95 | every patch keeps row keys unique within each date |
| SheetStore.PatchIdempotent | api.py:685-758 | repeating a patch with the version the first one returned changes no sheet and reports no changed column; outside site `E10` the queue still gets the same task a second time; a first patch that fails on a NULL name or phone changes nothing |
| SheetStore.PatchOfNullMemoChanges | api.py:685-702 | on a row whose memo cell is NULL, every memo patch bumps the version and reports the memo column, even one that standardises to the empty memo, unless it fails first on a NULL name or phone outside site `E10` |
| SheetStore.RestoreBumpsVersion | api.py:126-199 | a restore of a read file whose date is absent or matches, of a date text the database reads, and whose rows keep the keys unique, goes through whatever the stored version, under the date the database reads: it raises the version by one (a new date ends at 1) and reports the rows inserted; it replaces the rows when forced and adds to them otherwise, NULL cells included; it keeps the stored hash, the queue, every other date and the key invariant |
| SheetStore.RestoreRejections | api.py:126-202 | a missing file gives 404, an unreadable file 400, a file for another date 400, in that order; then a date text the database cannot read, or rows that repeat a key, fail inside the transaction and give 500; none changes the store |
| SheetStore.DateSpellingsAgree | api.py:645-657 | two date texts the database reads as the same date reach the same sheet: a patch, and a restore of a file without a date, behave alike under either |
| SheetStore.Store.UpdateDailySheet | api.py:499-628 | the step-by-step full write, with its delete-and-insert loop, ends in exactly the state and response of the full-write function and keeps the invariant |
| SheetStore.Store.PatchSingleRow | api.py:631-758 | the step-by-step patch ends in exactly the state and response of the patch function and keeps the invariant |
| SheetStore.Store.RestoreFromJson | api.py:126-161 | the step-by-step restore, with its insert loop, ends in exactly the state and response of the restore function |
| MemoSync.Status | api.py:298-305 | the status shows the live running flag and schedule, and the live edit time when there is one, else the file's; the last start time, finish time and return code are present exactly when the file's last save recorded them, with the values saved |
| MemoSync.TouchArmsTimer | api.py:274-404 | an edit touch raises the sync flag, records the edit, and arms one timer due one debounce delay later; the job state is untouched and the file loses any earlier run's start or finish time |
| MemoSync.NoStartWithinDebounce | api.py:339-346 | less than the delay minus half a second after an edit, the timer and run-now alike only re-arm the timer |
| MemoSync.StartsWhenQuiet | api.py:339-352 | once the edit is old enough, an attempt starts the job exactly when none is running; a start clears the schedule and saves the start time |
| MemoSync.FireWhileRunningLeavesStaleSchedule | api.py:347-349 | a timer that fires while a job runs leaves no armed timer, but the schedule still shows the time it was due |
| MemoSync.SingleRunner | api.py:339-390 | along any legal sequence of events, the jobs started minus the jobs exited equal the change of the running flag |
| MemoSync.AtMostOneUnfinished | api.py:347-388 | starting with no job running, at most one job more is started than has exited |
| MemoSync.BurstOfTouches | api.py:288-404 | after a burst of edits the timer and schedule point one delay past the last edit, and no job starts |
| MemoSync.BurstRunsOnce | api.py:339-404 | a burst of edits followed by the last edit's timer starts exactly one job |
| MemoSync.TwoEditsOneRun | api.py:392-404 | edits at 1 s and 6 s start one job, at 16 s |
| MemoSync.EditDuringRunNotRetried | api.py:347-388 | an edit whose timer fires while a job runs leaves no timer once the job exits, so nothing runs again without a new event |
| MemoSync.MemoSyncScheduler.RunSubprocess | api.py:339-352 | the lock-held part of the run attempt performs exactly the attempt function |
| MemoSync.MemoSyncScheduler.EditTouch | api.py:274-296 | the touch endpoint performs the touch and answers with the edit time and the new schedule |
| MemoSync.MemoSyncScheduler.TimerFire | api.py:398-399 | the timer callback performs the fire transition |
| MemoSync.MemoSyncScheduler.RunNowRequest | api.py:307-313 | run-now cancels the timer and performs the same run attempt |
| MemoSync.MemoSyncScheduler.JobFinished | api.py:382-388 | the job's exit clears the running flag and saves the finish time and return code |
| MemoSync.MemoSyncScheduler.StatusRequest | api.py:298-305 | the status endpoint returns the status function of the current state |
| DayRows.NormalizeMemoIsClean | day.py:560-567 | `normalize_memo` never returns an empty, blank or untrimmed entry, and gives `[]` for `None` |
| DayRows.NormalizeMemoOfList | day.py:563-564 | a list memo keeps its non-blank entries, trimmed |
| DayRows.NormalizeMemoOfText | day.py:561-567 | any other value gives the non-blank trimmed lines of its text, the single-line and blank cases included |
| DayRows.NormalizeMemoIdempotent | day.py:560-567 | normalising a normalised memo gives it back |
| DayRows.NormalizeMemoAgreesWithPatch | day.py:560-567 | the producer's memo normalisation equals the service's patch standardisation (api.py:677-684) on every value |
| DayRows.NonBlankThenStrip | day.py:644 | the upload keeps exactly the together-site entries that `normalize_bookings` keeps, only untrimmed |
| DayRows.TogetherForBookingsClean | day.py:592-602 | `normalize_bookings` leaves a together-sites list of non-empty trimmed texts |
| DayRows.TogetherPushThenStrip | day.py:598-644 | trimming the upload's together-sites gives the list `normalize_bookings` builds |
| DayRows.TogetherPushKeepsPadding | day.py:598-644 | an entry `" A1"` keeps its padding in the upload but not in `normalize_bookings` |
| DayRows.StringifyKeysSpec | day.py:605-624 | after the two column loops, every listed column holds `""` for `None`, its text unchanged, or `str(v)`; every other column is unchanged |
| DayRows.NormalizedRowShape | day.py:580-624 | a normalised row holds the memo and together-sites as lists of non-empty trimmed texts, and text in each of the ten listed columns |
| DayRows.NormalizeBookingRowIdempotent | day.py:580-624 | normalising a normalised row changes nothing |
| DayRows.PushRowOfNormalized | day.py:634-671 | the upload's normalisation leaves rows that `normalize_bookings` already normalised unchanged |
| DayRows.NormalizeAllIdempotent | day.py:570-627 | `normalize_bookings` applied to its own output changes nothing |
| DayRows.NormalizeBookings | day.py:570-627 | `None` gives a new empty list; otherwise the same list is returned, with each dict normalised in place and every other entry untouched |
| DayRows.FirstNonDict | day.py:634-636 | the index of the first entry that is not a dict, every entry before it being a dict |
| DayRows.NormalizeForPush | day.py:634-671 | the upload's loop normalises the dict rows in place up to the first entry that is not a dict; it stops there and reports failure, leaving the rest untouched |
| DayPush.IndexFacts | day.py:738-739 | the keys of a dict built by key in order and the values stored hold each key once, each row filed under its own key, every row's key present |
| DayPush.MergeRows | day.py:740-748 | each merged row is the server's last row of its key when the server has that key, and otherwise the client's last row of it |
| DayPush.MergeCoversBoth | day.py:736-748 | the merged keys are exactly the keys of both sides, and the merged sheet has one row per key of their union |
| DayPush.MergeKeysDistinct | day.py:736-748 | no key appears twice in the merged sheet |
| DayPush.Merge | day.py:740-748 | the two loops that append the server rows and then the client-only rows build exactly the merge |
| DayPush.PushRetryPolicy | day.py:693-751 | the first post carries the known version (0 when unknown) and the normalised rows; a second post happens exactly when a conflict is followed by a readable re-fetch, and it carries the 409's `current_version` (0 when absent) and the merged rows; there is never a third |
| DayPush.PushOutcomes | day.py:704-809 | a backup holds the payload as last posted; a conflict ends uploaded after a merge or in a conflict backup; any other refusal is only reported; a first post that raises ends in a failure backup |
| DayPush.PushSheetToApi | day.py:632-809 | the whole upload: rows normalised in place, then exactly the outcome and posts of the protocol function; an entry that is not a dict raises before anything is posted |
| RunStatus.AppendOnce | day.py:109-113 | `append_processed` lists the date, keeps the earlier dates in order, adds at most one entry and never a duplicate |
| RunStatus.AppendAllListsEachOnce | day.py:109-113 | however often dates are processed, each is listed once, and exactly the processed dates are listed |
| RunStatus.AppendOnceIdempotent | day.py:109-113 | appending a date that is already listed changes nothing |
| RunStatus.StatusRecord.SetRunning | day.py:79-86 | a new run sets the status to running, records the start time, and clears the end time, the processed dates and the error |
| RunStatus.StatusRecord.SetFinished | day.py:88-92 | the status becomes finished with the end time; nothing else changes |
| RunStatus.StatusRecord.SetError | day.py:94-99 | the status becomes error with the message and the end time; nothing else changes |
| RunStatus.StatusRecord.AppendProcessed | day.py:109-113 | the date is listed once and the record keeps no duplicates; nothing else changes |
| Scrape.RemoveAllWithoutMatch | day.py:334 | `replace("애견존", "")` leaves a text without the pattern as it is |
| Scrape.RemoveAllCanLeaveMatch | day.py:334 | one pass of the replacement can leave the pattern in the result |
| Scrape.SiteOfClean | day.py:333-334 | the site column is trimmed and holds no `>` |
| Scrape.SiteAfterLastArrow | day.py:334 | whatever precedes the last `>`, the site is taken from the text after it, with `애견존` removed and then trimmed |
| Scrape.StatusOfNames | day.py:336-340 | the status is one of `이용중`, `체크인`, `체크아웃` or empty; a named status occurs in the text, and it is empty exactly when none does |
| Scrape.StatusPrecedence | day.py:336-340 | `이용중` takes precedence over `체크인`, which takes precedence over `체크아웃` |
| Scrape.ClassifyRow | day.py:332-353 | a row gives a dict exactly when it has at least 11 cells; the dict has exactly the twelve headers, an empty memo list, trimmed texts in every other column, a site without `>` and one of the four statuses |
| Scrape.RowOfCellsShape | day.py:332-353 | the dict built from any row of 11 or more cells has that shape |
| Scrape.WaitFromDecides | day.py:513-558 | the wait ends at the first observation that decides it: an empty-day pattern, or a counted table that agrees with the latest counted one before it in row count and signature, giving the extraction's result; no earlier observation decides; it fails when the deadline passes with none deciding |
| Scrape.WaitStopsAtFirstDecider | day.py:525-546 | when an observation is the first that decides, the wait ends exactly there, with Empty for an empty-day pattern and the extraction's result for an agreeing table |
| Scrape.ReadyAfterTwoAgreeingTables | day.py:531-546 | the wait succeeds only after two consecutive counted tables agree, with a signature that differs from the previous day's, and only when extraction succeeds |
| Scrape.StaleTableTimesOut | day.py:525-527 | a page that keeps showing the previous day's table fails at the deadline |
| Scrape.WaitForNextDayTable | day.py:513-558 | the loop, with its three counters, returns exactly the status of the wait function |

## Left out

- Time is one integer clock in milliseconds, given as a parameter. The
  service's `time.time()` and `datetime.utcnow()` are two clocks in the
  source; the model does not tell them apart. The KST formatting of
  `utc_to_kst_str` is left out: the scheduler shows timestamps as numbers.
- `threading.Lock`, `threading.Timer`, the job's daemon thread and
  `subprocess.Popen` are left out. The scheduler is a sequence of events
  applied one at a time, so the race between cancelling and firing a timer
  is not modelled. The job's outcome is an input return code. A timer fires
  only once it is armed and due.
- The memo-sync flag row (`MemoSyncFlag`) is two fields of the scheduler
  state. The database session and its commits are not modelled, except
  that a unique-key violation rejects a full write or restore as a whole
  (status 500 stands for the unhandled error).
- The HTTP layer is left out. Request bodies are parsed datatypes.
  `UpdateBody.sheet == None` stands for a payload that the validator
  rejects. The model defined by `models.py` is not part of this model.
- `json.loads`, `json.load` of the restore file and `compute_sheet_hash`
  (SHA-256 over canonical JSON) are functions passed in, with no
  properties assumed.
- The database's reading of a date text for the `DATE` key column
  (`DateReader`) is a function passed in. It gives the canonical date, or
  none when the database cannot read the text. The patch and the restore
  pass the raw text to the database, so they use it. The full write parses
  the text itself with `date.fromisoformat` and keys the sheet by the
  checked `YYYY-MM-DD` text. No property of the reader is assumed, so the
  model does not state that it maps such a text to itself.
- `str()` of floats, dicts and other objects is an opaque text carried by
  the value (`POther`). Only `None`, booleans, integers, texts and lists
  are rendered.
- Sheet metadata is left out: top, headers, stats, option columns and
  `updated_at`. The `e10` flag is stored by the full write but read by
  nothing in this model. The columns the logic does not read are carried
  through unchanged as one opaque value. The payload's top, headers, stats
  and option columns in `push_sheet_to_api` are left out as well.
- On the producer side, every HTTP reply is an input:
  - whether the 409 body can be read, and its `current_version`;
  - the re-fetch's status and rows;
  - the retry's status.
  A 409 body that is JSON but not a dict is treated as unreadable. Backup
  file writes are recorded as an outcome holding the payload. Logging and
  the debug dump are left out.
- Selenium and the DOM are left out. A scraped row is its list of cell
  texts. The memo sub-rows that follow a booking row (day.py:355 onwards)
  are not modelled: a classified row's memo list is empty. The wait loop
  sees one observation per turn: a spinner, no table, or a table with its
  signature, row count and empty-pattern flag. The deadline is the end of
  the observation sequence. The table extraction's success is an input.
- `STABLE_CHECKS` is the default 2. The override from an optional config
  module is not modelled.
- Writing the run-status file (`write_status`) and its lock are left out.
  Timestamps are texts supplied by the caller.
- DayRows.UpdateDictsInPlace: the in-place loop of `push_sheet_to_api` is
  written once for any per-row update function. `NormalizeForPush` applies
  it with the upload's row normalisation. The exception a non-dict entry
  raises is the `false` result.
- DayRows.NormalizeBookings: the `try`/`except` guards around `str()` in
  the source cannot fail in this model, so their fallbacks to `[]` and `""`
  are not modelled.
- Python dict key order is only modelled where the source relies on it, in
  the merge. A row dict is a map, so two references to the same dict are
  not modelled.
- The scheduler's `memo_sync_proc` handle and the job's output streams are
  left out.
- SameVersionWritersOneWins: each request is one atomic step of the model,
  so writes are applied one after the other. The source reads the sheet
  (api.py:529), compares the version (api.py:531) and then increments it
  (api.py:534) without a row lock or a version condition. So two overlapping
  requests that read the same version can both pass the check. The model
  does not capture that interleaving, nor its outcomes: both commit and a
  version number is reused, or the second fails at commit.
- RestoreBumpsVersion: restored rows are stored rows whose list cells are a
  list of texts or NULL, and whose name and phone are a text or NULL.
  `_row_from_json` (api.py:87-112) stores the raw JSON value, so a file can
  also give a text or another non-list value for `관리메모` or `같이온사이트`,
  a non-text value for `고객명` or `연락처`, or NULL for `사이트` or `예약일`. What the
  database makes of those values is not modelled. The same holds for
  ApplyRestore and Store.RestoreFromJson.
- PyValues.Str: `str()` of a list quotes its text elements without the
  escaping of `repr`. Texts holding a quote or a backslash render
  differently from the source, and so do the values that
  NormalizeListField and DayPush.MergeKey render through `Str`.
- SheetStore.IsIsoDate: the date check accepts exactly the `YYYY-MM-DD`
  calendar dates, which is what `date.fromisoformat` accepts before Python
  3.11. Since 3.11 it also accepts other ISO 8601 forms such as `20250928`,
  which name the same date under another text. The store is keyed by the
  date text, so those forms are not modelled. The same holds for a row's
  reservation date: the full write passes a non-empty `예약일` through
  `date.fromisoformat` (api.py:563-572), so since 3.11 `20250928` is stored
  as `2025-09-28`, and two payload rows can share a (site, reservation
  date) key in the source while UniqueKeys over the payload texts sees two
  distinct keys.
