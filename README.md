# A verified model of the Telegram deleted-message backup bot

The bot (`backup.py`, class `TelegramBackupBot`) logs in to a Telegram account
and reads a group's admin log of deleted messages. Recovered text goes into a
JSON array in `backup/dump.json`. Media files go into `backup/media/`. Each
failure is recorded in `errors_list` and, one JSON object per line, in
`backup/errors.json`. This project models three parts of it in Dafny and
proves what they promise:

- **Session decision** (`session.dfy`, module `Session`). Whether the saved
  session file is reused, removed before a fresh login, or whether the run
  stops. These are pure functions of three inputs: whether the file exists,
  the operator's choice, and whether removal works.
- **Code-entry loop** (`auth.dfy`, module `Auth`). `create_new_session` makes
  up to three `sign_in(phone, code)` attempts, with the second-factor branch
  and the automatic code resend on `PHONE_CODE_EXPIRED`. The method
  `CreateNewSession` has the source's `for attempt in range(3)` loop. It is
  proved equal to the function `NewSessionRun`, and the lemmas about that
  function state the loop's guarantees. Each run also counts its `sign_in`
  and `send_code_request` calls.
- **Export pipeline** (`export_model.dfy`, `export_properties.dfy`,
  `backup_bot.dfy`). The page loop, the skip rule, the mode dispatch, the two
  writers and the error ledger. `ExportModel` states them as functions on a
  value `BotState`. `ExportProperties` proves the properties. `Bot.BackupBot`
  is the object with the source's fields. Its methods update those fields in
  place with the source's loops, and each method is proved to produce the
  state the matching function computes.

Everything the outside world decides is an input (an "oracle"):

- the pages successive `iter_admin_log` calls yield, as `seq<seq<Event>>`;
- what the file system does on each read, write and append;
- what `client.download_media` returns or raises;
- the clock's time stamps, which are opaque strings.

Each `Event` carries the answers for the writer calls it may cause
(`SaveWorld`, `DownloadWorld`, `LedgerWorld`).

Notes on how the model reads the source:

- `backup/dump.json` is a `DumpFile`: missing, blank after `strip()`, not valid
  JSON, valid JSON that is not an array, or an array of records. The first
  three read as `[]` (backup.py:188-196). A non-array makes `data.append`
  raise. The model records that exception's text
  (`'<type>' object has no attribute 'append'`) as one error.
- A rewrite of the dump opens it with `'w'` (backup.py:200), which empties
  the file before `json.dump` writes anything. A rewrite that fails part-way
  therefore leaves unparsable content, and the next save reads that as `[]`.
  Earlier records survive only while every rewrite completes.
  `SaveMessageContract` states this for one successful save, and `ExportDump`
  for a run of fault-free saves. `FailedRewriteLosesRecords` shows the loss
  (see "## Findings").
- Telethon's message dictionaries carry `datetime` values, and backup.py:201
  passes no `default=` to `json.dump`. If `message.to_dict()` holds such a
  value, every rewrite fails part-way. This is library behaviour, so the
  model leaves the outcome of each rewrite as an input.
- `backup/errors.json` is a sequence of writes. The export's reset writes
  `[]` with no newline (backup.py:245-246). Every `save_error` then appends
  an object and a newline after it, so the first error shares a line with the
  `[]`. The model keeps this, and `ExportErrorFile` states the resulting file
  exactly.
- The `continue` at backup.py:270 skips the progress check and the 0.1 s pause
  for events that are not recoverable deleted messages. `BotState.itemTails`
  records the value of `total_processed` each time the loop body reaches
  backup.py:286. `TailsAreRecoverable` and `ExportItemTails` prove that this
  happens exactly at the recoverable events.
- `run` rejects modes other than 1, 2 and 3 before calling export
  (backup.py:334-336), so `ValidMode(mode)` is a precondition.
- The `while True` page loop ends only at an empty page. Every pass calls
  `iter_admin_log(group, limit=100, delete=True)` with the same arguments
  (backup.py:256). `delete=True` only selects deletion events, and nothing in
  the code moves on to older ones. The precondition `[] in pages` is an
  assumption about the remote log, namely that some call yields no events.
  The code itself does not bring this about. Pages after the first empty one
  are never read (`ExportIgnoresLaterPages`). `RepeatedPageSavesTwice` shows
  what a page that comes back again does (see "## Findings").
- `CreateNewSession` takes one sign-in outcome per possible attempt, so it
  requires at least three outcomes. Outcomes past the point where the loop
  stops are ignored.
- An `Event`'s `old` is modelled as `oldMessage`, because `old` is a Dafny
  keyword.

## Model

| member | source | states |
|---|---|---|
| Session.SafeRemoveSession | backup.py:37-45 | True exactly when no session file is left afterwards. Removing an absent file counts as success. With a file present, the result is whether `os.remove` works. It never creates a file. |
| Session.CheckExistingSession | backup.py:47-62 | Reuse happens exactly when the file exists and the choice is `'1'`. Exit happens exactly when the file exists, the choice is something else, and removal fails. `'create_new'` always leaves no session file; the other two leave the existing one. |
| Session.ConnectWithExistingSession | backup.py:88-107 | True needs a successful connect. An authorized session gives True. An unauthorized one gives True only after answer `'y'`, a successful removal and a successful fresh login. Conversely, after a successful connect, answer `'y'` and a successful removal, the result is exactly that of the fresh login. |
| Session.InitializeClient | backup.py:64-82 | `'exit'` always returns False. Otherwise the result is that of the chosen login path. |
| Session.DeleteChoiceForcesFreshLogin | backup.py:53-82 | Choosing anything but `'1'` with a removal that succeeds removes the file and routes into the fresh-login path. |
| Session.FailedRemovalStopsRun | backup.py:55-66 | A failed removal gives `'exit'`, and initialize_client then returns False. |
| Auth.Classify | backup.py:137-145 | An error text containing `PHONE_CODE_INVALID` is an invalid code, whatever else it contains. The code is expired exactly when the text contains `PHONE_CODE_EXPIRED` and not `PHONE_CODE_INVALID`. The retry lemmas below build on it. |
| Auth.NewSessionRun | backup.py:109-157 | True needs a successful connect and a successful first code request. A failed connect makes no call. A failed first request makes one request and no sign-in. Otherwise there are 1 to 3 code sign-ins and at most one code request more than them. No run makes more than one password sign-in. `CreateNewSession` is proved equal to it, and the lemmas below state what its loop guarantees. |
| Auth.Attempts | backup.py:121-153 | From attempt `a`: at most `3 - a` code sign-ins, at least one if any attempt is left. At most one password sign-in. No more extra code requests than code sign-ins. |
| Auth.CreateNewSession | backup.py:109-157 | The `for attempt in range(3)` loop returns what `NewSessionRun` computes, with the counts of both kinds of sign_in and of send_code_request. At most 3 code sign-ins and 1 password sign-in. A password sign-in happens only after a 2FA request. |
| Auth.AttemptsAfterRetries | backup.py:136-148 | After `k` retryable failures, the loop behaves like the loop from attempt `a + k`. The counts are shifted by `k` sign-ins and by the codes resent in between. |
| Auth.FirstAcceptedWins | backup.py:121-128 | If the first `k` attempts fail with retryable errors and attempt `k` succeeds, the result is True after exactly `k + 1` code sign-ins, no password sign-in, and one extra code request per expired code. |
| Auth.TwoFactorEndsLoop | backup.py:130-134 | A 2FA request at attempt `k` ends the loop with exactly one password sign-in. The result is whether the password was accepted. |
| Auth.ThreeFailuresReturnFalse | backup.py:136-151 | Three retryable failures return False after exactly three code sign-ins. There is one code request plus one per expired code. |
| Auth.ExpiredResendFailureEndsRun | backup.py:136-157 | After `k` retryable failures, an expired code whose resend raises ends the run with False. That takes `k + 1` code sign-ins, no password sign-in, and `2 + TotalResends` code requests, counting the failed resend. |
| Auth.SuccessMeansAccepted | backup.py:121-151 | Conversely, a True result means the last attempt was accepted and every earlier attempt was retryable. One code was resent per expired code before it. A password sign-in happened exactly when the last attempt asked for 2FA. |
| ExportModel.SaveError | backup.py:167-181 | One more error and one more errors_list entry, carrying the message id. At most one more error-file line. The dump and the writer calls are untouched. `SaveErrorLedger` gives the exact new state. |
| ExportModel.SaveMessage | backup.py:183-209 | On True the dump is an array and text_messages grows by one. On False one error is counted and text_messages is unchanged. Either way it is exactly one save call. `SaveMessageContract` states when it returns True and what the dump then holds. |
| ExportModel.DownloadMedia | backup.py:211-229 | A returned path is never empty and is the one path added to `downloaded`. No path means nothing is added. It is one download call and never touches the dump. `DownloadContract` adds the counters and the exception case. |
| ExportModel.WriteMessage | backup.py:275-284 | The mode dispatch makes at most two writer calls. It does not change processed or the loop-tail record. `HandleEventShape` gives the exact calls. |
| ExportModel.HandleEvent | backup.py:266-289 | One event adds exactly one to processed. It reaches the loop tail once if recoverable and otherwise not. `SkipRule` and `HandleEventShape` give the rest. |
| ExportModel.RunEvents | backup.py:265-295 | A run of events reaches the loop tail at most once per event. `RunEventsProcessed`, `RunEventsCalls` and `RunEventsTails` give the exact counts. |
| ExportModel.RunPages | backup.py:253-297 | An empty first page ends the loop with nothing changed. The loop-tail record only grows. `RunPagesFlat` reduces the loop to the consumed events. |
| ExportModel.ResetErrorFile | backup.py:244-248 | A reset that works leaves the error file as just `[]`. A failed one changes nothing. Nothing but the error file changes in either case. |
| ExportModel.Export | backup.py:231-309 | A group that does not resolve aborts the export before anything changes. The `ExportProperties.Export*` lemmas state the rest. |
| ExportModel.Loaded | backup.py:188-198 | An array dump yields its records. A missing, blank or unparsable dump yields `[]`. Only a non-array dump makes the append fail. |
| ExportProperties.SaveErrorLedger | backup.py:167-181 | save_error appends exactly one record to errors_list and adds one to the error count. It appends one line to the error file when the append works, and changes nothing else. |
| ExportProperties.SaveMessageContract | backup.py:183-209 | True exactly when the read is clean, the dump is not a non-array, and the rewrite works. On True: the dump is the array read plus the new record at the end, text_messages grows by one, and earlier records keep their order. On False: one error, text_messages unchanged, and the dump unchanged or truncated. |
| ExportProperties.SaveMessageLedger | backup.py:198-209 | A save keeps `len(errors_list) == stats["errors"]`. When its append works, the error file grows by the lines of the new errors. |
| ExportProperties.DownloadContract | backup.py:211-229 | A path is returned and media_files grows by one exactly when the client returns a non-empty path. An exception adds exactly one error and leaves media_files alone. A falsy result changes no counter. |
| ExportProperties.DownloadLedger | backup.py:218-229 | A download keeps the ledger invariant and mirrors new errors in the error file. |
| ExportProperties.SkipRule | backup.py:266-271 | An event without `deleted_message` or without `old` only increments processed. |
| ExportProperties.HandleEventShape | backup.py:265-289 | One event adds one to processed and makes exactly the writer calls `Dispatch` gives. It reaches the loop tail only when recoverable. |
| ExportProperties.WriteMessageConsistent | backup.py:275-284 | The mode dispatch keeps the ledger invariant. |
| ExportProperties.WriteMessageMirrors | backup.py:275-284 | With working appends, the mode dispatch appends one error-file line per error it records. |
| ExportProperties.HandleEventConsistent | backup.py:265-289 | One event keeps the ledger invariant. |
| ExportProperties.HandleEventMirrors | backup.py:265-289 | With working appends, one event appends one error-file line per error it records. |
| ExportProperties.HandleEventDump | backup.py:275-284 | With a fault-free save, the dump reads as before plus the record this event saves, and text_messages counts one per record. |
| ExportProperties.RunEventsPrefixStep | backup.py:265-289 | Handling the first `j + 1` events is handling the first `j` and then event `j`. This is the step `ProcessPage`'s loop takes. |
| ExportProperties.RunEventsAppend | backup.py:265-289 | Handling `a + b` is handling `a`, then `b` with the counter advanced by the length of `a`. |
| ExportProperties.RunPagesFlat | backup.py:253-297 | The page loop handles exactly the consumed events, in order. |
| ExportProperties.RunEventsProcessed | backup.py:265-268 | processed grows by the number of events, skipped ones included. |
| ExportProperties.RunEventsCalls | backup.py:265-284 | The writer calls are exactly `ExpectedCalls`. |
| ExportProperties.RunEventsTails | backup.py:270-289 | The loop tail runs at exactly the numbers `Tails` gives. |
| ExportProperties.RunEventsConsistent | backup.py:265-295 | A run of events keeps the ledger invariant. |
| ExportProperties.RunEventsMirrors | backup.py:265-295 | With working appends, a run of events appends one error-file line per error it records. |
| ExportProperties.RunEventsDump | backup.py:183-201 | With fault-free saves, the dump reads as before plus `SavedRecords`, and text_messages grows by their number. |
| ExportProperties.MediaOnlyLeavesDump | backup.py:280-281 | Mode 2 never changes the dump or text_messages. |
| ExportProperties.MediaOnlyCalls | backup.py:280-281 | In mode 2 every writer call is a download of a message with media. |
| ExportProperties.TextOnlyCalls | backup.py:283-284 | In mode 3 every writer call is a save of a message without media. |
| ExportProperties.DownloadsNeedMedia | backup.py:275-284 | In every mode, only messages with media are downloaded. |
| ExportProperties.SaveCountAppend | backup.py:275-284 | Save calls add up over concatenation. |
| ExportProperties.AllModeSavesEvery | backup.py:275-278 | Mode 1 saves every recoverable message exactly once. |
| ExportProperties.TailsAreRecoverable | backup.py:270-289 | The progress check and pause run once per recoverable event, at exactly its value of total_processed, and never for a skipped event. |
| ExportProperties.ExportProcessed | backup.py:253-268 | processed grows by exactly the number of events in the pages before the first empty one. |
| ExportProperties.ConsumedStopsAtEmpty | backup.py:253-261 | The events read do not depend on anything after the first empty page. |
| ExportProperties.ExportIgnoresLaterPages | backup.py:253-261 | Pages after the first empty one never affect the export. |
| ExportProperties.ExportCalls | backup.py:253-284 | An export's writer calls are those `Dispatch` prescribes for each consumed recoverable message, in order. |
| ExportProperties.ExportMediaOnly | backup.py:280-281 | A mode-2 export never calls the text writer and never changes the dump or text_messages. |
| ExportProperties.ExportTextOnly | backup.py:283-284 | A mode-3 export never calls the media writer, and saves only messages without media. |
| ExportProperties.ExportKeepsConsistent | backup.py:167-181 | An export keeps `len(errors_list) == stats["errors"]` and `media_files == len(downloaded)`. |
| ExportProperties.ExportErrorFile | backup.py:244-248 | After a reset that works, and with working appends, the error file is `[]` followed by exactly one line per new error, in order. Earlier errors_list entries are kept. |
| ExportProperties.ExportDump | backup.py:188-203 | With fault-free saves, the dump reads as before followed by one record per saved message. text_messages grows by that number. |
| ExportProperties.ExportItemTails | backup.py:265-289 | The loop tail ran once per recoverable consumed event, at exactly those event numbers. |
| ExportProperties.ExportFirstPageEmpty | backup.py:259-261 | An empty first page ends the export with only the error-file reset done; all counters are unchanged. |
| ExportProperties.ExampleSingleTextMessage | backup.py:231-289 | One deleted text message with id 42, exported in mode 1 into a blank dump, gives a one-record dump, no downloads, an error file of just `[]`, and counters (1, 0, 0, 1). |
| ExportProperties.FailedRewriteLosesRecords | backup.py:200-201 | As written: the dump holds `r0`, one rewrite fails part-way, and the next save succeeds. The dump is then the new record alone. |
| ExportModel.SaveMessageAtomic | backup.py:183-209 | Corrected writer: the dump is either unchanged or the array read plus the new record. A failed rewrite never leaves it truncated. |
| ExportProperties.AtomicSaveKeepsRecords | backup.py:198-201 | One corrected save keeps an array dump an array, with its old records first. |
| ExportProperties.AtomicSavesKeepRecords | backup.py:198-201 | With the corrected writer, however the rewrites fail, no record of an array dump is ever removed. |
| ExportProperties.RepeatedPageSavesTwice | backup.py:253-284 | As written: a page `[e]` that comes back on the second call puts `e`'s record into the dump twice. |
| ExportProperties.RepeatConsumed | backup.py:253-261 | However many calls yield the same non-empty page, none of them is the empty page that ends the loop. When an empty page does follow, the loop reads every copy of the page. |
| ExportProperties.UnchangedLogWorkGrows | backup.py:253-268 | As written: `n` calls that return the unchanged page never end the loop. Followed by an empty page, they make processed grow by `n * |page|`, so the work grows without bound with the number of calls. |
| ExportModel.LogPages | backup.py:253-261 | The corrected paging of the log always ends with the empty page that stops the loop. |
| ExportModel.ExportLog | backup.py:231-309 | The corrected export aborts unchanged without a group. For an empty log it does only the error-file reset. |
| ExportProperties.ConsumedLogPages | backup.py:253-261 | Reading the corrected pages up to the empty one reads every event of the log once, in order. |
| ExportProperties.LogPagesStep | backup.py:253-265 | The first corrected page holds the log's first `min(|log|, 100)` events, and the loop handles them first. |
| ExportProperties.ExportLogOnce | backup.py:231-297 | Corrected: the export handles each event of the log exactly once. processed grows by the log's length, and the writer calls are those of its events, in order. |
| ExportProperties.ExportLogDump | backup.py:183-203 | Corrected: with fault-free saves, walking the log once adds exactly one dump record per saved message. |
| Bot.BackupBot.constructor | backup.py:18-31 | Zero counters, empty errors_list, the files as earlier runs left them, and the ledger invariant. |
| Bot.BackupBot.SaveError | backup.py:167-181 | The fields become `ExportModel.SaveError` of the old state, and the invariant is kept. |
| Bot.BackupBot.SaveMessageToJson | backup.py:183-209 | The fields and the return value are those of `SaveMessage` on the old state. |
| Bot.BackupBot.DownloadMedia | backup.py:211-229 | The fields and the return value are those of `ExportModel.DownloadMedia`. |
| Bot.BackupBot.WriteMessage | backup.py:275-284 | The mode dispatch leaves the state `ExportModel.WriteMessage` computes. |
| Bot.BackupBot.ProcessPage | backup.py:265-295 | The `for event in events` loop leaves the state `RunEvents` computes, and total_processed has grown by the page's length. |
| Bot.BackupBot.ExportMessages | backup.py:231-309 | The two loops leave the state `Export` computes, and the invariant is kept. |
| Bot.BackupBot.ExportLog | backup.py:231-309 | The corrected page loop moves a cursor through the log, at most 100 events per page. It leaves the state `ExportModel.ExportLog` computes. |

## Findings

| source | as written | input that shows it | evidently intended | confidence | as-written member | corrected member |
|---|---|---|---|---|---|---|
| backup.py:200-201 | `open(dump_file, 'w')` empties the dump before `json.dump` writes it. A rewrite that fails part-way leaves unparsable content. The next save reads that as `[]` and writes an array holding only its own record. | dump `[r0]`, then a save whose rewrite fails part-way, then a clean save of `m2` at `t2`: the dump becomes `[Record(m2, t2)]`, and `r0` is lost | the new array replaces the dump only once it is fully written (a temporary file then `os.replace`), so no saved record is ever removed | not executed; the mechanism follows from the code, and how often rewrites fail depends on `message.to_dict()` | ExportProperties.FailedRewriteLosesRecords | ExportProperties.AtomicSavesKeepRecords |
| backup.py:253-261 | Every pass of `while True` calls `iter_admin_log(group, limit=100, delete=True)` with the same arguments. Each pass asks for the same newest events again, so the loop stops only if a call finds no deletion events. | a log holding one deleted text message `e`, unchanged between calls: with pages `[[e], [e], []]` the dump holds `e`'s record twice; `n` copies of a non-empty page never include the empty page, and processed grows by `n` times its length | walk the log once, each call starting after the last event read (Telethon's `max_id`), until a call yields nothing, so each event is exported once | not executed; assumes `iter_admin_log` returns the same events for the same arguments while the log is unchanged | ExportProperties.UnchangedLogWorkGrows | ExportProperties.ExportLogOnce |

The rest of the model keeps the code as written, so the other lemmas describe
the program as it is. The corrected members sit beside it:

- `SaveMessageAtomic` and `SaveRun` for the dump;
- `LogPages`, `ExportModel.ExportLog` and the method `Bot.BackupBot.ExportLog`
  for the page loop. `ExportModel.ExportLog` is `Export` on the pages of one
  walk of the log, so every lemma about `Export` also holds for it.

## Left out

- Console input and output (`input`, `print`, the progress and statistics lines) and `logging`: these are user interface and diagnostics. The operator's answers are inputs, already stripped and lowered where the source does that.
- The `asyncio.sleep` pauses and the async/await structure: the timing has no logical content. Where the 0.1 s pause runs is recorded in `itemTails`.
- The Telethon client (`connect`, `is_user_authorized`, `send_code_request`, `sign_in`, `get_entity`, `iter_admin_log(..., delete=True)`, `download_media`, `disconnect`): this is library behaviour. Only its outcomes are inputs. `delete=True` is Telethon's filter that selects deletion events. Whether the log changes between calls is part of the `pages` input.
- `datetime.now()` and the media file name `{id}_{YYYYMMDD_HHMMSS}`: the clock is an input and the name format is not modelled.
- JSON encoding and decoding, and `message.to_dict()`: records and parse results are abstract, as `DumpFile` and `Record`.
- The `'unknown'` message id fallbacks (backup.py:208, 292): a Telethon message always has an `id`, so `Msg.id` is always present.
- The per-event `except` at backup.py:291-295: every modelled step inside that `try` catches its own exceptions, so no modelled input reaches it.
- `get_group_entity`'s integer parse and lookup: modelled only as the success flag `groupOk`.
- `KeyboardInterrupt` handlers and the `finally` disconnect: these concern signals and cleanup.
- An `iter_admin_log` call that raises (for example when the account is not an admin of the group) ends the export through the `except Exception` at backup.py:307-309, without the statistics being printed. Nothing in the model changes after that point, so the model represents it as the empty page that ends `pages`.
- The `TelegramClient(...)` constructor failing inside `initialize_client` (backup.py:70-86): this is library behaviour.
- `setup_folders`, `run`'s prompts for credentials and mode, and `main`: these are I/O. Only the mode check is kept, as the precondition `ValidMode`.
- A write to `backup/dump.json` that fails after truncating the file is modelled as leaving unparsable content. A blank file would read the same way.
