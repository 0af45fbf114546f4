# IVR report scraper — a Dafny model

The system is a nightly script. It logs into an IVR reporting portal and downloads yesterday's
report. It files the report under `<base>/Raw_Files/<YYYYMMDD>/` and appends the rows to the
`ivrReport_DB` table. Each stage writes an audit entry, and the script mails a notifier about
the outcome.

This project models the deterministic decisions inside that script:

- `loader.dfy` (`Loader`) models `insert_data_to_db`:
  - the 29-entry column rename map;
  - the non-blank row count that the success mail reports;
  - the three outcomes: skip an empty table, append the rows to a table that only grows, or report and swallow the failure.
- `pipeline.dfy` (`Pipeline`) models `main` as a function. It takes the outcome of every external step and returns the trace of effects:
  - audit entries, mails, the download stage's clicks and file move, the browser close and the append;
  - the database afterwards;
  - the path handed to the loader;
  - how the process ended.
  `Run` is the control flow as written. `RunCorrected` calls the loader only after a download that raised nothing.
- `mailer.dfy` (`Mailer`) models `Send_Emails.py`:
  - the credential gate run when the class loads;
  - the headers and the single HTML part of the message;
  - the one delivery attempt to `smtp.office365.com:587`;
  - the swallowed failure.
- The other files are supporting modules:
  - `calendar.dfy` (`Calendar`): yesterday's date and its `YYYYMMDD` folder name;
  - `paths.dfy` (`Paths`): POSIX `os.path.join` / `os.path.split` and the archive layout;
  - `audit.dfy` (`Audit`): trace events and counting them;
  - `text.dfy` (`Text`): decimal rendering of counts;
  - `options.dfy` (`Options`): `Option` and `Result`.

External effects enter the model as inputs:

- Every browser step and the login is a `Step` (`Ok` or `Raises(message)`).
- The dropdown option count is a number, and the download path is an `Option`.
- The parsed report is a `ParseResult` (headers plus rows of optional cells).
- The database's answer to the append is a `WriteOutcome`.
- The relay's behaviour is an `SmtpOutcome`.
- The three mail settings are a `MailEnv` of optional strings.
- Today's date and the base directory are plain values.

Three behaviours of the code are easy to misread:

- **"Empty" means `DataFrame.empty`.** A table is empty when it has no rows or no columns (IVR_Report_Scrub.py:80). The row count at line 74 drops blank rows, but the emptiness test does not use it. So a table whose rows are all blank is not empty: it is appended, and the success mail reports `IVR Rows: 0` (`Loader.AllBlankRowsAreStillAppended`).
- **A failed download crashes the run.** `final_path` is a local of `main`, so no path from an earlier run is reused. When the download stage fails before line 218, line 238 raises `UnboundLocalError` and the run dies after the failure mail and the browser close (`Pipeline.DownloadFailureCrashes`).
- **A failed move still calls the loader.** `shutil.move` runs after `final_path` is bound, so when the move fails the loader is still called with the archive path (`Pipeline.MoveFailureStillCallsLoader`).

## Model

| member | source | states |
|---|---|---|
| Loader.RenameHeaders | IVR_Report_Scrub.py:118-119 | Renaming keeps the header count and order; a header that is a key of the map becomes its mapped name, any other header is unchanged |
| Loader.RenameMapShape | IVR_Report_Scrub.py:86-116 | The map is the identity on every key except the four spaced headers, which map to their underscored forms, and those forms are not keys |
| Loader.RenameChangesExactlySpaced | IVR_Report_Scrub.py:86-119 | A header changes under renaming if and only if it is one of the four spaced headers |
| Loader.CanonicalIdempotent | IVR_Report_Scrub.py:86-119 | Canonicalising a single column name twice equals canonicalising it once |
| Loader.RenameIdempotent | IVR_Report_Scrub.py:118-119 | Renaming an already renamed header list changes nothing |
| Loader.DropBlankRows | IVR_Report_Scrub.py:74 | `dropna(how="all")` keeps only rows that are not entirely missing, keeps every such row, never returns more rows than it was given, and keeps them all if and only if none is blank |
| Loader.DropBlankRowsConcat | IVR_Report_Scrub.py:74 | The kept rows of a concatenation are the kept rows of each part, in order; with the one-row cases this fixes the order and multiplicity of the kept rows |
| Loader.DropBlankRowsCount | IVR_Report_Scrub.py:74 | The number of rows kept equals the number of positions that hold a non-blank row |
| Loader.DropAllBlankRows | IVR_Report_Scrub.py:74 | Rows that are all blank leave nothing after `dropna(how="all")` |
| Loader.InsertDataToDb | IVR_Report_Scrub.py:70-136 | One entry and one mail per call; skipped if and only if the table is empty; inserted if and only if non-empty and the write succeeds; inserted rows land after the old rows under renamed headers; otherwise the table is unchanged; it never drives the browser |
| Loader.EmptyTableIsSkipped | IVR_Report_Scrub.py:80-84 | An empty table: no append, one "Info" entry, one mail titled "Info! IVR Dataframe is Empty" |
| Loader.NonEmptyTableIsAppended | IVR_Report_Scrub.py:118-128 | A non-empty table: the new table is the old rows followed by every input row under the renamed headers, then the success entry and mail |
| Loader.FailureIsReportedAndSwallowed | IVR_Report_Scrub.py:131-136 | A read or write error: table unchanged, one "Warning"/"Failed" entry, one mail "Failed! IVR Data insertion failed into DB" carrying the error, and the call returns |
| Loader.LoadTwiceAppendsTwice | IVR_Report_Scrub.py:123 | Loading the same table twice appends its rows twice (no deduplication) |
| Loader.ReportedCountAtMostAppended | IVR_Report_Scrub.py:123-128 | The row count in the success mail is the number of non-blank row positions, is at most the number appended, and equals it if and only if no row is blank |
| Loader.AllBlankRowsAreStillAppended | IVR_Report_Scrub.py:74-80 | A table with columns and only blank rows is not empty: it is appended and reported as "IVR Rows: 0" |
| Loader.FiveRowReport | IVR_Report_Scrub.py:125-128 | Five complete rows under 27 columns are appended and reported as "IVR Rows: 5 & Columns: 27" |
| Loader.InsertedBodyOpening | IVR_Report_Scrub.py:128 | The success mail opens with the non-blank row count and the column count in decimal |
| Text.NatToStringRoundTrip | IVR_Report_Scrub.py:126 | A count rendered in decimal reads back as the same count |
| Text.FixedDigitsRoundTrip | IVR_Report_Scrub.py:55 | A zero-padded field reads back as its value when the value fits the width |
| Calendar.PreviousDay | IVR_Report_Scrub.py:54 | Yesterday is a valid date strictly before today; only 0001-01-01 has none (the subtraction overflows) |
| Calendar.PreviousThenNext | IVR_Report_Scrub.py:54 | The day after yesterday is today |
| Calendar.NextThenPrevious | IVR_Report_Scrub.py:54 | Subtracting one day undoes adding one day |
| Calendar.PreviousDayIsImmediate | IVR_Report_Scrub.py:54 | No valid date lies strictly between yesterday and today |
| Calendar.FolderName | IVR_Report_Scrub.py:55 | The folder name is eight decimal digits |
| Calendar.FolderNameRoundTrip | IVR_Report_Scrub.py:55 | Parsing the `YYYYMMDD` folder name recovers the date |
| Calendar.FolderNameInjective | IVR_Report_Scrub.py:55 | Different days get different folders |
| Paths.SplitJoin | IVR_Report_Scrub.py:218 | Splitting a joined path gives back its directory and its file name |
| Paths.ArchivePathLayout | IVR_Report_Scrub.py:60-61 | Joining the base, `Raw_Files`, the folder and a relative name gives `<base>/Raw_Files/<folder>/<name>` |
| Paths.ArchivePathSplits | IVR_Report_Scrub.py:218 | The archived file's directory is the dated archive folder and its base name is the suggested name |
| Mailer.LoadMailConfig | Send_Emails.py:15-21 | The gate passes if and only if all three settings are present and non-empty, keeping their values; otherwise it fails with the missing-credentials error |
| Mailer.BuildMessageHeaders | Send_Emails.py:29-35 | From is the sender setting, To the receiver setting, Subject the caller's subject, and the body is the only part, with subtype `html` |
| Mailer.SendEmail | Send_Emails.py:38-47 | Each call connects to the relay first; it prints the success line if and only if delivery succeeded and otherwise prints "Oops! Failed to send email - " plus the error, returning normally either way |
| Mailer.SendEmailSingleAttempt | Send_Emails.py:38-42 | At most one `sendmail` per call (no retry), and exactly one if and only if the relay got that far |
| Mailer.SendEmailUsesConfiguredIdentity | Send_Emails.py:41-42 | The relay login uses the sender setting and its password; the one `sendmail` goes from the sender setting to the receiver setting with the built message, so the envelope matches its From and To headers |
| Pipeline.TryDownload | IVR_Report_Scrub.py:177-229 | The download stage records only its clicks and the file move; it raises nothing if and only if every step succeeds; option index 2 is clicked if and only if the frame and dropdown open, at least three options are listed and the click returns; `final_path` is bound if and only if every step up to the reported download path succeeded, and then it is `<archive dir>/<suggested name>`; any option clicked is index 2 and only with at least three options |
| Pipeline.SessionOutcome | IVR_Report_Scrub.py:153-238 | After launch, the run as written crashes on `final_path` if and only if login succeeded and the stage never bound it; the loader receives the archive path exactly when the policy allows it; the table only grows |
| Pipeline.Run | IVR_Report_Scrub.py:139-238 | The table only grows; the loader receives a path only after startup, login and a bound `final_path`, and that path is the archive path; the run dies on the unbound `final_path` if and only if all stages up to the download started and the stage never bound it |
| Pipeline.RunCorrected | IVR_Report_Scrub.py:226-238 | With the loader called only after a download that raised nothing, the run never crashes after launch, and the loader receives the archive path if and only if every stage succeeded |
| Pipeline.MissingCredentialsStopTheRun | Send_Emails.py:19-21 | Without all three mail settings, importing the notifier raises: no effects, table unchanged |
| Pipeline.LoginFailureIsTerminal | IVR_Report_Scrub.py:168-174 | A failed login gives exactly one failure entry, one "Failed! Login Failed into portal" mail and the browser close; the loader is never called |
| Pipeline.StagedTraceCounts | IVR_Report_Scrub.py:153-236 | Up to the browser close there are two audit entries, one mail exactly when the stage failed, one close at the end and no append |
| Pipeline.SessionTrace | IVR_Report_Scrub.py:153-238 | After login the trace is the staged part, followed by the loader's effects exactly when the loader was called |
| Pipeline.SessionClosedOnce | IVR_Report_Scrub.py:168-238 | Once launched, the browser is closed exactly once, after every recorded download-stage action and before any append |
| Pipeline.BrowserClosedOnce | IVR_Report_Scrub.py:168-238 | The same for the whole run under either loader policy |
| Pipeline.SessionUiActions | IVR_Report_Scrub.py:177-229 | Every recorded download-stage action (report-frame click or file move) in a session was performed by its download stage, after a successful login |
| Pipeline.UiActionsOfRun | IVR_Report_Scrub.py:177-229 | Every recorded download-stage action in a run was performed by its download stage, after startup, launch and login succeeded |
| Pipeline.SessionTooFewOptions | IVR_Report_Scrub.py:196-205 | With fewer than three options, only the dropdown is clicked, the failure mail names the cause, and the run as written dies |
| Pipeline.DropdownNeedsThreeOptions | IVR_Report_Scrub.py:196-205 | The same for the whole run: no Apply or Download click, table unchanged |
| Pipeline.SessionClicksThirdOption | IVR_Report_Scrub.py:196-200 | After a successful login, option index 2 is clicked if and only if the frame and dropdown open, at least three options are listed and the click returns, whatever happens after it |
| Pipeline.DropdownSelectsThirdOption | IVR_Report_Scrub.py:196-205 | Every option click in a run is index 2, and happens only with at least three options; a logged-in run clicks it if and only if the frame and dropdown open, three or more options are listed and the click returns |
| Pipeline.SessionArchivesDownload | IVR_Report_Scrub.py:216-220 | A successful download is moved to `<dir>/<suggested name>`, and that path goes to the loader |
| Pipeline.ArchivePathOnSuccess | IVR_Report_Scrub.py:218-220 | A successful download is moved to, and loaded from, `<base>/Raw_Files/<yesterday as YYYYMMDD>/<suggested name>` |
| Pipeline.SessionPoliciesAgree | IVR_Report_Scrub.py:226-238 | The two loader policies give the same session if and only if the login failed or the download raised nothing |
| Pipeline.CorrectedAgreesOnSuccess | IVR_Report_Scrub.py:226-238 | The corrected run equals the run as written if and only if the run did not fail in the download stage after logging in |
| Pipeline.SessionDownloadFailure | IVR_Report_Scrub.py:226-238 | A stage failure before `final_path` ends with the failure entry, the failure mail and the close, then the crash; nothing appended |
| Pipeline.DownloadFailureCrashes | IVR_Report_Scrub.py:226-238 | The same for the whole run: it dies on the unbound `final_path` with the table unchanged |
| Pipeline.UnboundFinalPathExample | IVR_Report_Scrub.py:196-238 | A concrete run with every setting present and a two-option dropdown dies on the unbound `final_path` |
| Pipeline.MoveFailureStillCallsLoader | IVR_Report_Scrub.py:218-238 | As written, a failed move still hands the archive path to the loader after the failure mail; the corrected run does not and leaves the table alone |

## Left out

- Playwright: the browser, waits, sleeps, timeouts, the IST timezone and the XPaths are not modelled. Each step is an `Ok`/`Raises` input.
- The first page load (line 149) is folded into the `launch` step. It raises outside any `try`, like the browser start.
- Reading the file with `pd.read_csv` is not modelled. Its result is a `ParseResult` input, and a crash in reading becomes `ParseError`.
- SQLAlchemy engine creation, `quote_plus`, pyodbc and partial writes are not modelled. The append is all-or-nothing (`WriteOutcome`).
- `quote_plus(DB_PASSWORD)` raising at import when the setting is absent (line 46) is not modelled.
- The `Logger` module is not part of this model. An audit entry is a `Log` event with the seven arguments passed to it.
- `os.makedirs` and the filesystem are not modelled. `shutil.move` is a `MoveFile` event with an `Ok`/`Raises` outcome.
- `load_dotenv` and `os.getenv` are not modelled. Settings are given records.
- `datetime.now()` is an input date. The time of day is irrelevant to the folder name.
- `base_Dir` (`dirname(abspath('~'))`) is an input string, and paths use POSIX `/` separators, not Windows ones.
- The console `print` lines of the script are not modelled. The notifier's printed success or failure line is modelled.
- The SMTP transport, STARTTLS, MIME serialisation and the `QUIT` on leaving the `with` block are not modelled. `QUIT` is treated as never failing.
- SessionUiActions: the login's two fills and its click (lines 154-158) and the page loads (lines 149 and 178) are not recorded as events. They are folded into the `launch`, `login` and `reportFrame` steps, so the lemma speaks only about the recorded download-stage clicks and the file move.
- UiActionsOfRun: the same: the login and navigation actions are not events, so the lemma covers only the recorded download-stage clicks and the file move.
- Inside `Pipeline`, each mail is one `Email(subject, body)` event. The relay's answer never changes the control flow, as `Mailer.SendEmail` shows, so it is not part of the run.
- Calendar.FolderName: pads years below 1000 to four digits. The platform's `strftime('%Y')` may not, and such dates are out of the script's range anyway.

## Findings

| source | as written | input that shows it | evidently intended | confidence | as-written member | corrected member |
|---|---|---|---|---|---|---|
| IVR_Report_Scrub.py:226-238 | `insert_data_to_db(final_path)` runs after the download `try`/`except` whatever happened there, but `final_path` is only bound at line 218 | a logged-in run whose dropdown lists two options (or any stage failure before line 218): the failure mail is sent, the browser closes, then `UnboundLocalError` ends the process | call the loader only after a download stage that raised nothing | high, not executed | Pipeline.DownloadFailureCrashes | Pipeline.RunCorrected |
