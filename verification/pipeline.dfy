/** `main` of IVR_Report_Scrub.py, together with the module-level set-up it depends on, as a
    function from the outcome of every external step to the trace of effects the run produces.
    `Run` is the control flow as written; `RunCorrected` calls the loader only after a confirmed
    download. */
module Pipeline {
  import opened Options
  import opened Audit
  import Loader
  import Mailer
  import Calendar
  import Paths
  import Text

  /** The outcome of one external call: it returns, or it raises with a message. */
  datatype Step = Ok | Raises(error: string)

  /** How the report portal behaves during the download stage, step by step. */
  datatype Portal = Portal(
    reportFrame: Step,            // open the report page and wait for its iframe element
    frameResolved: bool,          // the element yields a frame
    dropdown: Step,               // wait for the dropdown inside the frame and click it
    optionCount: nat,             // how many options the dropdown lists
    optionClick: Step,            // clicking the chosen option
    apply: Step,                  // wait for the Apply button and click it
    downloadButton: Step,         // wait for the Download button and click it
    downloadEvent: Step,          // the download event arrives and reports its path
    downloadPath: Option<string>, // the temporary file of the download, if any
    suggestedFilename: string,
    move: Step)                   // moving the file into the archive folder

  /** The dropdown entry for "yesterday": the third option. */
  const OptionIndex: nat := 2
  const MinOptions: nat := 3

  const FrameMissing := "Failed to locate the iframe!"
  const TooFewOptions := "Dropdown options not found or less than 3"
  const NoFilePath := "Download failed - No file path found"

  const LoginEntry := Entry(JobCode, "Info", Category, "Success", "Login Successfully into portal for IVR Data", "Success", "Login")
  const LoginFailedEntry := Entry(JobCode, "Warning", Category, "Failed", "Login Failed into portal for IVR Data", "Error", "Login Failed")
  const LoginFailedSubject := "Failed! Login Failed into portal"
  const LoginFailedPrefix := "Login Error: "
  const DownloadedEntry := Entry(JobCode, "Info", Category, "Success", "Downloaded IVR Data Successfully from portal", "Success", "Data Downloaded")
  const DownloadFailedEntry := Entry(JobCode, "Warning", Category, "Failed", "Download Failed IVR Data from portal", "Error", "Download Failed")
  const DownloadFailedSubject := "Failed! Download IVR Data from portal"
  const DownloadFailedPrefix := "Download Error: "

  /** The download stage reaches the assignment of `final_path`. */
  predicate ReachesFinalPath(p: Portal) {
    && p.reportFrame.Ok? && p.frameResolved && p.dropdown.Ok?
    && p.optionCount >= MinOptions && p.optionClick.Ok? && p.apply.Ok?
    && p.downloadButton.Ok? && p.downloadEvent.Ok? && p.downloadPath.Some?
  }

  /** The stage gets as far as clicking the third dropdown option, and the click returns. */
  predicate ClicksOption(p: Portal) {
    && p.reportFrame.Ok? && p.frameResolved && p.dropdown.Ok?
    && p.optionCount >= MinOptions && p.optionClick.Ok?
  }

  /** The download stage completes without raising. */
  predicate DownloadSucceeds(p: Portal) {
    ReachesFinalPath(p) && p.move.Ok?
  }

  predicate AllUi(t: seq<Event>) {
    forall i :: 0 <= i < |t| ==> KindOf(t[i]) == UiKind
  }

  /** The browser actions of the download stage, the value `final_path` holds when the stage ends
      (`None` while it is unbound) and the message of the exception that ended it, if one did. */
  datatype Attempt = Attempt(events: seq<Event>, finalPath: Option<string>, failure: Option<string>)

  /** The `try` block of the download stage. */
  function TryDownload(p: Portal, archiveDir: string): (a: Attempt)
    ensures AllUi(a.events)
    ensures a.failure.None? <==> DownloadSucceeds(p)
    ensures a.finalPath.Some? <==> ReachesFinalPath(p)
    ensures a.finalPath.Some? ==> a.finalPath.value == Paths.Join(archiveDir, p.suggestedFilename)
    ensures forall i :: 0 <= i < |a.events| && a.events[i].ClickOption? ==>
      a.events[i].index == OptionIndex && p.optionCount >= MinOptions
    ensures forall i :: 0 <= i < |a.events| && (a.events[i] == ClickApply || a.events[i] == ClickDownload) ==>
      p.optionCount >= MinOptions
    ensures ClickOption(OptionIndex) in a.events <==> ClicksOption(p)
    ensures p.reportFrame.Ok? && p.frameResolved && p.dropdown.Ok? && p.optionCount < MinOptions ==>
      a.failure == Some(TooFewOptions)
    ensures DownloadSucceeds(p) ==>
      MoveFile(p.downloadPath.value, Paths.Join(archiveDir, p.suggestedFilename)) in a.events
  {
    var clicks := [ClickDropdown, ClickOption(OptionIndex), ClickApply, ClickDownload];
    assert clicks[..2][1] == clicks[..3][1] == clicks[1] == ClickOption(OptionIndex);
    if p.reportFrame.Raises? then Attempt([], None, Some(p.reportFrame.error))
    else if !p.frameResolved then Attempt([], None, Some(FrameMissing))
    else if p.dropdown.Raises? then Attempt([], None, Some(p.dropdown.error))
    else if p.optionCount < MinOptions then Attempt(clicks[..1], None, Some(TooFewOptions))
    else if p.optionClick.Raises? then Attempt(clicks[..1], None, Some(p.optionClick.error))
    else if p.apply.Raises? then Attempt(clicks[..2], None, Some(p.apply.error))
    else if p.downloadButton.Raises? then Attempt(clicks[..3], None, Some(p.downloadButton.error))
    else if p.downloadEvent.Raises? then Attempt(clicks, None, Some(p.downloadEvent.error))
    else if p.downloadPath.None? then Attempt(clicks, None, Some(NoFilePath))
    else
      var target := Paths.Join(archiveDir, p.suggestedFilename);
      if p.move.Raises? then Attempt(clicks, Some(target), Some(p.move.error))
      else
        var events := clicks + [MoveFile(p.downloadPath.value, target)];
        assert events[4] == MoveFile(p.downloadPath.value, target);
        Attempt(events, Some(target), None)
  }

  /** The audit entry and mail that close the download stage. */
  function DownloadReport(a: Attempt): seq<Event> {
    match a.failure
    case None => [Log(DownloadedEntry)]
    case Some(e) => [Log(DownloadFailedEntry), Email(DownloadFailedSubject, DownloadFailedPrefix + e)]
  }

  /** Everything the run needs from outside: settings, today's date, and the outcome of every
      external step. */
  datatype RunInputs = RunInputs(
    mailEnv: Mailer.MailEnv,
    today: Calendar.Date,
    baseDir: string,                 // the directory the archive lives under
    launch: Step,                    // start the browser and open the login page
    login: Step,                     // fill both fields and click the login button
    portal: Portal,
    parsed: Loader.ParseResult,      // what reading the file handed to the loader yields
    write: Loader.WriteOutcome)      // how the database answers the append

  /** An exception that escapes the script. */
  datatype Fault =
    | MissingMailCredentials         // the mail gate, raised while importing the notifier
    | DateOutOfRange                 // computing yesterday overflows
    | LaunchFailed(error: string)    // the browser start or the first page load
    | UnboundFinalPath               // `insert_data_to_db(final_path)` with `final_path` unbound

  datatype Exit = Finished | Crashed(fault: Fault)

  /** The effects in order, the database table afterwards, the path handed to the loader if it
      was called, and how the process ended. */
  datatype RunResult = RunResult(trace: seq<Event>, db: Loader.DbTable, loaderInput: Option<string>, exit: Exit)

  /** Whether the loader is called after a failed download stage. */
  datatype LoaderPolicy = AlwaysCallLoader | OnlyAfterDownload

  /** Module-level set-up: the mail gate passes and yesterday exists. */
  predicate StartupOk(inp: RunInputs)
    requires Calendar.Valid(inp.today)
  {
    Mailer.LoadMailConfig(inp.mailEnv).Success? && Calendar.PreviousDay(inp.today).Some?
  }

  /** `rawDateFile_Dir`: `<base>/Raw_Files/<yesterday as YYYYMMDD>`. */
  function ArchiveDirOf(inp: RunInputs): string
    requires Calendar.Valid(inp.today) && StartupOk(inp)
  {
    Paths.ArchiveDir(inp.baseDir, Calendar.FolderName(Calendar.PreviousDay(inp.today).value))
  }

  /** Everything up to the browser close, once login succeeded. */
  function StagedTrace(a: Attempt): seq<Event> {
    [Log(LoginEntry)] + a.events + DownloadReport(a) + [BrowserClose]
  }

  function LoginFailureTrace(error: string): seq<Event> {
    [Log(LoginFailedEntry), Email(LoginFailedSubject, LoginFailedPrefix + error), BrowserClose]
  }

  /** The end of a run that logged in: the staged trace, then the loader's effects if the policy
      calls it. `load` is what the loader would do; it only takes effect when called. */
  function Conclude(a: Attempt, load: Loader.LoadResult, db: Loader.DbTable, policy: LoaderPolicy): RunResult {
    var staged := StagedTrace(a);
    if policy == OnlyAfterDownload && a.failure.Some? then RunResult(staged, db, None, Finished)
    else
      match a.finalPath
      case None => RunResult(staged, db, None, Crashed(UnboundFinalPath))
      case Some(path) => RunResult(staged + load.events, load.db, Some(path), Finished)
  }

  /** The run once the browser is up: the login, then the download stage into `dir` and its
      conclusion. */
  function Session(login: Step, p: Portal, dir: string, load: Loader.LoadResult, db: Loader.DbTable, policy: LoaderPolicy): RunResult {
    if login.Raises? then RunResult(LoginFailureTrace(login.error), db, None, Finished)
    else Conclude(TryDownload(p, dir), load, db, policy)
  }

  /** What a session hands to the loader and how it ends, for any archive directory. */
  lemma SessionOutcome(login: Step, p: Portal, dir: string, load: Loader.LoadResult, db: Loader.DbTable, policy: LoaderPolicy)
    requires Loader.Grows(db, load.db)
    ensures var r := Session(login, p, dir, load, db, policy);
      && Loader.Grows(db, r.db)
      && (r.exit == Finished || r.exit == Crashed(UnboundFinalPath))
      && (r.exit == Crashed(UnboundFinalPath) <==> policy == AlwaysCallLoader && login.Ok? && !ReachesFinalPath(p))
      && (r.loaderInput.Some? <==>
            login.Ok? && (if policy == AlwaysCallLoader then ReachesFinalPath(p) else DownloadSucceeds(p)))
      && (r.loaderInput.Some? ==>
            r.loaderInput.value == Paths.Join(dir, p.suggestedFilename) && r.exit == Finished && r.db == load.db)
      && (r.loaderInput.None? ==> r.db == db)
  {
    if login.Ok? {
      var a := TryDownload(p, dir);
      assert a.finalPath.Some? <==> ReachesFinalPath(p);
    }
  }

  /** The run under a loader policy; `today` comes from the system clock, so it is a real date. */
  function Orchestrate(inp: RunInputs, db: Loader.DbTable, policy: LoaderPolicy): RunResult
    requires Calendar.Valid(inp.today)
  {
    if Mailer.LoadMailConfig(inp.mailEnv).Failure? then RunResult([], db, None, Crashed(MissingMailCredentials))
    else if Calendar.PreviousDay(inp.today).None? then RunResult([], db, None, Crashed(DateOutOfRange))
    else if inp.launch.Raises? then RunResult([], db, None, Crashed(LaunchFailed(inp.launch.error)))
    else Session(inp.login, inp.portal, ArchiveDirOf(inp), Loader.InsertDataToDb(inp.parsed, db, inp.write), db, policy)
  }

  /** Once the browser is up, the run is its session. */
  lemma AfterLaunch(inp: RunInputs, db: Loader.DbTable, policy: LoaderPolicy)
    requires Calendar.Valid(inp.today) && StartupOk(inp) && inp.launch.Ok?
    ensures Orchestrate(inp, db, policy) ==
      Session(inp.login, inp.portal, ArchiveDirOf(inp), Loader.InsertDataToDb(inp.parsed, db, inp.write), db, policy)
  {
  }

  /** `main()` as written: after the download stage the loader is called unconditionally. */
  function Run(inp: RunInputs, db: Loader.DbTable): (r: RunResult)
    requires Calendar.Valid(inp.today)
    ensures Loader.Grows(db, r.db)
    ensures r.loaderInput.Some? ==>
      && StartupOk(inp) && inp.launch.Ok? && inp.login.Ok? && ReachesFinalPath(inp.portal)
      && r.loaderInput.value == Paths.Join(ArchiveDirOf(inp), inp.portal.suggestedFilename)
      && r.exit == Finished
    ensures r.exit == Crashed(UnboundFinalPath) <==>
      StartupOk(inp) && inp.launch.Ok? && inp.login.Ok? && !ReachesFinalPath(inp.portal)
  {
    if StartupOk(inp) && inp.launch.Ok? then
      AfterLaunch(inp, db, AlwaysCallLoader);
      SessionOutcome(inp.login, inp.portal, ArchiveDirOf(inp), Loader.InsertDataToDb(inp.parsed, db, inp.write), db, AlwaysCallLoader);
      Orchestrate(inp, db, AlwaysCallLoader)
    else Orchestrate(inp, db, AlwaysCallLoader)
  }

  /** `main()` with the loader called only after a download stage that raised nothing. */
  function RunCorrected(inp: RunInputs, db: Loader.DbTable): (r: RunResult)
    requires Calendar.Valid(inp.today)
    ensures Loader.Grows(db, r.db)
    ensures r.exit.Crashed? ==> !StartupOk(inp) || inp.launch.Raises?
    ensures r.loaderInput.Some? <==>
      StartupOk(inp) && inp.launch.Ok? && inp.login.Ok? && DownloadSucceeds(inp.portal)
    ensures r.loaderInput.Some? ==>
      r.loaderInput.value == Paths.Join(ArchiveDirOf(inp), inp.portal.suggestedFilename)
  {
    if StartupOk(inp) && inp.launch.Ok? then
      AfterLaunch(inp, db, OnlyAfterDownload);
      SessionOutcome(inp.login, inp.portal, ArchiveDirOf(inp), Loader.InsertDataToDb(inp.parsed, db, inp.write), db, OnlyAfterDownload);
      Orchestrate(inp, db, OnlyAfterDownload)
    else Orchestrate(inp, db, OnlyAfterDownload)
  }

  /** Without all three mail settings the notifier refuses to load, so the script stops before
      doing anything. */
  lemma MissingCredentialsStopTheRun(inp: RunInputs, db: Loader.DbTable)
    requires Calendar.Valid(inp.today)
    requires !Mailer.Truthy(inp.mailEnv.username) || !Mailer.Truthy(inp.mailEnv.password)
      || !Mailer.Truthy(inp.mailEnv.receiver)
    ensures Run(inp, db) == RunResult([], db, None, Crashed(MissingMailCredentials))
  {
  }

  /** A failed login writes one failure entry, sends one failure mail, closes the browser and
      returns: the loader is never called and the database is untouched. */
  lemma LoginFailureIsTerminal(inp: RunInputs, db: Loader.DbTable, policy: LoaderPolicy)
    requires Calendar.Valid(inp.today) && StartupOk(inp)
    requires inp.launch.Ok? && inp.login.Raises?
    ensures var r := Orchestrate(inp, db, policy);
      && r.trace == [ Log(LoginFailedEntry), Email("Failed! Login Failed into portal", "Login Error: " + inp.login.error),
                      BrowserClose ]
      && r.loaderInput.None? && r.db == db && r.exit == Finished
    ensures LoginFailedEntry.severity == "Warning" && LoginFailedEntry.outcome == "Failed"
  {
  }

  /** The counts of each kind of event in the trace up to the browser close. */
  lemma StagedTraceCounts(a: Attempt)
    requires AllUi(a.events)
    ensures var t := StagedTrace(a);
      && Count(t, LogKind) == 2
      && Count(t, EmailKind) == (if a.failure.Some? then 1 else 0)
      && Count(t, CloseKind) == 1
      && Count(t, AppendKind) == 0
      && |t| >= 1 && t[|t| - 1] == BrowserClose
      && Count(t[..|t| - 1], CloseKind) == 0
  {
    var login := [Log(LoginEntry)];
    var report := DownloadReport(a);
    var pre := login + a.events + report;
    assert StagedTrace(a) == pre + [BrowserClose];
    assert (pre + [BrowserClose])[..|pre|] == pre;
    forall k: Kind
      ensures Count(pre + [BrowserClose], k) == Count(login, k) + Count(a.events, k) + Count(report, k) + Count([BrowserClose], k)
      ensures Count(pre, k) == Count(login, k) + Count(a.events, k) + Count(report, k)
      ensures k != UiKind ==> Count(a.events, k) == 0
    {
      CountConcat(pre, [BrowserClose], k);
      CountConcat(login + a.events, report, k);
      CountConcat(login, a.events, k);
    }
    CountSingle(Log(LoginEntry), LogKind);
    CountSingle(Log(LoginEntry), EmailKind);
    CountSingle(Log(LoginEntry), CloseKind);
    CountSingle(Log(LoginEntry), AppendKind);
    CountSingle(BrowserClose, LogKind);
    CountSingle(BrowserClose, EmailKind);
    CountSingle(BrowserClose, CloseKind);
    CountSingle(BrowserClose, AppendKind);
    if a.failure.Some? {
      CountTwo(report[0], report[1], LogKind);
      CountTwo(report[0], report[1], EmailKind);
      CountTwo(report[0], report[1], CloseKind);
      CountTwo(report[0], report[1], AppendKind);
    } else {
      CountSingle(report[0], LogKind);
      CountSingle(report[0], EmailKind);
      CountSingle(report[0], CloseKind);
      CountSingle(report[0], AppendKind);
    }
  }

  /** The browser is closed exactly once, after every browser action and before any row is
      appended. */
  predicate ClosedOnceInOrder(t: seq<Event>) {
    && Count(t, CloseKind) == 1
    && (forall i :: 0 <= i < |t| && KindOf(t[i]) == UiKind ==> BrowserClose !in t[..i])
    && (forall i :: 0 <= i < |t| && t[i].Append? ==> BrowserClose in t[..i])
  }

  /** A trace that ends its browser part with the only close, followed by effects that are
      neither browser actions nor closes, closes once and in order. */
  lemma ClosedOnceAfterStaging(staged: seq<Event>, rest: seq<Event>)
    requires |staged| >= 1 && staged[|staged| - 1] == BrowserClose
    requires Count(staged[..|staged| - 1], CloseKind) == 0
    requires Count(staged, AppendKind) == 0
    requires Count(rest, CloseKind) == 0 && Count(rest, UiKind) == 0
    ensures ClosedOnceInOrder(staged + rest)
  {
    var t := staged + rest;
    var body := staged[..|staged| - 1];
    assert staged == body + [BrowserClose];
    CountConcat(body, [BrowserClose], CloseKind);
    CountSingle(BrowserClose, CloseKind);
    CountConcat(staged, rest, CloseKind);
    forall i | 0 <= i < |t| && KindOf(t[i]) == UiKind
      ensures BrowserClose !in t[..i]
    {
      assert i < |staged| - 1;
      assert t[..i] == body[..i];
    }
    forall i | 0 <= i < |t| && t[i].Append?
      ensures BrowserClose in t[..i]
    {
      assert i >= |staged|;
      assert t[..i][|staged| - 1] == BrowserClose;
    }
  }

  /** After a successful login the trace is the staged part, then the loader's effects if the
      loader was called. */
  lemma SessionTrace(login: Step, p: Portal, dir: string, load: Loader.LoadResult, db: Loader.DbTable, policy: LoaderPolicy)
    requires login.Ok?
    ensures var r := Session(login, p, dir, load, db, policy);
      var staged := StagedTrace(TryDownload(p, dir));
      && (r.loaderInput.Some? ==> r.trace == staged + load.events)
      && (r.loaderInput.None? ==> r.trace == staged)
  {
  }

  /** A session whose loader neither drives the browser nor closes it closes the browser once
      and in order. */
  lemma SessionClosedOnce(login: Step, p: Portal, dir: string, load: Loader.LoadResult, db: Loader.DbTable, policy: LoaderPolicy)
    requires Count(load.events, CloseKind) == 0 && Count(load.events, UiKind) == 0
    ensures ClosedOnceInOrder(Session(login, p, dir, load, db, policy).trace)
  {
    var r := Session(login, p, dir, load, db, policy);
    if login.Raises? {
      var t := LoginFailureTrace(login.error);
      assert t[..2] == [t[0], t[1]];
      CountTwo(t[0], t[1], CloseKind);
      CountThree(t[0], t[1], t[2], AppendKind);
      ClosedOnceAfterStaging(t, []);
      assert t + [] == t;
    } else {
      var a := TryDownload(p, dir);
      var staged := StagedTrace(a);
      StagedTraceCounts(a);
      SessionTrace(login, p, dir, load, db, policy);
      if r.loaderInput.Some? {
        ClosedOnceAfterStaging(staged, load.events);
      } else {
        ClosedOnceAfterStaging(staged, []);
        assert staged + [] == staged;
      }
    }
  }

  /** Once the browser is up it is closed exactly once, after every browser action and before
      any row is appended, whichever loader policy the run follows. */
  lemma BrowserClosedOnce(inp: RunInputs, db: Loader.DbTable, policy: LoaderPolicy)
    requires Calendar.Valid(inp.today) && StartupOk(inp) && inp.launch.Ok?
    ensures ClosedOnceInOrder(Orchestrate(inp, db, policy).trace)
  {
    AfterLaunch(inp, db, policy);
    SessionClosedOnce(inp.login, inp.portal, ArchiveDirOf(inp), Loader.InsertDataToDb(inp.parsed, db, inp.write), db, policy);
  }

  /** In a trace made of the staged part and effects without browser actions, every browser
      action is one the download stage performed. */
  lemma UiComesFromAttempt(a: Attempt, rest: seq<Event>)
    requires Count(rest, UiKind) == 0
    ensures var t := StagedTrace(a) + rest;
      forall i :: 0 <= i < |t| && KindOf(t[i]) == UiKind ==> t[i] in a.events
  {
    var t := StagedTrace(a) + rest;
    var report := DownloadReport(a);
    assert forall j :: 0 <= j < |report| ==> KindOf(report[j]) != UiKind;
    forall i | 0 <= i < |t| && KindOf(t[i]) == UiKind
      ensures t[i] in a.events
    {
      if 1 <= i < 1 + |a.events| {
        assert t[i] == a.events[i - 1];
      }
    }
  }

  /** Every recorded download-stage action (a click in the report frame or the file move) in a
      session is one its download stage performed after a successful login. */
  lemma SessionUiActions(login: Step, p: Portal, dir: string, load: Loader.LoadResult, db: Loader.DbTable, policy: LoaderPolicy)
    requires Count(load.events, UiKind) == 0
    ensures var r := Session(login, p, dir, load, db, policy);
      forall i :: 0 <= i < |r.trace| && KindOf(r.trace[i]) == UiKind ==>
        login.Ok? && r.trace[i] in TryDownload(p, dir).events
  {
    var r := Session(login, p, dir, load, db, policy);
    if login.Ok? {
      var a := TryDownload(p, dir);
      SessionTrace(login, p, dir, load, db, policy);
      if r.loaderInput.Some? {
        UiComesFromAttempt(a, load.events);
      } else {
        assert StagedTrace(a) + [] == StagedTrace(a);
        UiComesFromAttempt(a, []);
      }
    } else {
      var t := r.trace;
      assert forall i :: 0 <= i < |t| ==> KindOf(t[i]) != UiKind;
    }
  }

  /** Every recorded download-stage action in a run is one the download stage performed, after
      startup, launch and login succeeded. */
  lemma UiActionsOfRun(inp: RunInputs, db: Loader.DbTable, policy: LoaderPolicy)
    requires Calendar.Valid(inp.today)
    ensures var r := Orchestrate(inp, db, policy);
      forall i :: 0 <= i < |r.trace| && KindOf(r.trace[i]) == UiKind ==>
        && StartupOk(inp) && inp.launch.Ok? && inp.login.Ok?
        && r.trace[i] in TryDownload(inp.portal, ArchiveDirOf(inp)).events
  {
    if StartupOk(inp) && inp.launch.Ok? {
      AfterLaunch(inp, db, policy);
      SessionUiActions(inp.login, inp.portal, ArchiveDirOf(inp), Loader.InsertDataToDb(inp.parsed, db, inp.write), db, policy);
    }
  }

  lemma TooFewOptionsStaged(a: Attempt)
    requires a == Attempt([ClickDropdown], None, Some(TooFewOptions))
    ensures StagedTrace(a) == [ Log(LoginEntry), ClickDropdown, Log(DownloadFailedEntry),
                                Email(DownloadFailedSubject, DownloadFailedPrefix + TooFewOptions), BrowserClose ]
  {
  }

  /** A logged-in session whose dropdown lists fewer than three options clicks only the dropdown,
      reports the cause and, as written, dies on the unbound `final_path`. */
  lemma SessionTooFewOptions(login: Step, p: Portal, dir: string, load: Loader.LoadResult, db: Loader.DbTable)
    requires login.Ok? && p.reportFrame.Ok? && p.frameResolved && p.dropdown.Ok? && p.optionCount < MinOptions
    ensures var r := Session(login, p, dir, load, db, AlwaysCallLoader);
      && r.trace == [ Log(LoginEntry), ClickDropdown, Log(DownloadFailedEntry),
                      Email(DownloadFailedSubject, DownloadFailedPrefix + TooFewOptions), BrowserClose ]
      && ClickApply !in r.trace && ClickDownload !in r.trace
      && r.exit == Crashed(UnboundFinalPath) && r.db == db
  {
    var a := TryDownload(p, dir);
    assert a == Attempt([ClickDropdown], None, Some(TooFewOptions));
    TooFewOptionsStaged(a);
  }

  /** With fewer than three options the stage raises right after opening the dropdown: no option,
      Apply or Download is clicked, the failure mail names the cause, and the run as written then
      dies on the unbound `final_path`. */
  lemma DropdownNeedsThreeOptions(inp: RunInputs, db: Loader.DbTable)
    requires Calendar.Valid(inp.today) && StartupOk(inp) && inp.launch.Ok? && inp.login.Ok?
    requires inp.portal.reportFrame.Ok? && inp.portal.frameResolved && inp.portal.dropdown.Ok?
    requires inp.portal.optionCount < 3
    ensures var r := Run(inp, db);
      && r.trace == [ Log(LoginEntry), ClickDropdown, Log(DownloadFailedEntry),
                      Email(DownloadFailedSubject, DownloadFailedPrefix + TooFewOptions), BrowserClose ]
      && ClickApply !in r.trace && ClickDownload !in r.trace
      && r.exit == Crashed(UnboundFinalPath) && r.db == db
  {
    var session := Session(inp.login, inp.portal, ArchiveDirOf(inp), Loader.InsertDataToDb(inp.parsed, db, inp.write), db, AlwaysCallLoader);
    AfterLaunch(inp, db, AlwaysCallLoader);
    assert Run(inp, db) == session;
    SessionTooFewOptions(inp.login, inp.portal, ArchiveDirOf(inp), Loader.InsertDataToDb(inp.parsed, db, inp.write), db);
  }

  /** A logged-in session clicks the third option exactly when its stage lists at least three
      options and the click returns. */
  lemma SessionClicksThirdOption(login: Step, p: Portal, dir: string, load: Loader.LoadResult, db: Loader.DbTable, policy: LoaderPolicy)
    requires login.Ok? && Count(load.events, UiKind) == 0
    ensures ClickOption(OptionIndex) in Session(login, p, dir, load, db, policy).trace <==> ClicksOption(p)
  {
    var a := TryDownload(p, dir);
    var r := Session(login, p, dir, load, db, policy);
    SessionTrace(login, p, dir, load, db, policy);
    if ClicksOption(p) {
      var k :| 0 <= k < |a.events| && a.events[k] == ClickOption(OptionIndex);
      assert StagedTrace(a)[1 + k] == ClickOption(OptionIndex);
      assert r.trace[1 + k] == ClickOption(OptionIndex);
    } else {
      SessionUiActions(login, p, dir, load, db, policy);
    }
  }

  /** Whenever an option is clicked it is the third one, and only when at least three are
      listed; a logged-in run clicks it exactly when three are listed and the click returns. */
  lemma DropdownSelectsThirdOption(inp: RunInputs, db: Loader.DbTable, policy: LoaderPolicy)
    requires Calendar.Valid(inp.today)
    ensures var r := Orchestrate(inp, db, policy);
      && (forall i :: 0 <= i < |r.trace| && r.trace[i].ClickOption? ==>
            r.trace[i].index == 2 && inp.portal.optionCount >= 3)
      && (StartupOk(inp) && inp.launch.Ok? && inp.login.Ok? ==>
            (ClickOption(2) in r.trace <==> ClicksOption(inp.portal)))
  {
    var r := Orchestrate(inp, db, policy);
    UiActionsOfRun(inp, db, policy);
    forall i | 0 <= i < |r.trace| && r.trace[i].ClickOption?
      ensures r.trace[i].index == 2 && inp.portal.optionCount >= 3
    {
      var a := TryDownload(inp.portal, ArchiveDirOf(inp));
      var k :| 0 <= k < |a.events| && a.events[k] == r.trace[i];
    }
    if StartupOk(inp) && inp.launch.Ok? && inp.login.Ok? {
      AfterLaunch(inp, db, policy);
      SessionClicksThirdOption(inp.login, inp.portal, ArchiveDirOf(inp), Loader.InsertDataToDb(inp.parsed, db, inp.write), db, policy);
    }
  }

  /** A logged-in session whose download completes moves the file to `<dir>/<suggested name>` and
      hands that path to the loader. */
  lemma SessionArchivesDownload(login: Step, p: Portal, dir: string, load: Loader.LoadResult, db: Loader.DbTable, policy: LoaderPolicy)
    requires login.Ok? && DownloadSucceeds(p)
    ensures var r := Session(login, p, dir, load, db, policy);
      var target := Paths.Join(dir, p.suggestedFilename);
      && r.loaderInput == Some(target)
      && MoveFile(p.downloadPath.value, target) in r.trace
      && r.exit == Finished
  {
    var a := TryDownload(p, dir);
    SessionTrace(login, p, dir, load, db, policy);
    var staged := StagedTrace(a);
    var e := MoveFile(p.downloadPath.value, a.finalPath.value);
    var k :| 0 <= k < |a.events| && a.events[k] == e;
    assert staged[1 + k] == e;
    assert Session(login, p, dir, load, db, policy).trace[1 + k] == e;
  }

  /** A completed download is moved to, and handed to the loader as,
      `<base>/Raw_Files/<yesterday as YYYYMMDD>/<suggested file name>`. */
  lemma ArchivePathOnSuccess(inp: RunInputs, db: Loader.DbTable)
    requires Calendar.Valid(inp.today) && StartupOk(inp) && inp.launch.Ok? && inp.login.Ok?
    requires DownloadSucceeds(inp.portal)
    requires inp.baseDir != [] && !Paths.EndsWithSep(inp.baseDir)
    requires !Paths.IsAbsolute(inp.portal.suggestedFilename)
    ensures var r := Run(inp, db);
      var yesterday := Calendar.PreviousDay(inp.today).value;
      var target := inp.baseDir + "/Raw_Files/" + Calendar.FolderName(yesterday) + "/" + inp.portal.suggestedFilename;
      && r.loaderInput == Some(target)
      && MoveFile(inp.portal.downloadPath.value, target) in r.trace
      && r.exit == Finished
  {
    var yesterday := Calendar.PreviousDay(inp.today).value;
    var folder := Calendar.FolderName(yesterday);
    assert Paths.HasNoSep(folder) by {
      assert Text.AllDigits(folder);
    }
    Paths.ArchivePathLayout(inp.baseDir, folder, inp.portal.suggestedFilename);
    AfterLaunch(inp, db, AlwaysCallLoader);
    SessionArchivesDownload(inp.login, inp.portal, ArchiveDirOf(inp), Loader.InsertDataToDb(inp.parsed, db, inp.write), db, AlwaysCallLoader);
  }

  /** The two loader policies give the same session exactly when the login failed or the download
      stage raised nothing. */
  lemma SessionPoliciesAgree(login: Step, p: Portal, dir: string, load: Loader.LoadResult, db: Loader.DbTable)
    ensures Session(login, p, dir, load, db, AlwaysCallLoader) == Session(login, p, dir, load, db, OnlyAfterDownload)
      <==> login.Raises? || DownloadSucceeds(p)
  {
    if login.Ok? && !DownloadSucceeds(p) {
      var a := TryDownload(p, dir);
      var corrected := Session(login, p, dir, load, db, OnlyAfterDownload);
      assert corrected.loaderInput.None? && corrected.exit == Finished;
      if ReachesFinalPath(p) {
        assert Session(login, p, dir, load, db, AlwaysCallLoader).loaderInput.Some?;
      } else {
        assert Session(login, p, dir, load, db, AlwaysCallLoader).exit == Crashed(UnboundFinalPath);
      }
    }
  }

  /** The run died on the unbound `final_path` with the table `db` untouched, after the
      download failure entry, the failure mail and the browser close. */
  predicate CrashedAfterDownloadFailure(r: RunResult, db: Loader.DbTable) {
      && r.exit == Crashed(UnboundFinalPath) && r.loaderInput.None? && r.db == db
      && Count(r.trace, AppendKind) == 0
      && |r.trace| >= 4
      && r.trace[|r.trace| - 3] == Log(DownloadFailedEntry)
      && r.trace[|r.trace| - 2].Email? && r.trace[|r.trace| - 2].subject == DownloadFailedSubject
      && r.trace[|r.trace| - 1] == BrowserClose
  }

  /** A logged-in session whose download stage raises before `final_path` is assigned ends with
      the failure entry, the failure mail and the browser close, and as written then dies. */
  lemma SessionDownloadFailure(login: Step, p: Portal, dir: string, load: Loader.LoadResult, db: Loader.DbTable)
    requires login.Ok? && !ReachesFinalPath(p)
    ensures CrashedAfterDownloadFailure(Session(login, p, dir, load, db, AlwaysCallLoader), db)
  {
    var a := TryDownload(p, dir);
    StagedTraceCounts(a);
    var t := StagedTrace(a);
    assert t == [Log(LoginEntry)] + a.events + [Log(DownloadFailedEntry), Email(DownloadFailedSubject, DownloadFailedPrefix + a.failure.value), BrowserClose];
  }

  /** As written: a logged-in run whose download stage raises before `final_path` is assigned
      reports the failure, closes the browser, and then dies calling the loader with the unbound
      `final_path`; nothing is appended. */
  lemma DownloadFailureCrashes(inp: RunInputs, db: Loader.DbTable)
    requires Calendar.Valid(inp.today) && StartupOk(inp) && inp.launch.Ok? && inp.login.Ok?
    requires !ReachesFinalPath(inp.portal)
    ensures CrashedAfterDownloadFailure(Run(inp, db), db)
  {
    AfterLaunch(inp, db, AlwaysCallLoader);
    SessionDownloadFailure(inp.login, inp.portal, ArchiveDirOf(inp), Loader.InsertDataToDb(inp.parsed, db, inp.write), db);
  }

  /** The smallest run that shows the unbound `final_path`: every setting present, the portal up,
      but the dropdown lists only two options. */
  lemma UnboundFinalPathExample(db: Loader.DbTable)
    ensures var mail := Mailer.MailEnv(Some("robot@example.com"), Some("secret"), Some("ops@example.com"));
      var portal := Portal(Ok, true, Ok, 2, Ok, Ok, Ok, Ok, Some("/tmp/dl"), "IVR.xlsx", Ok);
      var inp := RunInputs(mail, Calendar.Date(2025, 3, 1), "/srv/ivr", Ok, Ok, portal,
                           Loader.ParseError("never read"), Loader.WriteOk);
      Run(inp, db).exit == Crashed(UnboundFinalPath)
  {
    var mail := Mailer.MailEnv(Some("robot@example.com"), Some("secret"), Some("ops@example.com"));
    var portal := Portal(Ok, true, Ok, 2, Ok, Ok, Ok, Ok, Some("/tmp/dl"), "IVR.xlsx", Ok);
    var inp := RunInputs(mail, Calendar.Date(2025, 3, 1), "/srv/ivr", Ok, Ok, portal,
                         Loader.ParseError("never read"), Loader.WriteOk);
    assert Calendar.PreviousDay(inp.today) == Some(Calendar.Date(2025, 2, 28));
    assert !ReachesFinalPath(portal);
  }

  /** As written, a failed move still hands the archive path to the loader, after the failure
      mail; the corrected run reports the failure and leaves the database alone. */
  lemma MoveFailureStillCallsLoader(inp: RunInputs, db: Loader.DbTable)
    requires Calendar.Valid(inp.today) && StartupOk(inp) && inp.launch.Ok? && inp.login.Ok?
    requires ReachesFinalPath(inp.portal) && inp.portal.move.Raises?
    ensures var r := Run(inp, db);
      && r.loaderInput == Some(Paths.Join(ArchiveDirOf(inp), inp.portal.suggestedFilename))
      && Email(DownloadFailedSubject, DownloadFailedPrefix + inp.portal.move.error) in r.trace
    ensures var c := RunCorrected(inp, db);
      c.loaderInput.None? && c.db == db && c.exit == Finished
  {
    var dir := ArchiveDirOf(inp);
    var load := Loader.InsertDataToDb(inp.parsed, db, inp.write);
    AfterLaunch(inp, db, AlwaysCallLoader);
    AfterLaunch(inp, db, OnlyAfterDownload);
    SessionOutcome(inp.login, inp.portal, dir, load, db, AlwaysCallLoader);
    SessionOutcome(inp.login, inp.portal, dir, load, db, OnlyAfterDownload);
    SessionTrace(inp.login, inp.portal, dir, load, db, AlwaysCallLoader);
    var a := TryDownload(inp.portal, dir);
    var t := StagedTrace(a);
    var mail := Email(DownloadFailedSubject, DownloadFailedPrefix + inp.portal.move.error);
    assert a.failure == Some(inp.portal.move.error);
    assert t[|t| - 2] == mail;
    assert (t + load.events)[|t| - 2] == mail;
  }

  /** The corrected run differs from the run as written exactly when the browser came up, the
      login succeeded and the download stage raised. */
  lemma CorrectedAgreesOnSuccess(inp: RunInputs, db: Loader.DbTable)
    requires Calendar.Valid(inp.today)
    ensures RunCorrected(inp, db) == Run(inp, db) <==>
      !(StartupOk(inp) && inp.launch.Ok? && inp.login.Ok? && !DownloadSucceeds(inp.portal))
  {
    if StartupOk(inp) && inp.launch.Ok? {
      AfterLaunch(inp, db, AlwaysCallLoader);
      AfterLaunch(inp, db, OnlyAfterDownload);
      SessionPoliciesAgree(inp.login, inp.portal, ArchiveDirOf(inp), Loader.InsertDataToDb(inp.parsed, db, inp.write), db);
    }
  }
}
