/** `main()`: resolve the Toggl workspace, then turn every row of the
    detailed-report CSV into one Clockify `addEntry` request, unless the run
    is a dry run. */
module Migration {
  import opened Wrappers
  import opened Tags
  import opened DateTimes
  import opened Workspaces

  /** The keys of config.json that `main()` reads. */
  datatype Config = Config(
    clockifyApiKey: string,
    clockifyWorkspace: string,
    clockifyAdminEmail: string,
    toggleApiKey: string,
    toggleWorkspace: string,
    from: string,
    to: string,
    dryRun: bool)

  /** Credentials and target of one service; only Clockify has an email. */
  datatype ServiceSettings = ServiceSettings(token: string, workspace: string, email: Option<string>)

  function ClockifySettings(config: Config): ServiceSettings {
    ServiceSettings(config.clockifyApiKey, config.clockifyWorkspace, Some(config.clockifyAdminEmail))
  }

  function ToggleSettings(config: Config): ServiceSettings {
    ServiceSettings(config.toggleApiKey, config.toggleWorkspace, None)
  }

  /** One row of the report as `csv.DictReader` yields it: column name to text. */
  type Row = map<string, string>

  /** The exceptions that end `main()`. */
  datatype Failure =
    | KeyError(key: string)        // a column the row lacks
    | ValueError(cause: ParseError) // a timestamp strptime rejects
    | IndexError                   // no Toggl workspace has the configured name

  /** `row[key]` */
  function Column(row: Row, key: string): Result<string, Failure> {
    if key in row then Ok(row[key]) else Err(KeyError(key))
  }

  /** `strptime(f'{row[dateKey]} {row[timeKey]}', CSV_DATE_TIME_FORMAT)`. */
  function RowTime(row: Row, dateKey: string, timeKey: string): (r: Result<LocalDateTime, Failure>)
    ensures r.Ok? <==> dateKey in row && timeKey in row && ParseDateTime(row[dateKey], row[timeKey]).Ok?
    ensures r.Ok? ==> ParseDateTime(row[dateKey], row[timeKey]) == Ok(r.value) && IsValid(r.value)
    ensures dateKey !in row ==> r == Err(KeyError(dateKey))
    ensures dateKey in row && timeKey !in row ==> r == Err(KeyError(timeKey))
    ensures dateKey in row && timeKey in row && ParseDateTime(row[dateKey], row[timeKey]).Err? ==>
      r == Err(ValueError(ParseDateTime(row[dateKey], row[timeKey]).error))
  {
    var date :- Column(row, dateKey);
    var time :- Column(row, timeKey);
    match ParseDateTime(date, time)
    case Ok(t) => Ok(t)
    case Err(e) => Err(ValueError(e))
  }

  /** What a row yields before the dry-run gate. */
  datatype Converted = Converted(start: LocalDateTime, end: LocalDateTime, tags: seq<string>, billable: bool)

  /** The start, end, tag list and billable flag of a row, or the exception
      computing them raises first. */
  function ConvertRow(row: Row): (r: Result<Converted, Failure>)
    ensures r.Ok? <==>
      RowTime(row, "Start date", "Start time").Ok? && RowTime(row, "End date", "End time").Ok? && "Tags" in row
    ensures r.Ok? ==> r.value.tags == SplitTags(row["Tags"]) && r.value.billable == IsBillable(row["Tags"])
    ensures r.Ok? ==> Ok(r.value.start) == RowTime(row, "Start date", "Start time") &&
                      Ok(r.value.end) == RowTime(row, "End date", "End time")
    ensures RowTime(row, "Start date", "Start time").Err? ==>
      r == Err(RowTime(row, "Start date", "Start time").error)
    ensures RowTime(row, "Start date", "Start time").Ok? && RowTime(row, "End date", "End time").Err? ==>
      r == Err(RowTime(row, "End date", "End time").error)
    ensures RowTime(row, "Start date", "Start time").Ok? && RowTime(row, "End date", "End time").Ok? && "Tags" !in row ==>
      r == Err(KeyError("Tags"))
  {
    var start :- RowTime(row, "Start date", "Start time");
    var end :- RowTime(row, "End date", "End time");
    var tags :- Column(row, "Tags");
    Ok(Converted(start, end, SplitTags(tags), IsBillable(tags)))
  }

  /** The arguments of one `clockify.addEntry(...)` call. */
  datatype AddEntryCall = AddEntryCall(
    start: LocalDateTime,
    description: string,
    projectName: string,
    userMail: Option<string>,
    workspace: string,
    end: LocalDateTime,
    tagNames: seq<string>,
    billable: bool)

  /** The calls one row makes: none on a dry run, one otherwise. */
  function RowCalls(clockify: ServiceSettings, dryRun: bool, row: Row): (r: Result<seq<AddEntryCall>, Failure>)
    ensures r.Ok? <==> ConvertRow(row).Ok? && (dryRun || ("Description" in row && "Project" in row))
    ensures r.Ok? && dryRun ==> r.value == []
    ensures r.Ok? && !dryRun ==>
      |r.value| == 1 &&
      r.value[0].description == row["Description"] && r.value[0].projectName == row["Project"] &&
      r.value[0].tagNames == SplitTags(row["Tags"]) && r.value[0].billable == IsBillable(row["Tags"]) &&
      Ok(r.value[0].start) == RowTime(row, "Start date", "Start time") &&
      Ok(r.value[0].end) == RowTime(row, "End date", "End time") &&
      r.value[0].userMail == clockify.email && r.value[0].workspace == clockify.workspace
    ensures ConvertRow(row).Err? ==> r == Err(ConvertRow(row).error)
    ensures ConvertRow(row).Ok? && !dryRun && "Description" !in row ==> r == Err(KeyError("Description"))
    ensures ConvertRow(row).Ok? && !dryRun && "Description" in row && "Project" !in row ==>
      r == Err(KeyError("Project"))
  {
    var c :- ConvertRow(row);
    if dryRun then Ok([])
    else
      var description :- Column(row, "Description");
      var project :- Column(row, "Project");
      Ok([AddEntryCall(c.start, description, project, clockify.email, clockify.workspace, c.end, c.tags, c.billable)])
  }

  /** How `main()` ends. */
  datatype Outcome = Completed | Aborted(failure: Failure)

  /** The calls a run makes, in order, and how it ends. */
  datatype Log = Log(calls: seq<AddEntryCall>, outcome: Outcome)

  /** What one pass of the loop body does with a row. */
  type RowStep = Row -> Result<seq<AddEntryCall>, Failure>

  /** The loop body of `main()` for the given settings. */
  function Step(clockify: ServiceSettings, dryRun: bool): RowStep {
    row => RowCalls(clockify, dryRun, row)
  }

  /** The row loop: rows in order; the first exception ends the loop and
      the calls already made stay made. */
  function Replay(step: RowStep, rows: seq<Row>): Log {
    if rows == [] then Log([], Completed)
    else match step(rows[0])
      case Err(f) => Log([], Aborted(f))
      case Ok(calls) =>
        var tail := Replay(step, rows[1..]);
        Log(calls + tail.calls, tail.outcome)
  }

  /** Replaying two batches of rows one after the other. */
  lemma {:induction false} ReplayAppend(step: RowStep, first: seq<Row>, second: seq<Row>)
    ensures Replay(step, first + second) ==
      var a := Replay(step, first);
      if a.outcome.Completed? then
        var b := Replay(step, second);
        Log(a.calls + b.calls, b.outcome)
      else a
  {
    if first == [] {
      assert first + second == second;
    } else {
      ReplayAppend(step, first[1..], second);
      assert (first + second)[1..] == first[1..] + second;
      assert (first + second)[0] == first[0];
      var r := step(first[0]);
      if r.Ok? {
        var a, b := Replay(step, first[1..]), Replay(step, second);
        assert r.value + (a.calls + b.calls) == (r.value + a.calls) + b.calls;
      }
    }
  }

  /** A row that succeeds after a completed prefix extends the prefix's calls. */
  lemma ReplayGoesOn(step: RowStep, rows: seq<Row>, i: nat)
    requires i < |rows| && Replay(step, rows[..i]).outcome == Completed && step(rows[i]).Ok?
    ensures Replay(step, rows[..i + 1]) == Log(Replay(step, rows[..i]).calls + step(rows[i]).value, Completed)
  {
    ReplayAppend(step, rows[..i], [rows[i]]);
    assert rows[..i + 1] == rows[..i] + [rows[i]];
    assert [rows[i]][1..] == [];
  }

  /** A row that fails after a completed prefix ends the whole run. */
  lemma ReplayStopsAt(step: RowStep, rows: seq<Row>, i: nat)
    requires i < |rows| && Replay(step, rows[..i]).outcome == Completed && step(rows[i]).Err?
    ensures Replay(step, rows) == Log(Replay(step, rows[..i]).calls, Aborted(step(rows[i]).error))
  {
    ReplayAppend(step, rows[..i], rows[i..]);
    assert rows[..i] + rows[i..] == rows;
    assert rows[i..][0] == rows[i];
  }

  /** The loop completes exactly when every row's step succeeds. */
  lemma {:induction false} CompletedIffEveryRowOk(step: RowStep, rows: seq<Row>)
    ensures Replay(step, rows).outcome == Completed <==> forall i :: 0 <= i < |rows| ==> step(rows[i]).Ok?
  {
    if rows != [] {
      CompletedIffEveryRowOk(step, rows[1..]);
      assert forall i :: 1 <= i < |rows| ==> rows[i] == rows[1..][i - 1];
      if Replay(step, rows).outcome == Completed {
        assert step(rows[0]).Ok?;
      }
    }
  }

  /** The failing row of an aborted run. */
  predicate StoppedAt(step: RowStep, rows: seq<Row>, k: int, log: Log)
    requires log.outcome.Aborted?
  {
    0 <= k < |rows| && step(rows[k]) == Err(log.outcome.failure) &&
    Replay(step, rows[..k]) == Log(log.calls, Completed)
  }

  /** An aborted run stopped at its first failing row `k`: the failure is that
      row's, and the calls are exactly those of the rows before it. */
  lemma {:induction false} AbortsAtFirstFailingRow(step: RowStep, rows: seq<Row>)
    requires Replay(step, rows).outcome.Aborted?
    ensures exists k :: StoppedAt(step, rows, k, Replay(step, rows))
  {
    match step(rows[0])
    case Err(f) =>
      assert rows[..0] == [];
      assert StoppedAt(step, rows, 0, Replay(step, rows));
    case Ok(calls) =>
      AbortsAtFirstFailingRow(step, rows[1..]);
      var k :| StoppedAt(step, rows[1..], k, Replay(step, rows[1..]));
      assert rows[..k + 1][1..] == rows[1..][..k];
      assert rows[..k + 1][0] == rows[0];
      assert rows[k + 1] == rows[1..][k];
      assert StoppedAt(step, rows, k + 1, Replay(step, rows));
  }

  /** If no row yields a call, the run makes none. */
  lemma {:induction false} NoCallsFromSilentSteps(step: RowStep, rows: seq<Row>)
    requires forall row :: step(row).Ok? ==> step(row).value == []
    ensures Replay(step, rows).calls == []
  {
    if rows != [] {
      NoCallsFromSilentSteps(step, rows[1..]);
    }
  }

  /** If every row that succeeds yields one call, a completed run has one
      call per row, in row order. */
  lemma {:induction false} OneCallEach(step: RowStep, rows: seq<Row>)
    requires forall row :: step(row).Ok? ==> |step(row).value| == 1
    requires Replay(step, rows).outcome == Completed
    ensures |Replay(step, rows).calls| == |rows|
    ensures forall i :: 0 <= i < |rows| ==> step(rows[i]) == Ok([Replay(step, rows).calls[i]])
  {
    if rows != [] {
      OneCallEach(step, rows[1..]);
      var calls := Replay(step, rows).calls;
      var tail := Replay(step, rows[1..]).calls;
      var first := step(rows[0]).value;
      assert |first| == 1 && first == [first[0]];
      assert calls == first + tail;
      assert step(rows[0]) == Ok([calls[0]]);
      forall i | 1 <= i < |rows|
        ensures step(rows[i]) == Ok([calls[i]])
      {
        assert rows[i] == rows[1..][i - 1];
        assert calls[i] == tail[i - 1];
      }
    }
  }

  /** A property of every call any row yields holds of every call of the run. */
  lemma {:induction false} EveryCallSatisfies(step: RowStep, rows: seq<Row>, p: AddEntryCall -> bool)
    requires forall row, c :: step(row).Ok? && c in step(row).value ==> p(c)
    ensures forall c :: c in Replay(step, rows).calls ==> p(c)
  {
    if rows != [] {
      EveryCallSatisfies(step, rows[1..], p);
    }
  }

  /** A dry run sends nothing, whatever the rows. */
  lemma DryRunSendsNothing(clockify: ServiceSettings, rows: seq<Row>)
    ensures Replay(Step(clockify, true), rows).calls == []
  {
    forall row | Step(clockify, true)(row).Ok?
      ensures Step(clockify, true)(row).value == []
    {
      assert Step(clockify, true)(row) == RowCalls(clockify, true, row);
    }
    NoCallsFromSilentSteps(Step(clockify, true), rows);
  }

  /** A run that is not dry and completes makes exactly one call per row, in
      row order, each carrying that row's data. */
  lemma OneCallPerRow(clockify: ServiceSettings, rows: seq<Row>)
    requires Replay(Step(clockify, false), rows).outcome == Completed
    ensures |Replay(Step(clockify, false), rows).calls| == |rows|
    ensures forall i :: 0 <= i < |rows| ==>
      RowCalls(clockify, false, rows[i]) == Ok([Replay(Step(clockify, false), rows).calls[i]])
  {
    forall row | Step(clockify, false)(row).Ok?
      ensures |Step(clockify, false)(row).value| == 1
    {
      assert Step(clockify, false)(row) == RowCalls(clockify, false, row);
    }
    OneCallEach(Step(clockify, false), rows);
  }

  /** Every call goes to the configured Clockify workspace on behalf of the
      configured admin email. */
  lemma SameUserAndWorkspace(config: Config, rows: seq<Row>)
    ensures forall c :: c in Replay(Step(ClockifySettings(config), config.dryRun), rows).calls ==>
      c.userMail == Some(config.clockifyAdminEmail) && c.workspace == config.clockifyWorkspace
  {
    var step := Step(ClockifySettings(config), config.dryRun);
    var p := (c: AddEntryCall) => c.userMail == Some(config.clockifyAdminEmail) && c.workspace == config.clockifyWorkspace;
    forall row, c | step(row).Ok? && c in step(row).value
      ensures p(c)
    {
      assert step(row) == RowCalls(ClockifySettings(config), config.dryRun, row);
    }
    EveryCallSatisfies(step, rows, p);
  }

  /** The run as a whole: the workspace lookup comes first, and when it fails
      no row is looked at. */
  function MigrationLog(config: Config, workspaces: seq<Workspace>, rows: seq<Row>): Log {
    match LookupWorkspace(workspaces, ToggleSettings(config).workspace)
    case None => Log([], Aborted(IndexError))
    case Some(_) => Replay(Step(ClockifySettings(config), config.dryRun), rows)
  }

  /** With no workspace of the configured name the run fails with nothing sent. */
  lemma UnknownWorkspaceSendsNothing(config: Config, workspaces: seq<Workspace>, rows: seq<Row>)
    requires forall i :: 0 <= i < |workspaces| ==> workspaces[i].name != config.toggleWorkspace
    ensures MigrationLog(config, workspaces, rows) == Log([], Aborted(IndexError))
  {
  }

  /** The Clockify client, reduced to the requests it has been asked to send. */
  class ClockifyClient {
    var sent: seq<AddEntryCall>

    constructor ()
      ensures sent == []
    {
      sent := [];
    }

    method AddEntry(start: LocalDateTime, description: string, projectName: string, userMail: Option<string>,
                    workspace: string, end: LocalDateTime, tagNames: seq<string>, billable: bool)
      modifies this
      ensures sent == old(sent) + [AddEntryCall(start, description, projectName, userMail, workspace, end, tagNames, billable)]
    {
      sent := sent + [AddEntryCall(start, description, projectName, userMail, workspace, end, tagNames, billable)];
    }
  }

  /** One pass of the loop body: parse the row, then send it unless the run
      is dry. On an exception nothing is sent for the row. */
  method ReplayRow(clockify: ServiceSettings, dryRun: bool, row: Row, client: ClockifyClient, ghost step: RowStep)
    returns (failure: Option<Failure>)
    requires forall row {:trigger RowCalls(clockify, dryRun, row)} :: step(row) == RowCalls(clockify, dryRun, row)
    modifies client
    ensures step(row).Ok? ==> failure == None && client.sent == old(client.sent) + step(row).value
    ensures step(row).Err? ==> failure == Some(step(row).error) && client.sent == old(client.sent)
  {
    assert step(row) == RowCalls(clockify, dryRun, row);
    var start := RowTime(row, "Start date", "Start time");
    if start.Err? {
      return Some(start.error);
    }
    var end := RowTime(row, "End date", "End time");
    if end.Err? {
      return Some(end.error);
    }
    var tagsText := Column(row, "Tags");
    if tagsText.Err? {
      return Some(tagsText.error);
    }
    var tags := SplitTags(tagsText.value);
    var billable := IsBillable(tagsText.value);

    if !dryRun {
      var description := Column(row, "Description");
      if description.Err? {
        return Some(description.error);
      }
      var project := Column(row, "Project");
      if project.Err? {
        return Some(project.error);
      }
      client.AddEntry(start.value, description.value, project.value, clockify.email, clockify.workspace,
                      end.value, tags, billable);
    }
    failure := None;
  }

  /** The `for row in reader` loop; `step` is the loop body as a function,
      `Step(clockify, dryRun)` (the trigger keeps the row computation folded
      up except for the row at hand). */
  method ReplayRows(clockify: ServiceSettings, dryRun: bool, rows: seq<Row>, client: ClockifyClient, ghost step: RowStep)
    returns (outcome: Outcome)
    requires forall row {:trigger RowCalls(clockify, dryRun, row)} :: step(row) == RowCalls(clockify, dryRun, row)
    modifies client
    ensures client.sent == old(client.sent) + Replay(step, rows).calls
    ensures outcome == Replay(step, rows).outcome
  {
    var i := 0;
    while i < |rows|
      invariant 0 <= i <= |rows|
      invariant Replay(step, rows[..i]).outcome == Completed
      invariant client.sent == old(client.sent) + Replay(step, rows[..i]).calls
    {
      var failure := ReplayRow(clockify, dryRun, rows[i], client, step);
      if failure.Some? {
        ReplayStopsAt(step, rows, i);
        return Aborted(failure.value);
      }
      ReplayGoesOn(step, rows, i);
      i := i + 1;
    }
    assert rows[..i] == rows;
    outcome := Completed;
  }

  /** `main()` from the workspace lookup on; `rows` is the detailed report
      Toggl returns for the resolved workspace and the configured dates. */
  method Migrate(config: Config, workspaces: seq<Workspace>, rows: seq<Row>, client: ClockifyClient)
    returns (outcome: Outcome)
    modifies client
    ensures client.sent == old(client.sent) + MigrationLog(config, workspaces, rows).calls
    ensures outcome == MigrationLog(config, workspaces, rows).outcome
  {
    var clockifySettings := ClockifySettings(config);
    var toggleSettings := ToggleSettings(config);
    var wid := LookupWorkspace(workspaces, toggleSettings.workspace);
    if wid.None? {
      return Aborted(IndexError);
    }
    outcome := ReplayRows(clockifySettings, config.dryRun, rows, client, Step(clockifySettings, config.dryRun));
  }
}
