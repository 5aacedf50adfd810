/** TimerService (webtask_scheduler/scheduler/services.py): set() schedules a
    one-off callback after a delay and reports the time left; get() reports
    the time left of a scheduled callback, or that there is no such task.
    The clock is a parameter: each call reads it once, as `now`. */
module Services {
  import opened Wrappers
  import opened Timing
  import opened Args
  import opened Store

  /** The dictionary both operations return: the task id and the time left,
      in tenths of a second. */
  datatype TimerData = TimerData(taskId: int, timeLeftTenths: int)

  /** The exceptions set() lets through: OverflowError from the delay
      arithmetic; the validation error for a name already in use; the
      database error for a name longer than the column allows. */
  datatype SetError =
    | DelayOverflow(overflow: Overflow)
    | NameTaken(name: string)
    | NameTooLong(length: int)

  /** The exceptions get() raises: ValueError for an id with no row
      (services.py:44), and AttributeError for a row with no clocked
      schedule, whose clocked_time line 47 cannot read. */
  datatype GetError = TaskNotFound(taskId: int) | NotClocked(taskId: int)

  /** One call of set(hours, minutes, seconds, web_url) at clock reading now. */
  datatype SetRequest = SetRequest(hours: int, minutes: int, seconds: int, webUrl: string, now: Instant)

  function Delay(req: SetRequest): int {
    DelaySeconds(req.hours, req.minutes, req.seconds)
  }

  /** The fire instant of a request whose delay arithmetic does not overflow. */
  function RunAt(req: SetRequest): Instant
    requires Representable(req.now) && FireAt(req.hours, req.minutes, req.seconds, req.now).Ok?
  {
    FireAt(req.hours, req.minutes, req.seconds, req.now).value
  }

  /** What set() does to the table and what it returns. It succeeds exactly
      when the delay arithmetic does not overflow and the timer's name is
      free and fits the column; on any failure no row is written. On success
      one new row, under the next id of the sequence, holds the URL and the
      fire instant now + delay, and the reported time left is the delay
      itself, unclamped. */
  function SetOutcome(t: Table, req: SetRequest): (r: (Table, Result<TimerData, SetError>))
    requires WellFormed(t) && Representable(req.now)
    ensures WellFormed(r.0)
    ensures r.1.Ok? <==>
      && FireAt(req.hours, req.minutes, req.seconds, req.now).Ok?
      && !NameInUse(t, TimerName(req.webUrl, RunAt(req)))
      && |TimerName(req.webUrl, RunAt(req))| <= MaxNameLength
    ensures r.1.Err? ==> r.0 == t
    ensures FireAt(req.hours, req.minutes, req.seconds, req.now).Err? ==>
      r.1 == Err(DelayOverflow(FireAt(req.hours, req.minutes, req.seconds, req.now).error))
    ensures r.1.Ok? ==>
      && r.1.value.taskId !in t.rows
      && r.1.value.taskId == t.nextId && r.0.nextId == t.nextId + 1
      && r.0.rows == t.rows[r.1.value.taskId := TimerTask(req.webUrl, RunAt(req))]
      && RunAt(req) == req.now + Delay(req) * MicrosPerSecond
      && r.1.value.timeLeftTenths == Delay(req) * TenthsPerSecond
  {
    match FireAt(req.hours, req.minutes, req.seconds, req.now)
    case Err(e) => (t, Err(DelayOverflow(e)))
    case Ok(runAt) =>
      var row := TimerTask(req.webUrl, runAt);
      if NameInUse(t, row.name) then (t, Err(NameTaken(row.name)))
      else if |row.name| > MaxNameLength then (t, Err(NameTooLong(|row.name|)))
      else
        var (t', id) := Insert(t, row);
        SetThenGetAgree(req.hours, req.minutes, req.seconds, req.now);
        (t', Ok(TimerData(id, RoundTenths(runAt - req.now))))
  }

  /** What get() returns: not-found for an absent id, the attribute error for
      a row without a clocked schedule, and otherwise the id with the rounded
      time left, clamped at zero. */
  function GetOutcome(t: Table, taskId: int, now: Instant): (r: Result<TimerData, GetError>)
    ensures r == Err(TaskNotFound(taskId)) <==> taskId !in t.rows
    ensures r == Err(NotClocked(taskId)) <==> taskId in t.rows && t.rows[taskId].clocked.None?
    ensures r.Err? ==> r.error.taskId == taskId
    ensures r.Ok? ==> r.value.taskId == taskId && r.value.timeLeftTenths >= 0
    ensures r.Ok? ==> r.value.timeLeftTenths == TimeLeft(t.rows[taskId].clocked.value, now)
    ensures r.Ok? && now >= t.rows[taskId].clocked.value ==> r.value.timeLeftTenths == 0
  {
    if taskId !in t.rows then Err(TaskNotFound(taskId))
    else if t.rows[taskId].clocked.None? then Err(NotClocked(taskId))
    else Ok(TimerData(taskId, TimeLeft(t.rows[taskId].clocked.value, now)))
  }

  /** A get() at the instant of the set() reports the time left that set()
      returned, when the delay is not negative; k whole seconds later it
      reports k seconds less, until it reaches zero. */
  lemma GetAfterSet(t: Table, req: SetRequest, k: nat)
    requires WellFormed(t) && Representable(req.now) && SetOutcome(t, req).1.Ok?
    ensures var (t', r) := SetOutcome(t, req);
      GetOutcome(t', r.value.taskId, req.now) == Ok(r.value) <==> Delay(req) >= 0
    ensures var (t', r) := SetOutcome(t, req);
      var later := GetOutcome(t', r.value.taskId, req.now + k * MicrosPerSecond).value.timeLeftTenths;
      && later <= GetOutcome(t', r.value.taskId, req.now).value.timeLeftTenths
      && (later > 0 ==> later == r.value.timeLeftTenths - k * TenthsPerSecond)
      && (Delay(req) <= k ==> later == 0)
  {
    var (t', r) := SetOutcome(t, req);
    var runAt := req.now + Delay(req) * MicrosPerSecond;
    SetThenGetAgree(req.hours, req.minutes, req.seconds, req.now);
    TimeLeftNonIncreasing(runAt, req.now, req.now + k * MicrosPerSecond);
    if TimeLeft(runAt, req.now + k * MicrosPerSecond) > 0 {
      TimeLeftElapsed(runAt, req.now, k);
    }
  }

  /** set() leaves every other id's answer to get() as it was, at any instant:
      an id it did not allocate is still found or still not found. */
  lemma SetKeepsOtherAnswers(t: Table, req: SetRequest, taskId: int, now: Instant)
    requires WellFormed(t) && Representable(req.now)
    requires SetOutcome(t, req).1.Ok? ==> taskId != SetOutcome(t, req).1.value.taskId
    ensures GetOutcome(SetOutcome(t, req).0, taskId, now) == GetOutcome(t, taskId, now)
  {
  }

  /** Once set() has scheduled a URL for an instant, another set() for the
      same URL and the same fire instant (the same call again, or a shorter
      delay asked for later) fails on the name and writes nothing. */
  lemma SetSameTimerTwiceFails(t: Table, first: SetRequest, second: SetRequest)
    requires WellFormed(t) && Representable(first.now) && Representable(second.now)
    requires SetOutcome(t, first).1.Ok?
    requires FireAt(second.hours, second.minutes, second.seconds, second.now).Ok?
    requires second.webUrl == first.webUrl && RunAt(second) == RunAt(first)
    ensures var t' := SetOutcome(t, first).0;
      SetOutcome(t', second) == (t', Err(NameTaken(TimerName(first.webUrl, RunAt(first)))))
  {
    var (t', r) := SetOutcome(t, first);
    assert t'.rows[r.value.taskId].name == TimerName(first.webUrl, RunAt(first));
  }

  /** The table after a sequence of set() calls, failed ones included. */
  function Replay(t: Table, reqs: seq<SetRequest>): (r: Table)
    requires WellFormed(t)
    requires forall i :: 0 <= i < |reqs| ==> Representable(reqs[i].now)
    ensures WellFormed(r) && t.nextId <= r.nextId
    decreases |reqs|
  {
    if reqs == [] then t else Replay(SetOutcome(t, reqs[0]).0, reqs[1..])
  }

  /** Fire instants are never recomputed: after any sequence of set() calls,
      every task that existed keeps its row, so get() on it answers as
      before. */
  lemma {:induction false} ReplayKeepsRows(t: Table, reqs: seq<SetRequest>, taskId: int, now: Instant)
    requires WellFormed(t)
    requires forall i :: 0 <= i < |reqs| ==> Representable(reqs[i].now)
    requires taskId in t.rows
    ensures taskId in Replay(t, reqs).rows && Replay(t, reqs).rows[taskId] == t.rows[taskId]
    ensures GetOutcome(Replay(t, reqs), taskId, now) == GetOutcome(t, taskId, now)
    decreases |reqs|
  {
    if reqs != [] {
      var t' := SetOutcome(t, reqs[0]).0;
      ReplayKeepsRows(t', reqs[1..], taskId, now);
    }
  }

  /** Ids are never reused: after any sequence of set() calls, the ids in use
      are the old ones plus exactly the ids the sequence handed out since,
      all of them above every old id. */
  lemma {:induction false} ReplayAllocatesFreshIds(t: Table, reqs: seq<SetRequest>, taskId: int)
    requires WellFormed(t)
    requires forall i :: 0 <= i < |reqs| ==> Representable(reqs[i].now)
    ensures taskId in Replay(t, reqs).rows <==> taskId in t.rows || t.nextId <= taskId < Replay(t, reqs).nextId
    decreases |reqs|
  {
    if reqs != [] {
      var (t', r) := SetOutcome(t, reqs[0]);
      assert Replay(t, reqs) == Replay(t', reqs[1..]);
      ReplayAllocatesFreshIds(t', reqs[1..], taskId);
      if r.Ok? {
        assert taskId in t'.rows <==> taskId in t.rows || taskId == t.nextId;
        assert t'.nextId == t.nextId + 1;
      } else {
        assert t' == t;
      }
    }
  }

  /** The service, over the table it shares with the rest of the process. */
  class TimerService {
    const table: TaskTable

    constructor (table: TaskTable)
      ensures this.table == table
    {
      this.table := table;
    }

    /** set(hours, minutes, seconds, web_url) with the clock reading now
        (services.py:12-34). */
    method Set(hours: int, minutes: int, seconds: int, webUrl: string, now: Instant)
      returns (r: Result<TimerData, SetError>)
      requires table.Valid() && Representable(now)
      modifies table
      ensures table.Valid()
      ensures (table.Value(), r) == SetOutcome(old(table.Value()), SetRequest(hours, minutes, seconds, webUrl, now))
    {
      var fire := FireAt(hours, minutes, seconds, now);
      if fire.Err? {
        return Err(DelayOverflow(fire.error));
      }
      var runAt := fire.value;
      var row := TimerTask(webUrl, runAt);
      var taken := table.HasName(row.name);
      if taken {
        return Err(NameTaken(row.name));
      }
      if |row.name| > MaxNameLength {
        return Err(NameTooLong(|row.name|));
      }
      var id := table.Create(row);
      var timeLeft := RoundTenths(runAt - now);
      r := Ok(TimerData(id, timeLeft));
    }

    /** get(task_id) with the clock reading now (services.py:36-55). It
        changes nothing. */
    method Get(taskId: int, now: Instant) returns (r: Result<TimerData, GetError>)
      ensures r == GetOutcome(table.Value(), taskId, now)
      ensures r == Err(TaskNotFound(taskId)) <==> taskId !in table.rows
      ensures r.Ok? ==>
        r.value.taskId == taskId && r.value.timeLeftTenths == TimeLeft(table.rows[taskId].clocked.value, now)
    {
      var row := table.Lookup(taskId);
      if row.None? {
        return Err(TaskNotFound(taskId));
      }
      if row.value.clocked.None? {
        return Err(NotClocked(taskId));
      }
      var timeLeft := RoundTenths(row.value.clocked.value - now);
      if timeLeft < 0 {
        timeLeft := 0;
      }
      r := Ok(TimerData(taskId, timeLeft));
    }
  }

  /** 2024-05-31T01:24:00Z and 2024-05-30T01:24:00Z. */
  const May31At0124: Instant := 1_717_118_640 * MicrosPerSecond
  const May30At0124: Instant := 1_717_032_240 * MicrosPerSecond

  /** The service tests, on a fresh table: a one-minute timer set at
      May31At0124 reports 60 seconds, both from set() and from a get() at the
      same instant; an id never handed out is not found. */
  method Scenario() returns (created: Result<TimerData, SetError>, same: Result<TimerData, GetError>,
                             unknown: Result<TimerData, GetError>)
    ensures created == Ok(TimerData(1, 600)) && same == Ok(TimerData(1, 600))
    ensures unknown == Err(TaskNotFound(999_999))
  {
    var table := new TaskTable();
    var service := new TimerService(table);
    created := service.Set(0, 1, 0, "https://example.com", May31At0124);
    same := service.Get(1, May31At0124);
    unknown := service.Get(999_999, May31At0124);
  }

  /** The expired-timer view test: a one-minute timer created at May30At0124
      reports 0 when read a day later. */
  method ExpiredScenario() returns (expired: Result<TimerData, GetError>)
    ensures expired == Ok(TimerData(1, 0))
  {
    var table := new TaskTable();
    var service := new TimerService(table);
    var created := service.Set(0, 1, 0, "https://example.com", May30At0124);
    expired := service.Get(1, May31At0124);
  }

  /** The create-task view test: a one-hour timer set at May31At0124 reports
      3600 seconds and writes a one-off row for the send-request task whose
      name renders the fire instant and whose arguments are the JSON list of
      the URL. */
  method CreateScenario() returns (created: Result<TimerData, SetError>, row: Option<PeriodicTask>)
    ensures created == Ok(TimerData(1, 36_000))
    ensures row == Some(PeriodicTask(
      "Get request to " + "https://example.com" + " at " + "2024-05-31 02:24:00+00:00",
      SendRequestTask, true, "[\"https://example.com\"]", Some(May31At0124 + 3600 * MicrosPerSecond)))
  {
    var table := new TaskTable();
    var service := new TimerService(table);
    created := service.Set(1, 0, 0, "https://example.com", May31At0124);
    TimerTaskExample("https://example.com", May31At0124 + 3600 * MicrosPerSecond);
    row := table.Lookup(1);
  }

  /** The name and the arguments of the row the create-task view test
      inspects. The URL and the instant are parameters so that the verifier
      does not unfold the string functions on literals. */
  lemma TimerNameExample(webUrl: string, runAt: Instant)
    requires webUrl == "https://example.com" && runAt == May31At0124 + 3600 * MicrosPerSecond
    ensures TimerName(webUrl, runAt) == "Get request to " + webUrl + " at " + "2024-05-31 02:24:00+00:00"
  {
    assert runAt == 1_717_122_240 * MicrosPerSecond;
    IsoUtcExample();
  }

  /** The row the create-task view test inspects. */
  lemma TimerTaskExample(webUrl: string, runAt: Instant)
    requires webUrl == "https://example.com" && runAt == May31At0124 + 3600 * MicrosPerSecond
    ensures TimerTask(webUrl, runAt) == PeriodicTask(
      "Get request to " + "https://example.com" + " at " + "2024-05-31 02:24:00+00:00",
      SendRequestTask, true, "[\"https://example.com\"]", Some(runAt))
  {
    TimerNameExample(webUrl, runAt);
    ArgsExample(webUrl);
  }
}
