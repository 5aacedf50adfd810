/** The task table that TimerService writes to and reads from: the
    django_celery_beat PeriodicTask rows, keyed by the auto-incremented
    primary key. The table is shared with the rest of the process, so it may
    hold rows that TimerService did not create. */
module Store {
  import opened Wrappers
  import opened Timing
  import opened Args

  /** The callback task every timer schedules (services.py:22). */
  const SendRequestTask: string := "webtask_scheduler.scheduler.tasks.send_request_to_url"

  /** The name column holds at most this many characters. */
  const MaxNameLength: int := 200

  /** One PeriodicTask row: its unique name, the task to run, whether it runs
      once, its JSON-encoded positional arguments, and the instant of its
      ClockedSchedule, which is None for a row on another kind of schedule
      (the clocked foreign key is nullable). */
  datatype PeriodicTask = PeriodicTask(name: string, task: string, oneOff: bool, args: string, clocked: Option<Instant>)

  /** The name set() gives a timer (services.py:21). */
  function TimerName(webUrl: string, runAt: Instant): (r: string)
    ensures |r| == 19 + |webUrl| + (if runAt % MicrosPerSecond == 0 then 25 else 32)
  {
    "Get request to " + webUrl + " at " + IsoUtc(runAt)
  }

  /** The row set() creates for webUrl firing at runAt (services.py:20-26).
      Its arguments are the escaped array ArgsFor, which is the text line 25
      writes whenever the URL has nothing to escape (TimerTaskArgsAsWritten). */
  function TimerTask(webUrl: string, runAt: Instant): (r: PeriodicTask)
    ensures r.name == TimerName(webUrl, runAt)
    ensures r.task == SendRequestTask && r.oneOff && r.clocked == Some(runAt)
    ensures SoleArg(r.args) == Some(webUrl)
  {
    ArgsRoundTrip(webUrl);
    PeriodicTask(TimerName(webUrl, runAt), SendRequestTask, true, ArgsFor(webUrl), Some(runAt))
  }

  /** For a URL with nothing to escape, the row holds exactly the arguments
      line 25 writes, and they read back as the URL. */
  lemma TimerTaskArgsAsWritten(webUrl: string, runAt: Instant)
    requires Plain(webUrl)
    ensures TimerTask(webUrl, runAt).args == RawArgs(webUrl)
    ensures SoleArg(RawArgs(webUrl)) == Some(webUrl)
  {
    RawArgsPlainUrl(webUrl);
  }

  /** The table as a value: its rows by id, and the next id the primary-key
      sequence hands out. */
  datatype Table = Table(rows: map<int, PeriodicTask>, nextId: int)

  /** Ids start at 1 and every id in use was handed out before nextId. */
  ghost predicate WellFormed(t: Table) {
    1 <= t.nextId && forall id :: id in t.rows ==> 1 <= id < t.nextId
  }

  /** Some row already carries this name. */
  predicate NameInUse(t: Table, name: string) {
    exists id :: id in t.rows && t.rows[id].name == name
  }

  /** objects.create: the row goes in under a fresh id, which is returned;
      every other row stays as it was. */
  function Insert(t: Table, row: PeriodicTask): (r: (Table, int))
    requires WellFormed(t)
    ensures WellFormed(r.0)
    ensures r.1 !in t.rows && r.0.rows == t.rows[r.1 := row]
    ensures r.0.rows.Keys == t.rows.Keys + {r.1}
    ensures r.0.nextId == r.1 + 1 && r.1 == t.nextId
  {
    (Table(t.rows[t.nextId := row], t.nextId + 1), t.nextId)
  }

  /** The live table. */
  class TaskTable {
    var rows: map<int, PeriodicTask>
    var nextId: int

    function Value(): Table
      reads this
    {
      Table(rows, nextId)
    }

    ghost predicate Valid()
      reads this
    {
      WellFormed(Value())
    }

    constructor ()
      ensures Valid() && rows == map[] && nextId == 1
    {
      rows := map[];
      nextId := 1;
    }

    /** PeriodicTask.objects.create(...) together with its ClockedSchedule. */
    method Create(row: PeriodicTask) returns (id: int)
      requires Valid()
      modifies this
      ensures Valid()
      ensures (Value(), id) == Insert(old(Value()), row)
    {
      id := nextId;
      rows := rows[id := row];
      nextId := nextId + 1;
    }

    /** The uniqueness check on the name column, made before a row is saved. */
    method HasName(name: string) returns (taken: bool)
      ensures taken <==> exists id :: id in rows && rows[id].name == name
    {
      taken := exists id :: id in rows && rows[id].name == name;
    }

    /** PeriodicTask.objects.get(id=id): the row, or None where Django raises
        DoesNotExist. */
    method Lookup(id: int) returns (r: Option<PeriodicTask>)
      ensures r.Some? <==> id in rows
      ensures r.Some? ==> r.value == rows[id]
    {
      if id in rows {
        r := Some(rows[id]);
      } else {
        r := None;
      }
    }
  }
}
