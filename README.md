# Timer service of the web-task scheduler, in Dafny

The scheduler lets a caller ask for "POST to this URL after H hours, M minutes
and S seconds" and later ask how much time is left before that callback fires.
This project models `TimerService` from
`webtask_scheduler/scheduler/services.py`, which holds all of the logic:

- `set(hours, minutes, seconds, web_url)` reads the clock once and computes
  the fire instant `now + timedelta(hours, minutes, seconds)`. It then writes
  one one-off `PeriodicTask` row under a fresh id. The row carries:
  - the name `Get request to <url> at <fire instant>`;
  - the send-request task;
  - the `ClockedSchedule` instant;
  - the argument list `["<url>"]`.
  It returns the id and the time left, rounded to one decimal.
- `get(task_id)` looks the row up and fails with a not-found error if it is
  absent. Otherwise it returns the id and the time left, rounded to one
  decimal and clamped at zero.

Modelling choices:

- Instants are whole microseconds since the Unix epoch (`Timing.Instant`), the
  resolution of Python's `datetime`. The clock is a parameter `now` of each
  operation.
- The time left that callers see is a whole number of tenths of a second.
  `round(x, 1)` is `Timing.RoundTenths`, which rounds half to even.
- Python raises `OverflowError` in two cases: a `timedelta` would span more
  than 999999999 days, or `now + delay` leaves the `datetime` range (years 1
  to 9999). `Timing.FireAt` returns these as errors.
- The row name is rendered as `str()` renders a UTC `datetime`:
  `YYYY-MM-DD HH:MM:SS`, then `.ffffff` only when the microseconds are not
  zero, then `+00:00` (`Timing.IsoUtc`). The name column is unique and holds
  at most 200 characters. So `set` fails when a row with the same name
  exists, which happens for the same URL at the same fire instant. It also
  fails when the name is longer than 200 characters. In both cases the
  `PeriodicTask` row is not written.
- The arguments column holds a JSON array. The beat scheduler decodes it
  before it calls the task (`Args.SoleArg`, a reader of an array of one JSON
  string, as section 7 of RFC 8259 defines strings). See "## Findings" for
  what line 25 writes.
- The clocked schedule of a row is `Option<Instant>`. The task table is
  shared with the rest of the process, and its `clocked` foreign key is
  nullable. For a row with no clocked schedule, `get` fails at line 47 (an
  `AttributeError`), which the model reports as `NotClocked`.
- The task table is the class `Store.TaskTable`: a map from id to row, plus
  the next id of the primary-key sequence. `Store.Table` is its value.
  `Services.SetOutcome` and `Services.GetOutcome` are the pure
  specifications. The methods `Services.TimerService.Set` and
  `Services.TimerService.Get` are proved against them.

Modules:

- `Wrappers`: Option and Result.
- `Timing`: the delay, the rendering of instants, rounding and clamping.
- `Args`: the JSON argument list.
- `Store`: rows and the table.
- `Services`: the service and its properties.

On negative delays, the model follows the code. The view test
`webtask_scheduler/scheduler/tests/test_views.py:78-92` expects a 400 response
for negative fields. But `webtask_scheduler/scheduler/serializers.py:5-7`
declares plain integer fields without a minimum, and `set` checks nothing. So
`set` accepts any integers here:

- With a negative delay, `set` reports a negative time left, because it does
  not clamp.
- A `get` at the same instant reports 0 (`Timing.SetThenGetAgree`,
  `Services.GetAfterSet`).

## Model

| member | source | states |
|---|---|---|
| `Timing.FireAt` | webtask_scheduler/scheduler/services.py:18-19 | the fire instant is `now` plus exactly `hours*3600 + minutes*60 + seconds` seconds; it is an overflow error exactly when the delay exceeds 999999999 days or the instant leaves the datetime range, and the error says which |
| `Timing.Digits` | webtask_scheduler/scheduler/services.py:21 | a zero-padded field of the rendered instant has exactly the requested width and holds decimal digits only |
| `Timing.IsoUtc` | webtask_scheduler/scheduler/services.py:21 | the rendered fire instant is 25 characters long, or 32 when it has a fractional second |
| `Timing.IsoUtcExample` | webtask_scheduler/scheduler/tests/test_views.py:106-124 | the instant one hour after 2024-05-31T01:24:00Z renders as `2024-05-31 02:24:00+00:00` |
| `Timing.RoundTenths` | webtask_scheduler/scheduler/services.py:47 | the result is within half a tenth of the duration, and even at an exact half (round half to even to one decimal) |
| `Timing.RoundTenthsUnique` | webtask_scheduler/scheduler/services.py:47 | any correctly rounded value is the one `RoundTenths` gives |
| `Timing.RoundTenthsExact` | webtask_scheduler/scheduler/services.py:28 | a whole number of tenths is reported exactly |
| `Timing.RoundTenthsMonotone` | webtask_scheduler/scheduler/services.py:47 | rounding preserves the order of durations |
| `Timing.RoundTenthsShift` | webtask_scheduler/scheduler/services.py:47 | shifting a duration by an even number of tenths shifts its rounding by the same amount |
| `Timing.TimeLeft` | webtask_scheduler/scheduler/services.py:46-49 | the time left is never negative; it is 0 exactly when at most half a tenth remains, so always once the fire instant has passed; otherwise it is the correctly rounded remaining time |
| `Timing.TimeLeftNonIncreasing` | webtask_scheduler/scheduler/services.py:46-49 | a later reading never reports more time left |
| `Timing.TimeLeftElapsed` | webtask_scheduler/scheduler/services.py:46-49 | while time is left, waiting k whole seconds lowers it by exactly k seconds |
| `Timing.SetThenGetAgree` | webtask_scheduler/scheduler/services.py:18-28 | the time left that set returns is exactly the requested delay, because the same `now` is added and subtracted; the clamped time left at that instant equals it exactly when the delay is not negative |
| `Args.EscapeRoundTrip` | webtask_scheduler/scheduler/services.py:25 | decoding the JSON string body written for any text gives back exactly that text |
| `Args.ArgsRoundTrip` | webtask_scheduler/scheduler/services.py:25 | the argument array written for any URL decodes to exactly that URL |
| `Args.EscapePlain` | webtask_scheduler/scheduler/services.py:25 | a text with no quotation mark, reverse solidus or control character is written unchanged |
| `Args.RawArgsPlainUrl` | webtask_scheduler/scheduler/services.py:25 | for such a URL, the array line 25 writes is the correct one and decodes to the URL |
| `Args.UnescapePlainPrefix` | webtask_scheduler/scheduler/services.py:25 | a decoder reading text that starts with such a prefix keeps the prefix and then reads the rest as it would alone |
| `Args.RawArgsQuoteCounterexample` | webtask_scheduler/scheduler/services.py:25 | a URL whose first character needing escape is a quotation mark gives an array that does not decode, for example `https://e.com/?q="x"` |
| `Args.RawArgsBackslashCounterexample` | webtask_scheduler/scheduler/services.py:25 | a URL holding a reverse solidus followed by `n` decodes to a different text, with a line break in its place |
| `Args.ArgsExample` | webtask_scheduler/scheduler/tests/test_views.py:126 | the argument list for `https://example.com` is `["https://example.com"]` |
| `Store.TimerName` | webtask_scheduler/scheduler/services.py:21 | a timer's name is 19 characters plus the URL plus the 25 or 32 characters of the fire instant |
| `Store.TimerTask` | webtask_scheduler/scheduler/services.py:20-26 | the new row is named from the URL and the fire instant; it runs the send-request task, once, at the given instant; its arguments decode to the URL |
| `Store.TimerTaskArgsAsWritten` | webtask_scheduler/scheduler/services.py:25 | for a URL with no quotation mark, reverse solidus or control character, the stored arguments are exactly line 25's text, and that text decodes to the URL |
| `Store.Insert` | webtask_scheduler/scheduler/services.py:20-26 | a created row gets an id not in use, every other row is kept, exactly one key is added, and the id invariant is preserved |
| `Store.TaskTable.Create` | webtask_scheduler/scheduler/services.py:20-26 | the live table changes exactly as `Insert` says, and the returned id is the one allocated |
| `Store.TaskTable.HasName` | webtask_scheduler/scheduler/services.py:20-21 | the uniqueness check answers yes exactly when some row already carries the name |
| `Store.TaskTable.Lookup` | webtask_scheduler/scheduler/services.py:41 | the row is returned exactly when the id is present; otherwise the result is "does not exist" |
| `Services.SetOutcome` | webtask_scheduler/scheduler/services.py:12-34 | set succeeds exactly when the delay does not overflow, no row has the timer's name, and the name fits the column; every failure leaves the table unchanged, and an overflow is reported as such; on success exactly one row is added, under the next id, which is returned, holding the URL and `now + delay`, and the reported time left is the delay in tenths |
| `Services.GetOutcome` | webtask_scheduler/scheduler/services.py:36-55 | not-found, carrying the id, exactly when the id is absent; the no-clocked-schedule error exactly when the row has none; otherwise the requested id is echoed with a non-negative time left, the clamped rounding of what remains, which is 0 once the fire instant has passed |
| `Services.GetAfterSet` | webtask_scheduler/scheduler/services.py:18-49 | a get at the set's instant returns exactly what set returned iff the delay is not negative; k seconds later it reports no more, exactly k seconds less while positive, and 0 once k reaches the delay |
| `Services.SetKeepsOtherAnswers` | webtask_scheduler/scheduler/services.py:20-26 | set changes get's answer for no id other than the one it allocates, at any instant |
| `Services.SetSameTimerTwiceFails` | webtask_scheduler/scheduler/services.py:20-26 | once a timer for a URL and a fire instant exists, another set for the same URL and instant fails on the name and leaves the table unchanged |
| `Services.Replay` | webtask_scheduler/scheduler/services.py:20-26 | any sequence of set calls keeps the table's id invariant and never moves the id sequence back |
| `Services.ReplayKeepsRows` | webtask_scheduler/scheduler/services.py:20-26 | after any sequence of set calls, every existing row is unchanged (fire instants are never recomputed), and get answers as before for it |
| `Services.ReplayAllocatesFreshIds` | webtask_scheduler/scheduler/services.py:20-26 | ids are never reused: after any sequence of set calls, the ids in use are exactly the old ones plus those handed out since, all from the old next id on |
| `Services.TimerService.Set` | webtask_scheduler/scheduler/services.py:12-34 | the live table and the result are exactly those of `SetOutcome` on the previous table |
| `Services.TimerService.Get` | webtask_scheduler/scheduler/services.py:36-55 | the result is `GetOutcome` on the table: not-found iff the id is absent, else the id and the clamped, rounded time left; the table is not modified |
| `Services.Scenario` | webtask_scheduler/scheduler/tests/test_services.py:21-57 | on a fresh table, a one-minute timer set at 2024-05-31T01:24:00Z reports 60 s from set and from get at that instant; id 999999 is not found |
| `Services.ExpiredScenario` | webtask_scheduler/scheduler/tests/test_views.py:26-56 | a one-minute timer set at 2024-05-30T01:24:00Z reports 0 when read at 2024-05-31T01:24:00Z |
| `Services.CreateScenario` | webtask_scheduler/scheduler/tests/test_views.py:106-127 | a one-hour timer set at 2024-05-31T01:24:00Z reports 3600 s and writes a one-off send-request row named after the URL and the rendered fire instant, whose arguments are `["https://example.com"]` |
| `Services.TimerTaskExample` | webtask_scheduler/scheduler/tests/test_views.py:119-127 | the row set writes for `https://example.com` firing at 2024-05-31T02:24:00Z has the name, task, one-off flag, arguments and instant the view test checks |

## Findings

| source | as written | input that shows it | evidently intended | confidence | as-written member | corrected member |
|---|---|---|---|---|---|---|
| webtask_scheduler/scheduler/services.py:25 | the URL is placed between `["` and `"]` without JSON escaping | `https://e.com/?q="x"` gives an array that is not valid JSON; `https://e.com/a\nb`, with a reverse solidus, reads back with a line break instead | a JSON array holding exactly the URL | medium, not executed | `Args.RawArgsQuoteCounterexample` | `Args.ArgsRoundTrip` |

The corrected member is the one the rest of the model uses: `Store.TimerTask`
writes `Args.ArgsFor`, which escapes (see the `Store.TimerTask` line under
"## Left out"). `Args.RawArgs` is the code as written.
`Args.RawArgsBackslashCounterexample` is the second half of the same row.
`Args.RawArgsPlainUrl` shows that the two agree on URLs with nothing to
escape, which covers every URL in the tests.

## Left out

- Firing the callback is left out. Celery beat runs the `PeriodicTask` rows, and `tasks.py` (`send_request_to_url`) makes the HTTP POST. Both are outside `services.py` and are network I/O.
- The HTTP layer is left out: `views.py`, `serializers.py`, `urls.py`, `config/api_router.py` and the mapping of not-found to a 404 response. It is request plumbing. The draft views do not call `TimerService`.
- `webtask_scheduler/users/*` is left out. It is authentication boilerplate.
- Logging calls are left out. They are I/O and have no effect on results.
- `ClockedSchedule` rows are not a separate table here. Each row carries its clocked instant, or None. Line 24 creates the `ClockedSchedule` row before the `PeriodicTask` row. When the `PeriodicTask` insert then fails on its name, that orphan schedule row stays behind. The model does not record it.
- A failed insert may consume a value of the database's id sequence. The model hands out the next id only on success. The model's ids are therefore dense, while the database's may have gaps. Freshness and uniqueness are the same in both.
- The exact exceptions are not modelled, only which failure occurs. For a name in use, Django's validation raises `ValidationError`, or the database raises `IntegrityError`. For a name that is too long, PostgreSQL raises `DataError`. SQLite does not enforce the length at all.
- Services.SetOutcome: checks the name before its length, as Django validates uniqueness before the database checks the column width.
- Store.TimerTask: stores the escaped array `Args.ArgsFor`, the corrected half of the finding, not the text `Args.RawArgs` that line 25 writes. The two are equal whenever the URL has no quotation mark, reverse solidus or control character (`Store.TimerTaskArgsAsWritten`), which covers every URL in the tests. For any other URL the stored arguments differ from the source's.
- Services.SetOutcome: through `Store.TimerTask`, describes the program with escaped arguments. For a URL with a character to escape, the row it adds differs from the source's in its arguments.
- Services.TimerService.Set: is proved against `Services.SetOutcome`, so it writes the escaped arguments too.
- Args.SoleArg: accepts only the compact form `["…"]` that line 25 writes. It does not accept whitespace inside the array, or arrays of other shapes, which a full JSON decoder would accept.
- Args.Unescape: refuses every `\u` escape that names a surrogate. Python's decoder combines a high and low surrogate pair into one character and keeps a lone surrogate as it is, which a Dafny `char` cannot hold. So the text line 25 writes for a URL containing `\ud800` decodes in Python but not here. No escaped form that `Args.Escape` writes contains a `\u` surrogate.
- Timing.IsoUtc: the date text assumes a year from 1 to 9999, which `Timing.FireAt` guarantees for every fire instant. Its agreement with Python's `datetime` rendering is shown on the view test's instant (`Timing.IsoUtcExample`), not proved for all instants.
- Durability, concurrent access to the database, and storage failures are left out. A storage failure would propagate out of `set` or `get`.
- Timing.RoundTenths: rounds the exact microsecond value half to even. Python rounds the `float` that `total_seconds()` returns. At decimal ties that a binary float cannot hold exactly, the two can differ by one tenth. For example, 0.35 s rounds to 0.3 in Python but to 4 tenths here. For durations of 2^34 s (about 544 years) or more, half the float spacing exceeds one microsecond, so values that are not ties can round differently in `get` too. Durations in whole seconds are the same in both, because every such duration a `timedelta` can hold is an exact float. That covers everything `set` reports.
- Services.GetOutcome: reports time left in tenths of a second. The source returns a `float`, or the integer 0 when it clamps. The `-0.0` that Python can produce for tiny negative durations becomes 0 here.
