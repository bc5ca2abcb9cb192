# Exam-slot searcher: the scheduling core in Dafny

The searcher watches a fixed list of (exam date, address) combinations. A
pool of browser workers probes each combination. When time slots are found,
one ntfy notification is sent. A combination found recently is not probed
again until its TTL has elapsed. A distributor feeds every task to the pool:
once at start, then again on every tick, until cancellation closes the
channel.

This project models that scheduling core as immutable datatypes and pure
functions. The browser becomes an abstract `Page`: the set of page
interactions that would succeed on a given visit. Clock readings and the
screenshot path are parameters of a `Visit`. Time is integer nanoseconds
since the Unix epoch, and a duration is integer nanoseconds, like Go's
`time.Duration`.

Modules, one per file:

- `Wrappers` (`wrappers.dfy`): `Option` and `Result`.
- `GoStrings` (`gostrings.dfy`): the parts of `strings` and `strconv` the
  core uses. These are `TrimSpace`, `Split` and `Join` with a one-character
  separator, and `Itoa`. `ParseDecimal` is the independent inverse of `Itoa`.
- `Model` (`model.dfy`): the `Task`, `Notification` and `Config` records,
  the int64 bounds, and Go's zero `time.Time`.
- `Tasks` (`tasks.dfy`): `createTasks`, splitting the configuration
  strings, and `getBrowserInstanceCount`.
- `Worker` (`worker.dfy`): the freshness test, including the saturation of
  `Time.Sub`. Also the abstract probe, one iteration of the `runBrowser`
  loop, and the process-wide `sync.Once` around the token refresh.
- `Pool` (`pool.dfy`): the workers run in sequence over the task pointers
  they receive. This module holds the theorem that notifications for the
  same task are at least one TTL apart.
- `Ticker` (`ticker.dfy`): `taskTicker` as a trace of channel sends and the
  final close, or the panic of `time.NewTicker` when the configured
  interval is not positive.
- `Cookies` (`cookies.dfy`): `findCookieValue`.
- `Ntfy` (`ntfy.dfy`): the request `SendNotification` builds, and how it
  classifies the outcome.

Notes on what the code does, which the model follows:

- The refresh gate is the code's `sync.Once`. It is single-shot for the
  whole process, not a gate that resets after each refresh. After the first
  refresh, a later authorization prompt only re-installs the same cookie and
  reloads the page (main.go:155-161). Besides the startup refresh at
  main.go:68, the refresh through the shared once runs at most once, which
  `Pool.RunPool` proves.
- When the authorization prompt appears, the probe is not restarted from the
  top. The worker reloads the page and continues with the same iteration.
- The code does not keep one owner per task. Each tick re-sends every task
  pointer, even one still queued or in flight, so two workers can hold the
  same task at once. The TTL theorem therefore states its ordering
  assumption explicitly (`Pool.SequentialPerTask`).
- main.go refers to `utils.Emoji_Tada`, but utils/ntfy.go declares
  `EmojiTada`. The model uses U+1F389 for the found-slot title.

## Model

| member | source | states |
|---|---|---|
| `GoStrings.TrimLeftSpec` | main.go:332-333 | Trimming on the left removes exactly the maximal leading run of white space; the rest is a suffix that does not start with white space |
| `GoStrings.TrimRightSpec` | main.go:332-333 | Trimming on the right removes exactly the maximal trailing run of white space |
| `GoStrings.TrimSpaceSpec` | main.go:332-333 | `TrimSpace(s)` is a slice of `s` with only white space before and after it, it neither starts nor ends with white space, and it is empty exactly when `s` is all white space |
| `GoStrings.TrimSpaceIdempotent` | main.go:332-333 | Trimming an already trimmed string changes nothing |
| `GoStrings.Split` | main.go:64-65 | Splitting on `;` yields one more piece than there are separators (so at least one piece, even for ""), and no piece contains the separator |
| `GoStrings.JoinSplit` | main.go:64-65 | Joining the pieces of a split with the same separator gives back the original string |
| `GoStrings.SplitJoin` | utils/ntfy.go:39-41 | Splitting a join of separator-free pieces gives back the pieces |
| `GoStrings.NatToDecimal` | utils/ntfy.go:46-47 | Decimal text is a non-empty digit string with no leading zero except for 0 itself |
| `GoStrings.ItoaRoundTrip` | utils/ntfy.go:46-47 | `Itoa` is injective: parsing its text back gives the same integer, negative numbers included |
| `Tasks.CreateTasks` | main.go:327-342 | `createTasks` returns exactly `len(dates) * len(addresses)` tasks, each not found and with the configured TTL |
| `Tasks.CreateTasksAt` | main.go:329-336 | The task at index `i*len(addresses) + j` has `ExamDate = TrimSpace(dates[i])`, `Address = TrimSpace(addresses[j])`, `Found = false`, the configured TTL and the zero time (date-major order) |
| `Tasks.CreateTasksIndex` | main.go:329-336 | Conversely, every index `k` holds the task of date `k / len(addresses)` and address `k % len(addresses)`, so the list is exactly the cartesian product |
| `Tasks.CreatedTasksAreTrimmed` | main.go:332-333 | Every created task's date and address are already free of surrounding white space |
| `Tasks.TasksFromConfig` | main.go:64-66 | The task count is (number of `;` in the dates + 1) times (number of `;` in the addresses + 1), so an empty date or address string still yields a task |
| `Tasks.BrowserInstanceCount` | main.go:96-103 | The browser count is the minimum of the configured count and the number of tasks: it is at most both and equal to one of them |
| `Tasks.WorkersStarted` | main.go:79-82 | The number of goroutines started never exceeds the number of tasks, is zero exactly when the configured count is not positive or there are no tasks, and otherwise equals the browser count |
| `Tasks.TwoDatesOneAddressStartTwoBrowsers` | main.go:64-82 | Two dates and one address with a ceiling of five browsers start two browsers |
| `Worker.Since` | main.go:146 | The elapsed duration is the exact difference when it fits in an int64 and saturates at the int64 bounds otherwise |
| `Worker.FreshnessIsExact` | main.go:146 | For a TTL inside the int64 range, a task is fresh exactly when it is found and `now - UpdatedAt < Ttl`; saturation never changes the verdict |
| `Worker.FreshnessExample` | main.go:146-150 | A success five seconds old is fresh under a 10 s TTL and stale under a 1 s TTL |
| `Worker.FailureIndex` | main.go:163-231 | The index of the first interaction that fails: every earlier one succeeds and this one does not |
| `Worker.Probe` | main.go:163-249 | A probe reports slots exactly when every interaction the iteration needs succeeds. Otherwise it names the first failing interaction, and it is "not available" exactly when that interaction is the address click or the time-slot check |
| `Worker.UnknownExamTypeSkipsSelection` | main.go:172-196 | For an exam type other than 0 or 1, no exam-type selection click is attempted |
| `Worker.SlotNotificationRequest` | main.go:234-241 | The found-slot request is a PUT of the screenshot as `image/png`, or a POST with an empty text body when the screenshot path is empty. Its priority is 3, and its title names the date and address |
| `Worker.TaskStep` | main.go:145-250 | A fresh task is skipped and left unchanged. Otherwise it is probed, and only a success sets `Found` and `UpdatedAt = finish time` and emits a notification. Every other path leaves `Found = false` and `UpdatedAt` unchanged. Date, address and TTL are never modified |
| `Worker.WorkerStep` | main.go:155-161 | The token refresh runs only when a probed task meets the authorization prompt and the shared once has not fired; afterwards the once stays fired |
| `Pool.PoolStep` | main.go:145-250 | Processing one received task changes only that task and the once flag |
| `Pool.RunPool` | main.go:79-86 | Over any sequence of receipts the task list keeps its length and every task keeps its date, address and TTL. The refresh through the shared once runs at most once, and never if the once had already fired; the unconditional startup refresh at main.go:68 comes before the pool and is not counted |
| `Pool.VisitKeepsTracked` | main.go:146-152 | One visit keeps the bookkeeping of the task's latest success: a notification is only possible a full TTL after the previous success |
| `Pool.DedupFrom` | main.go:146-243 | For runs whose visits to the same task do not overlap in time and whose tasks start tracked, a notification for a task comes at least one TTL after that task's tracked success, and any two notifications for the same task are at least one TTL apart |
| `Pool.NotifiesAtMostOncePerTtl` | main.go:146-243 | Starting from tasks that are not found, with each task's visits ordered in time, two notifications for the same task are at least one TTL apart |
| `Ticker.TicksBeforeCancel` | main.go:111-121 | The number of ticks handled is the length of the leading run of ticks, which ends at the first cancellation |
| `Ticker.SendAll` | main.go:106-108 | One pass sends every task of the list once, in list order |
| `Ticker.TaskTicker` | main.go:105-123 | With a non-positive interval the trace is the initial burst followed by the panic of `time.NewTicker`, and the channel is never closed. Otherwise it is the initial burst, then one full pass per tick, then a close if and only if a cancellation arrived. Nothing follows the cancellation |
| `Ticker.TickerTrace` | main.go:105-123 | The trace has `passes * n` sends, where the passes are the burst plus the ticks handled (none when the interval is not positive), then at most one other operation, which is the last. The channel is closed exactly when the interval is positive and cancellation arrives; the trace ends in a panic exactly when the interval is not positive |
| `Ticker.TickerPassOrder` | main.go:106-120 | Operation `q*n + j` of the trace sends task `j` for every pass `q` made, so every pass re-sends the whole list in order |
| `Cookies.FirstNamed` | main.go:366-371 | The index of the first cookie with the name, or the list length when none matches |
| `Cookies.FindCookieValue` | main.go:359-377 | The result is the value of the first cookie with the name. It is an error with the message "cookie with name <name> not Found" when no cookie matches or that first match is empty, and a failed cookie read returns its error unchanged |
| `Ntfy.BuildRequest` | utils/ntfy.go:24-50 | The request is PUT with the file body when a filename is set, else POST with the message. The URL is `https://ntfy.sh/` + topic. Content-Type is `image/png` with a file, else `text/plain`. Title, Tags (comma-joined) and Filename headers are present exactly when their fields are non-empty. Priority is the decimal priority, or 3 when it is 0. No other header is set |
| `Ntfy.TagsHeaderRoundTrip` | utils/ntfy.go:39-41 | When no tag contains a comma, the Tags header splits back into exactly the tags |
| `Ntfy.PriorityHeaderRoundTrip` | utils/ntfy.go:46-50 | The Priority header parses back to the priority, with 0 read as the default 3 |
| `Ntfy.SendNotification` | utils/ntfy.go:30-66 | A request goes out exactly when it could be created, and it is the request `BuildRequest` describes. A notification counts as delivered exactly when a response with status 200-299 came back. Request-building and transport failures are only logged, and the function returns nothing |

## Left out

- Browser driving with go-rod is not modelled: launching, the stealth page, navigation, XPath selectors, `isElementPresent`, `findElement`, `findAndClick` and `takeScreenshot`. This is site-specific I/O. It is reduced to the `Page` set of successful interactions and a screenshot path, which is "" when saving failed.
- Navigation failure is fatal in the code: `MustNavigate(...).MustWaitLoad()` (main.go:153, main.go:160) panics with no recover, which ends the whole process rather than the task. The model covers only visits where navigation succeeds; every `Visit` yields a per-task outcome.
- `refreshToken` is left out: reading and writing the token file, the interactive ten-minute authorization and its notification, and `initSecureCookies`. They are file and browser I/O that end in `os.Exit` on failure. Only the `sync.Once` gate around the refresh is modelled.
- Goroutines, `sync.WaitGroup`, channel blocking and capacity, and `signal.NotifyContext` are left out, because their point is concurrency. The pool is a sequential run over receipts, and cancellation is an input event of the ticker.
- `Pool.NotifiesAtMostOncePerTtl`: assumes that visits to the same task do not overlap in time (`SequentialPerTask`) and that clock readings lie in `[0, MaxInt64]`. The source does not prevent two workers from holding the same task after a re-send, so the guarantee holds only under that assumption.
- `Pool.DedupFrom`: assumes that visits to the same task do not overlap in time (`SequentialPerTask`), that every visit is timely for its task's clock (`TimelyVisit`) and that every task starts tracked (`AllTracked`). Two overlapping visits to a not-found task can both notify, which the source allows, so the guarantee holds only under those assumptions.
- `Worker.FreshnessIsExact`: requires the TTL to be above the int64 minimum. With a TTL of exactly the minimum, saturation makes a task whose update time lies far in the future not fresh.
- The two clock readings of one iteration are `checkedAt` (the freshness test) and `finishedAt` (the success stamp). Go's monotonic clock reading is not modelled.
- `config.MustLoadConfig`, `setupLogger`, `fatalErr` and all log output are library plumbing with no stateable logic. Log severities are not modelled.
- The start and stop notifications in `main` (main.go:70-74, 87-91) and the error notification of `fatalErr` are left out. Their request shape is covered by `Ntfy.BuildRequest`.
- The HTTP exchange itself (`http.Client.Do`, `os.Open` with its ignored error, reading the response body) is left out. Its outcome enters as a `Transport` value.
- Strings are sequences of Unicode code points, not UTF-8 bytes. Invalid UTF-8 is not represented.
- `Cookies.FindCookieValue`: the error for a failed cookie read keeps only its message text.
