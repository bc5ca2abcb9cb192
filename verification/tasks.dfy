/** Building the task list from the configuration and sizing the browser pool (main.go). */
module Tasks {
  import opened Model
  import opened GoStrings

  function NewTask(date: string, address: string, ttl: int): Task {
    Task(TrimSpace(date), TrimSpace(address), false, ttl, ZeroTime)
  }

  /** The tasks of one date, one per address, in address order. */
  function DateRow(date: string, addresses: seq<string>, ttl: int): (row: seq<Task>)
    ensures |row| == |addresses|
    ensures forall j :: 0 <= j < |addresses| ==> row[j] == NewTask(date, addresses[j], ttl)
  {
    seq(|addresses|, j requires 0 <= j < |addresses| => NewTask(date, addresses[j], ttl))
  }

  /** createTasks: the date-major cartesian product of dates and addresses, every task not found yet. */
  function CreateTasks(dates: seq<string>, addresses: seq<string>, ttl: int): (tasks: seq<Task>)
    ensures |tasks| == |dates| * |addresses|
    ensures forall k :: 0 <= k < |tasks| ==> !tasks[k].found && tasks[k].ttl == ttl
  {
    if dates == [] then []
    else
      var rest := CreateTasks(dates[1..], addresses, ttl);
      MulSucc(|dates| - 1, |addresses|);
      DateRow(dates[0], addresses, ttl) + rest
  }

  lemma MulMonotone(a: nat, b: nat, n: nat)
    requires a <= b
    ensures a * n <= b * n
  {
  }

  lemma MulSucc(i: nat, n: nat)
    ensures (i + 1) * n == i * n + n
  {
  }

  /** i * n written as repeated addition, so that the index proofs stay linear. */
  function Offset(i: nat, n: nat): (o: nat)
    ensures o == i * n
  {
    if i == 0 then 0 else n + Offset(i - 1, n)
  }

  lemma {:induction false} CreateTasksAtOffset(dates: seq<string>, addresses: seq<string>, ttl: int, i: nat, j: nat)
    requires i < |dates| && j < |addresses|
    ensures Offset(i, |addresses|) + j < |CreateTasks(dates, addresses, ttl)|
    ensures CreateTasks(dates, addresses, ttl)[Offset(i, |addresses|) + j] == NewTask(dates[i], addresses[j], ttl)
  {
    var n := |addresses|;
    var row := DateRow(dates[0], addresses, ttl);
    var rest := CreateTasks(dates[1..], addresses, ttl);
    assert CreateTasks(dates, addresses, ttl) == row + rest;
    if i > 0 {
      CreateTasksAtOffset(dates[1..], addresses, ttl, i - 1, j);
    }
  }

  /** The task at index i * |addresses| + j is built from dates[i] and addresses[j], both trimmed. */
  lemma CreateTasksAt(dates: seq<string>, addresses: seq<string>, ttl: int, i: nat, j: nat)
    requires i < |dates| && j < |addresses|
    ensures i * |addresses| + j < |dates| * |addresses|
    ensures CreateTasks(dates, addresses, ttl)[i * |addresses| + j]
         == Task(TrimSpace(dates[i]), TrimSpace(addresses[j]), false, ttl, ZeroTime)
  {
    CreateTasksAtOffset(dates, addresses, ttl, i, j);
  }

  /** Conversely, the task at index k comes from dates[k / |addresses|] and addresses[k % |addresses|]. */
  lemma CreateTasksIndex(dates: seq<string>, addresses: seq<string>, ttl: int, k: nat)
    requires k < |dates| * |addresses|
    ensures |addresses| > 0 && k / |addresses| < |dates|
    ensures CreateTasks(dates, addresses, ttl)[k]
         == Task(TrimSpace(dates[k / |addresses|]), TrimSpace(addresses[k % |addresses|]), false, ttl, ZeroTime)
  {
    var n := |addresses|;
    if n == 0 {
      MulZero(|dates|);
    }
    var i, j := k / n, k % n;
    assert k == i * n + j;
    if i >= |dates| {
      MulMonotone(|dates|, i, n);
      assert false;
    }
    CreateTasksAt(dates, addresses, ttl, i, j);
  }

  lemma MulZero(a: nat)
    ensures a * 0 == 0
  {
  }

  lemma ProductPositive(a: nat, b: nat)
    requires a >= 1 && b >= 1
    ensures a * b >= 1
  {
    MulMonotone(1, a, b);
  }

  /** Every created task already has trimmed date and address fields. */
  lemma CreatedTasksAreTrimmed(dates: seq<string>, addresses: seq<string>, ttl: int, k: nat)
    requires k < |dates| * |addresses|
    ensures var t := CreateTasks(dates, addresses, ttl)[k];
      TrimSpace(t.examDate) == t.examDate && TrimSpace(t.address) == t.address
  {
    CreateTasksIndex(dates, addresses, ttl, k);
    var n := |addresses|;
    TrimSpaceIdempotent(dates[k / n]);
    TrimSpaceIdempotent(addresses[k % n]);
  }

  /** The date and address lists come from the configuration strings split on ';'. */
  function TasksFromConfig(cfg: Config): (tasks: seq<Task>)
    ensures |tasks| == (Count(cfg.examDates, ';') + 1) * (Count(cfg.addresses, ';') + 1)
    ensures |tasks| >= 1
  {
    var dates := Split(cfg.examDates, ';');
    var addresses := Split(cfg.addresses, ';');
    ProductPositive(|dates|, |addresses|);
    CreateTasks(dates, addresses, cfg.ttlForFoundTask)
  }

  /** getBrowserInstanceCount: the configured browser count, capped by the number of tasks. */
  function BrowserInstanceCount(browsersCount: int, taskCount: nat): (count: int)
    ensures count <= browsersCount && count <= taskCount
    ensures count == browsersCount || count == taskCount
  {
    if taskCount < browsersCount then taskCount else browsersCount
  }

  /** Go's `for range count` starts no goroutine at all when count is zero or negative. */
  function WorkersStarted(browsersCount: int, taskCount: nat): (workers: nat)
    ensures workers <= taskCount
    ensures workers == 0 <==> browsersCount <= 0 || taskCount == 0
    ensures browsersCount >= 0 ==> workers == BrowserInstanceCount(browsersCount, taskCount)
  {
    var count := BrowserInstanceCount(browsersCount, taskCount);
    if count > 0 then count else 0
  }

  /** Two dates and one address with a ceiling of five browsers start two browsers. */
  lemma TwoDatesOneAddressStartTwoBrowsers(cfg: Config)
    requires cfg.examDates == "d1;d2" && cfg.addresses == "Kyiv"
    requires cfg.browsersCount == 5
    ensures WorkersStarted(cfg.browsersCount, |TasksFromConfig(cfg)|) == 2
  {
    var a := cfg.addresses;
    assert Count(a[4..], ';') == 0;
    assert Count(a[3..], ';') == 0 by { assert a[3..][1..] == a[4..]; }
    assert Count(a[2..], ';') == 0 by { assert a[2..][1..] == a[3..]; }
    assert Count(a[1..], ';') == 0 by { assert a[1..][1..] == a[2..]; }
    assert Count(a, ';') == 0;
    var d := cfg.examDates;
    assert Count(d[5..], ';') == 0;
    assert Count(d[4..], ';') == 0 by { assert d[4..][1..] == d[5..]; }
    assert Count(d[3..], ';') == 0 by { assert d[3..][1..] == d[4..]; }
    assert Count(d[2..], ';') == 1 by { assert d[2..][1..] == d[3..]; }
    assert Count(d[1..], ';') == 1 by { assert d[1..][1..] == d[2..]; }
    assert Count(d, ';') == 1;
  }
}
