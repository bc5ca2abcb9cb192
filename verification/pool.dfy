/**
  The browser pool run sequentially: the task pointers the workers receive
  from the shared channel, in the order they are processed, each applied to
  the shared task list with the shared sync.Once. Steps on different tasks
  touch disjoint state, so this order covers any interleaving in which a
  task is held by one worker at a time. The exam type and the ntfy topic
  come from the configuration.
 */
module Pool {
  import opened Wrappers
  import opened Model
  import opened Worker

  datatype PoolState = PoolState(tasks: seq<Task>, onceDone: bool)

  /** A worker receiving the task at `index` of the task list and processing it. */
  datatype Receipt = Receipt(index: nat, visit: Visit)

  /** `sent[k]` tells whether receipt k produced a notification. */
  datatype PoolRun = PoolRun(state: PoolState, sent: seq<bool>, notifications: seq<Notification>, refreshes: nat)

  predicate ValidReceipts(tasks: seq<Task>, rs: seq<Receipt>) {
    forall k :: 0 <= k < |rs| ==> rs[k].index < |tasks|
  }

  /** One receipt: only the received task and the once flag can change. */
  function PoolStep(s: PoolState, rc: Receipt, cfg: Config): (r: (PoolState, WorkerStepResult))
    requires rc.index < |s.tasks|
    ensures |r.0.tasks| == |s.tasks|
    ensures forall i :: 0 <= i < |s.tasks| && i != rc.index ==> r.0.tasks[i] == s.tasks[i]
    ensures r.1 == WorkerStep(s.tasks[rc.index], rc.visit, s.onceDone, cfg.examType, cfg.ntfyTopic)
    ensures r.0.tasks[rc.index] == r.1.step.task && r.0.onceDone == r.1.onceDone
  {
    var w := WorkerStep(s.tasks[rc.index], rc.visit, s.onceDone, cfg.examType, cfg.ntfyTopic);
    (PoolState(s.tasks[rc.index := w.step.task], w.onceDone), w)
  }

  function RunPool(s: PoolState, rs: seq<Receipt>, cfg: Config): (r: PoolRun)
    requires ValidReceipts(s.tasks, rs)
    ensures |r.state.tasks| == |s.tasks| && |r.sent| == |rs|
    ensures forall i :: 0 <= i < |s.tasks| ==> SameIdentity(s.tasks[i], r.state.tasks[i])
    ensures r.refreshes <= (if s.onceDone then 0 else 1)
    ensures r.state.onceDone <==> s.onceDone || r.refreshes == 1
    decreases |rs|
  {
    if rs == [] then PoolRun(s, [], [], 0)
    else
      var (s', w) := PoolStep(s, rs[0], cfg);
      var rest := RunPool(s', rs[1..], cfg);
      var note := w.step.notification;
      PoolRun(rest.state,
              [note.Some?] + rest.sent,
              (if note.Some? then [note.value] else []) + rest.notifications,
              (if w.refreshed then 1 else 0) + rest.refreshes)
  }

  /**
    What the deduplication proof tracks about one task: `last` is the finish
    time of its latest success, `clock` the finish time of its latest visit.
    A task that lost its `found` flag after a success did so at a check at
    least one TTL after that success.
   */
  ghost predicate Tracked(t: Task, last: Option<int>, clock: int) {
    && 0 <= clock
    && MinInt64 < t.ttl <= MaxInt64
    && (last.None? ==> !t.found)
    && (last.Some? ==> 0 <= last.value <= clock)
    && (last.Some? && t.found ==> t.updatedAt == last.value)
    && (last.Some? && !t.found ==> clock - last.value >= t.ttl)
  }

  /** Clock readings of a visit that comes after `clock` and fits the int64 clock. */
  ghost predicate TimelyVisit(v: Visit, clock: int) {
    clock <= v.checkedAt <= v.finishedAt <= MaxInt64
  }

  lemma VisitKeepsTracked(t: Task, v: Visit, last: Option<int>, clock: int, cfg: Config)
    requires Tracked(t, last, clock)
    requires TimelyVisit(v, clock)
    ensures var r := TaskStep(t, v, cfg.examType, cfg.ntfyTopic);
      && (r.notification.Some? && last.Some? ==> v.checkedAt - last.value >= t.ttl)
      && Tracked(r.task, if r.notification.Some? then Some(v.finishedAt) else last, v.finishedAt)
  {
    FreshnessIsExact(t, v.checkedAt);
  }

  ghost predicate AllTracked(tasks: seq<Task>, last: seq<Option<int>>, clock: seq<int>) {
    && |last| == |tasks| && |clock| == |tasks|
    && forall i :: 0 <= i < |tasks| ==> Tracked(tasks[i], last[i], clock[i])
  }

  /** Visits of one task do not overlap in time: the same task is processed by one worker at a time. */
  ghost predicate SequentialPerTask(rs: seq<Receipt>) {
    forall k, k' :: 0 <= k < k' < |rs| && rs[k].index == rs[k'].index ==>
      rs[k].visit.finishedAt <= rs[k'].visit.checkedAt
  }

  lemma {:induction false} DedupFrom(s: PoolState, rs: seq<Receipt>, last: seq<Option<int>>, clock: seq<int>, cfg: Config)
    requires ValidReceipts(s.tasks, rs)
    requires AllTracked(s.tasks, last, clock)
    requires forall k :: 0 <= k < |rs| ==> TimelyVisit(rs[k].visit, clock[rs[k].index])
    requires SequentialPerTask(rs)
    ensures var r := RunPool(s, rs, cfg);
      && (forall k :: 0 <= k < |rs| && r.sent[k] && last[rs[k].index].Some? ==>
            rs[k].visit.checkedAt - last[rs[k].index].value >= s.tasks[rs[k].index].ttl)
      && (forall k, k' :: 0 <= k < k' < |rs| && rs[k].index == rs[k'].index && r.sent[k] && r.sent[k'] ==>
            rs[k'].visit.checkedAt - rs[k].visit.finishedAt >= s.tasks[rs[k].index].ttl)
    decreases |rs|
  {
    if rs != [] {
      var i := rs[0].index;
      var v := rs[0].visit;
      var (s', w) := PoolStep(s, rs[0], cfg);
      var sent0 := w.step.notification.Some?;
      var last' := last[i := if sent0 then Some(v.finishedAt) else last[i]];
      var clock' := clock[i := v.finishedAt];
      var tail := rs[1..];
      DedupStep(s, rs, last, clock, cfg);
      DedupFrom(s', tail, last', clock', cfg);
      var rest := RunPool(s', tail, cfg);
      assert TimelyVisit(v, clock[i]) && Tracked(s.tasks[i], last[i], clock[i]);
      DedupCombine(s, rs, last, cfg, sent0, v, last', rest.sent);
    }
  }

  /** The first receipt keeps every task tracked and leaves the remaining receipts timely and sequential. */
  lemma DedupStep(s: PoolState, rs: seq<Receipt>, last: seq<Option<int>>, clock: seq<int>, cfg: Config)
    requires rs != [] && ValidReceipts(s.tasks, rs)
    requires AllTracked(s.tasks, last, clock)
    requires forall k :: 0 <= k < |rs| ==> TimelyVisit(rs[k].visit, clock[rs[k].index])
    requires SequentialPerTask(rs)
    ensures var i, v := rs[0].index, rs[0].visit;
      var (s', w) := PoolStep(s, rs[0], cfg);
      var sent0 := w.step.notification.Some?;
      var last' := last[i := if sent0 then Some(v.finishedAt) else last[i]];
      var clock' := clock[i := v.finishedAt];
      && AllTracked(s'.tasks, last', clock')
      && (forall k :: 0 <= k < |rs| - 1 ==> TimelyVisit(rs[1..][k].visit, clock'[rs[1..][k].index]))
      && SequentialPerTask(rs[1..])
      && ValidReceipts(s'.tasks, rs[1..])
      && (forall j :: 0 <= j < |s.tasks| ==> s'.tasks[j].ttl == s.tasks[j].ttl)
      && (sent0 && last[i].Some? ==> v.checkedAt - last[i].value >= s.tasks[i].ttl)
      && RunPool(s, rs, cfg).sent == [sent0] + RunPool(s', rs[1..], cfg).sent
  {
    var i, v := rs[0].index, rs[0].visit;
    var (s', w) := PoolStep(s, rs[0], cfg);
    VisitKeepsTracked(s.tasks[i], v, last[i], clock[i], cfg);
    var tail := rs[1..];
    forall k | 0 <= k < |tail| && tail[k].index == i
      ensures v.finishedAt <= tail[k].visit.checkedAt
    {
      assert tail[k] == rs[k + 1];
    }
  }

  /** Reassembles the two conclusions of DedupFrom from those about the first receipt and the rest. */
  lemma DedupCombine(s: PoolState, rs: seq<Receipt>, last: seq<Option<int>>, cfg: Config,
                     sent0: bool, v: Visit, last': seq<Option<int>>, restSent: seq<bool>)
    requires rs != [] && ValidReceipts(s.tasks, rs) && |last| == |s.tasks|
    requires v == rs[0].visit && v.checkedAt <= v.finishedAt && |restSent| == |rs| - 1
    requires last' == last[rs[0].index := if sent0 then Some(v.finishedAt) else last[rs[0].index]]
    requires SequentialPerTask(rs)
    requires last[rs[0].index].Some? ==> last[rs[0].index].value <= v.checkedAt
    requires sent0 && last[rs[0].index].Some? ==> v.checkedAt - last[rs[0].index].value >= s.tasks[rs[0].index].ttl
    requires forall k :: 0 <= k < |rs| - 1 && restSent[k] && last'[rs[1..][k].index].Some? ==>
      rs[1..][k].visit.checkedAt - last'[rs[1..][k].index].value >= s.tasks[rs[1..][k].index].ttl
    requires forall k, k' :: 0 <= k < k' < |rs| - 1 && rs[1..][k].index == rs[1..][k'].index && restSent[k] && restSent[k'] ==>
      rs[1..][k'].visit.checkedAt - rs[1..][k].visit.finishedAt >= s.tasks[rs[1..][k].index].ttl
    ensures var sent := [sent0] + restSent;
      && (forall k :: 0 <= k < |rs| && sent[k] && last[rs[k].index].Some? ==>
            rs[k].visit.checkedAt - last[rs[k].index].value >= s.tasks[rs[k].index].ttl)
      && (forall k, k' :: 0 <= k < k' < |rs| && rs[k].index == rs[k'].index && sent[k] && sent[k'] ==>
            rs[k'].visit.checkedAt - rs[k].visit.finishedAt >= s.tasks[rs[k].index].ttl)
  {
    var i := rs[0].index;
    var sent := [sent0] + restSent;
    var tail := rs[1..];
    forall k | 0 <= k < |rs| && sent[k] && last[rs[k].index].Some?
      ensures rs[k].visit.checkedAt - last[rs[k].index].value >= s.tasks[rs[k].index].ttl
    {
      if k > 0 {
        assert rs[k] == tail[k - 1] && sent[k] == restSent[k - 1];
        if rs[k].index == i && sent0 {
          assert v.finishedAt <= rs[k].visit.checkedAt;
        }
      }
    }
    forall k, k' | 0 <= k < k' < |rs| && rs[k].index == rs[k'].index && sent[k] && sent[k']
      ensures rs[k'].visit.checkedAt - rs[k].visit.finishedAt >= s.tasks[rs[k].index].ttl
    {
      assert rs[k'] == tail[k' - 1] && sent[k'] == restSent[k' - 1];
      if k > 0 {
        assert rs[k] == tail[k - 1] && sent[k] == restSent[k - 1];
      }
    }
  }

  /** Any two notifications for the same task are at least that task's TTL apart. */
  ghost predicate NotificationsTtlApart(tasks: seq<Task>, rs: seq<Receipt>, sent: seq<bool>)
    requires ValidReceipts(tasks, rs) && |sent| == |rs|
  {
    forall k, k' :: 0 <= k < k' < |rs| && rs[k].index == rs[k'].index && sent[k] && sent[k'] ==>
      rs[k'].visit.checkedAt - rs[k].visit.finishedAt >= tasks[rs[k].index].ttl
  }

  /**
    Starting from tasks that are not found (as createTasks builds them), and
    with each task's visits ordered in time, two notifications for the same
    task are at least one TTL apart: the check that announced the second one
    came a full TTL after the first success was recorded.
   */
  lemma {:induction false} NotifiesAtMostOncePerTtl(s: PoolState, rs: seq<Receipt>, cfg: Config)
    requires ValidReceipts(s.tasks, rs)
    requires forall i :: 0 <= i < |s.tasks| ==> !s.tasks[i].found && MinInt64 < s.tasks[i].ttl <= MaxInt64
    requires forall k :: 0 <= k < |rs| ==> 0 <= rs[k].visit.checkedAt <= rs[k].visit.finishedAt <= MaxInt64
    requires SequentialPerTask(rs)
    ensures NotificationsTtlApart(s.tasks, rs, RunPool(s, rs, cfg).sent)
  {
    var last: seq<Option<int>> := seq(|s.tasks|, _ => None);
    var clock: seq<int> := seq(|s.tasks|, _ => 0);
    DedupFrom(s, rs, last, clock, cfg);
  }
}
