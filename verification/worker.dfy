/**
  One iteration of runBrowser's receive loop (main.go), with the browser
  abstracted: a visit says at what time the task was checked, which page
  interactions would succeed, when the probe finished and where the
  screenshot was saved.
 */
module Worker {
  import opened Wrappers
  import opened Model
  import opened GoStrings
  import Ntfy

  /** time.Time.Sub: the elapsed duration, saturated to the int64 range of time.Duration. */
  function Since(now: int, t: int): (d: int)
    ensures IsInt64(d)
    ensures IsInt64(now - t) ==> d == now - t
    ensures now - t > MaxInt64 ==> d == MaxInt64
    ensures now - t < MinInt64 ==> d == MinInt64
  {
    var diff := now - t;
    if diff > MaxInt64 then MaxInt64 else if diff < MinInt64 then MinInt64 else diff
  }

  /** A task whose last success is younger than its TTL is not probed again. */
  predicate IsFresh(task: Task, now: int) {
    task.found && Since(now, task.updatedAt) < task.ttl
  }

  /**
    For a TTL strictly inside the int64 range the saturation of Sub never
    changes the verdict: freshness is exactly found && now - updatedAt < ttl.
   */
  lemma FreshnessIsExact(task: Task, now: int)
    requires MinInt64 < task.ttl <= MaxInt64
    ensures IsFresh(task, now) <==> task.found && now - task.updatedAt < task.ttl
  {
  }

  /** A success five seconds ago is fresh under a ten-second TTL and stale under a one-second TTL. */
  lemma FreshnessExample(now: int)
    requires 0 <= now <= MaxInt64
    ensures IsFresh(Task("d", "a", true, 10_000_000_000, now - 5_000_000_000), now)
    ensures !IsFresh(Task("d", "a", true, 1_000_000_000, now - 5_000_000_000), now)
  {
  }

  /** The page elements the worker waits for or clicks, in the order of main.go:155-233. */
  datatype Interaction =
    | AuthorizationPrompt
    | SignUpButtonShown
    | SignUpButtonClick
    | TheoreticalExamClick
    | PracticalExamClick
    | MvsCarClick
    | CategoryBClick
    | ExamDateClick
    | NextAfterDateClick
    | MapShown
    | AddressClick
    | NextAfterAddressClick
    | TimeSlotsShown

  /** The abstract browser: the interactions that would succeed on this visit. */
  datatype Page = Page(works: set<Interaction>)

  /** The exam-type selection clicks: 0 is the theory exam, 1 the practical exam; any other value clicks nothing. */
  function ExamTypeClicks(examType: int): seq<Interaction> {
    if examType == 0 then [TheoreticalExamClick]
    else if examType == 1 then [PracticalExamClick, MvsCarClick, CategoryBClick]
    else []
  }

  /** The interactions a probe needs, in order; the sign-up button is clicked only when it is shown. */
  function ProbeSteps(examType: int, page: Page): seq<Interaction> {
    (if SignUpButtonShown in page.works then [SignUpButtonClick] else [])
    + ExamTypeClicks(examType)
    + [ExamDateClick, NextAfterDateClick, MapShown, AddressClick, NextAfterAddressClick, TimeSlotsShown]
  }

  /** Index of the first interaction that fails, or |steps| when all succeed. */
  function FailureIndex(steps: seq<Interaction>, page: Page): (k: nat)
    ensures k <= |steps|
    ensures forall j :: 0 <= j < k ==> steps[j] in page.works
    ensures k < |steps| ==> steps[k] !in page.works
  {
    if steps == [] || steps[0] !in page.works then 0 else 1 + FailureIndex(steps[1..], page)
  }

  /**
    What a probe reports: time slots are shown; the slot is not available
    (the address is not offered or no time is offered, main.go:222-225 and
    245-248); or an interaction failed (every other `continue`).
   */
  datatype ProbeOutcome = SlotsAvailable | NotAvailable(at: Interaction) | Failed(at: Interaction)

  function Probe(examType: int, page: Page): (o: ProbeOutcome)
    ensures var steps := ProbeSteps(examType, page);
      && (o.SlotsAvailable? <==> forall j :: 0 <= j < |steps| ==> steps[j] in page.works)
      && (!o.SlotsAvailable? ==>
            var k := FailureIndex(steps, page);
            k < |steps| && o.at == steps[k] && o.at !in page.works
            && forall j :: 0 <= j < k ==> steps[j] in page.works)
      && (o.NotAvailable? <==> !o.SlotsAvailable? && (o.at == AddressClick || o.at == TimeSlotsShown))
  {
    var steps := ProbeSteps(examType, page);
    var k := FailureIndex(steps, page);
    if k == |steps| then SlotsAvailable
    else if steps[k] == AddressClick || steps[k] == TimeSlotsShown then NotAvailable(steps[k])
    else Failed(steps[k])
  }

  /** The switch on the exam type has no default: for a value other than 0 or 1 no exam-type click is attempted. */
  lemma UnknownExamTypeSkipsSelection(examType: int, page: Page)
    requires examType != 0 && examType != 1
    ensures forall j :: 0 <= j < |ProbeSteps(examType, page)| ==>
      ProbeSteps(examType, page)[j] !in {TheoreticalExamClick, PracticalExamClick, MvsCarClick, CategoryBClick}
  {
  }

  /** The notification title for a found slot (main.go:234). */
  function FoundMessage(date: string, address: string): string {
    "\U{1F389} DATE: " + date + "; CITY: " + address + " "
  }

  /** The notification sent for a found slot: its title names the task, the screenshot is attached. */
  function SlotNotification(topic: string, task: Task, screenshot: string): (n: Notification)
    ensures n.topic == topic && n.filename == screenshot
    ensures n.message == "" && n.tags == [] && n.priority == 0
  {
    Notification(topic, FoundMessage(task.examDate, task.address), [], "", screenshot, 0)
  }

  /**
    The request for a found slot attaches the screenshot with PUT; when the
    screenshot could not be saved its path is empty, and the request falls
    back to a POST with an empty text body. Either way the priority is the
    default 3 and the title names the task.
   */
  lemma SlotNotificationRequest(topic: string, task: Task, screenshot: string)
    ensures var req := Ntfy.BuildRequest(SlotNotification(topic, task, screenshot));
      && (screenshot != "" ==> req.verb == "PUT" && req.body == Ntfy.FileBody(screenshot)
                               && req.headers["Content-Type"] == "image/png" && req.headers["Filename"] == screenshot)
      && (screenshot == "" ==> req.verb == "POST" && req.body == Ntfy.TextBody("")
                               && req.headers["Content-Type"] == "text/plain" && "Filename" !in req.headers)
      && req.headers["Priority"] == "3"
      && req.headers["Title"] == FoundMessage(task.examDate, task.address)
      && "Tags" !in req.headers
  {
  }

  /** One task handed to a worker: clock readings, the abstract page, and the screenshot path ("" when saving failed). */
  datatype Visit = Visit(checkedAt: int, page: Page, finishedAt: int, screenshot: string)

  /** `probed` is None when the task was fresh and skipped. */
  datatype TaskStepResult = TaskStepResult(task: Task, probed: Option<ProbeOutcome>, notification: Option<Notification>)

  /** The task-facing part of one loop iteration (main.go:145-250). */
  function TaskStep(task: Task, visit: Visit, examType: int, topic: string): (r: TaskStepResult)
    ensures SameIdentity(task, r.task)
    ensures IsFresh(task, visit.checkedAt) ==> r == TaskStepResult(task, None, None)
    ensures !IsFresh(task, visit.checkedAt) ==> r.probed == Some(Probe(examType, visit.page))
    ensures r.task.found <==> IsFresh(task, visit.checkedAt) || r.probed == Some(SlotsAvailable)
    ensures r.notification.Some? <==> r.probed == Some(SlotsAvailable)
    ensures r.probed == Some(SlotsAvailable) ==>
      r.task.updatedAt == visit.finishedAt && r.notification == Some(SlotNotification(topic, task, visit.screenshot))
    ensures r.probed != Some(SlotsAvailable) ==> r.task.updatedAt == task.updatedAt
  {
    if IsFresh(task, visit.checkedAt) then
      TaskStepResult(task, None, None)
    else
      var reset := task.(found := false);
      var outcome := Probe(examType, visit.page);
      if outcome == SlotsAvailable then
        TaskStepResult(reset.(found := true, updatedAt := visit.finishedAt), Some(outcome),
                       Some(SlotNotification(topic, task, visit.screenshot)))
      else
        TaskStepResult(reset, Some(outcome), None)
  }

  /**
    The whole iteration, including the process-wide sync.Once around the
    token refresh (main.go:155-161): the refresh runs only the first time any
    worker meets the authorization prompt; later prompts only re-install the
    cookie and reload the page.
   */
  datatype WorkerStepResult = WorkerStepResult(step: TaskStepResult, onceDone: bool, refreshed: bool)

  function WorkerStep(task: Task, visit: Visit, onceDone: bool, examType: int, topic: string): (r: WorkerStepResult)
    ensures r.step == TaskStep(task, visit, examType, topic)
    ensures r.refreshed <==> !onceDone && r.step.probed.Some? && AuthorizationPrompt in visit.page.works
    ensures r.onceDone <==> onceDone || r.refreshed
  {
    var step := TaskStep(task, visit, examType, topic);
    var prompted := step.probed.Some? && AuthorizationPrompt in visit.page.works;
    WorkerStepResult(step, onceDone || prompted, !onceDone && prompted)
  }
}
