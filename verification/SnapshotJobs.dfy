/**
 The single snapshot slot. A starter checks and fills the slot under a mutex; the job it starts copies its
 results, marks itself completed and then writes itself to the slot again, holding no lock.
 */
module SnapshotJobs {
  import opened Common

  datatype Status = Running | Completed | Failed

  /** What a finished snapshot reports: where it is, and eight counts. */
  datatype Response = Response(path: string, counts: seq<int>)

  const COUNTS := 8

  /**
   Where a background task is: before its response, copying the next of nine fields, between the two last lines, or
   at its end.
   */
  datatype Task =
    | Sending
    | Copying(response: Response, next: nat)
    | Flipped(response: Response)
    | Finished(response: Response)
    | Failing
    | GivenUp

  datatype Job = Job(status: Status, resultPath: Option<string>, counts: seq<int>, error: bool, task: Task)

  /** The critical section: free, entered, or entered and found no running job. */
  datatype Mutex = Free | Entered | Cleared

  /** Jobs are numbered in the order they were started. */
  datatype State = State(jobs: seq<Job>, latest: Option<nat>, mutex: Mutex)

  datatype Step =
    | Enter
    | ReturnRunning
    | Clear
    | Publish
    | Respond(job: nat, response: Response)
    | CopyField(job: nat)
    | Complete(job: nat)
    | WriteSlot(job: nat)
    | Fail(job: nat)
    | SetError(job: nat)

  const NEW_JOB := Job(Running, None, [0, 0, 0, 0, 0, 0, 0, 0], false, Sending)

  const START := State([], None, Free)

  predicate SlotIsRunning(s: State) {
    s.latest.Some? && s.latest.value < |s.jobs| && s.jobs[s.latest.value].status == Running
  }

  predicate Enabled(s: State, step: Step) {
    match step
    case Enter => s.mutex == Free
    case ReturnRunning => s.mutex == Entered && SlotIsRunning(s)
    case Clear => s.mutex == Entered && !SlotIsRunning(s)
    case Publish => s.mutex == Cleared
    case Respond(j, response) => j < |s.jobs| && s.jobs[j].task == Sending && |response.counts| == COUNTS
    case CopyField(j) => j < |s.jobs| && s.jobs[j].task.Copying? && s.jobs[j].task.next <= COUNTS
    case Complete(j) => j < |s.jobs| && s.jobs[j].task.Copying? && s.jobs[j].task.next == COUNTS + 1
    case WriteSlot(j) => j < |s.jobs| && s.jobs[j].task.Flipped?
    case Fail(j) => j < |s.jobs| && s.jobs[j].task == Sending
    case SetError(j) => j < |s.jobs| && s.jobs[j].task == Failing
  }

  function Copied(job: Job): Job
    requires job.task.Copying? && job.task.next <= COUNTS && |job.counts| == COUNTS == |job.task.response.counts|
  {
    var response, k := job.task.response, job.task.next;
    var moved := job.(task := Copying(response, k + 1));
    if k == 0 then moved.(resultPath := Some(response.path))
      else moved.(counts := job.counts[k - 1 := response.counts[k - 1]])
  }

  ghost predicate WellTyped(job: Job) {
    && |job.counts| == COUNTS
    && ((job.task.Copying? || job.task.Flipped? || job.task.Finished?) ==> |job.task.response.counts| == COUNTS)
  }

  ghost predicate AllTyped(s: State) {
    forall j | 0 <= j < |s.jobs| :: WellTyped(s.jobs[j])
  }

  function After(s: State, step: Step): State
    requires Enabled(s, step) && AllTyped(s)
  {
    match step
    case Enter => s.(mutex := Entered)
    case ReturnRunning => s.(mutex := Free)
    case Clear => s.(mutex := Cleared)
    case Publish => State(s.jobs + [NEW_JOB], Some(|s.jobs|), Free)
    case Respond(j, response) => s.(jobs := s.jobs[j := s.jobs[j].(task := Copying(response, 0))])
    case CopyField(j) => s.(jobs := s.jobs[j := Copied(s.jobs[j])])
    case Complete(j) => s.(jobs := s.jobs[j := s.jobs[j].(status := Completed,
                                                          task := Flipped(s.jobs[j].task.response))])
    case WriteSlot(j) => State(s.jobs[j := s.jobs[j].(task := Finished(s.jobs[j].task.response))], Some(j), s.mutex)
    case Fail(j) => s.(jobs := s.jobs[j := s.jobs[j].(status := Failed, task := Failing)])
    case SetError(j) => s.(jobs := s.jobs[j := s.jobs[j].(error := true, task := GivenUp)])
  }

  /** The fields copied so far hold the response's values. */
  ghost predicate CopiedSoFar(job: Job, response: Response, upTo: nat)
    requires WellTyped(job) && |response.counts| == COUNTS
  {
    && (upTo > 0 ==> job.resultPath == Some(response.path))
    && forall k | 0 <= k < COUNTS && k + 1 < upTo :: job.counts[k] == response.counts[k]
  }

  /** A job's status says where its task is, and a completed job carries every field of its response. */
  ghost predicate JobIsSound(job: Job) {
    && WellTyped(job)
    && match job.task
       case Sending => job.status == Running
       case Copying(response, next) => job.status == Running && next <= COUNTS + 1 && CopiedSoFar(job, response, next)
       case Flipped(response) => job.status == Completed && CopiedSoFar(job, response, COUNTS + 1)
       case Finished(response) => job.status == Completed && CopiedSoFar(job, response, COUNTS + 1)
       case Failing => job.status == Failed
       case GivenUp => job.status == Failed && job.error
  }

  ghost predicate JobsAreSound(s: State) {
    forall j | 0 <= j < |s.jobs| :: JobIsSound(s.jobs[j])
  }

  /** At most one job runs, and the slot names it. */
  ghost predicate SlotNamesRunning(s: State) {
    forall j | 0 <= j < |s.jobs| && s.jobs[j].status == Running :: s.latest == Some(j)
  }

  ghost predicate SlotWritePending(s: State, j: nat) {
    j < |s.jobs| && s.jobs[j].task.Flipped?
  }

  ghost predicate NoWritePending(s: State) {
    forall j :: !SlotWritePending(s, j)
  }

  /**
   The slot is exact, every task that will still write it is already named by it, and a cleared starter saw no
   running job.
   */
  ghost predicate Exact(s: State) {
    && JobsAreSound(s) && SlotNamesRunning(s)
    && (forall j | 0 <= j < |s.jobs| && s.jobs[j].task.Flipped? :: s.latest == Some(j))
    && (s.latest.Some? ==> s.latest.value < |s.jobs|)
    && (s.mutex == Cleared ==> forall j | 0 <= j < |s.jobs| :: s.jobs[j].status != Running)
  }

  lemma StepKeepsSound(s: State, step: Step)
    requires JobsAreSound(s) && Enabled(s, step)
    ensures JobsAreSound(After(s, step))
  {
    match step {
      case CopyField(j) => assert JobIsSound(s.jobs[j]);
      case Complete(j) => assert JobIsSound(s.jobs[j]);
      case WriteSlot(j) => assert JobIsSound(s.jobs[j]);
      case _ =>
    }
  }

  /** A publish is overtaken by a late write when some task stands between completing and writing the slot. */
  ghost predicate Overtaken(s: State, step: Step) {
    step == Publish && !NoWritePending(s)
  }

  lemma StepKeepsExact(s: State, step: Step)
    requires Exact(s) && Enabled(s, step) && !Overtaken(s, step)
    ensures Exact(After(s, step))
  {
    StepKeepsSound(s, step);
    match step {
      case Publish =>
        var s1 := After(s, Publish);
        forall j | 0 <= j < |s1.jobs| ensures !s1.jobs[j].task.Flipped? { assert !SlotWritePending(s, j); }
      case CopyField(j) => assert JobIsSound(s.jobs[j]);
      case _ =>
    }
  }

  ghost predicate IsRun(s: State, steps: seq<Step>)
    decreases |steps|
  {
    JobsAreSound(s) && (steps == [] || (Enabled(s, steps[0]) && IsRun(After(s, steps[0]), steps[1..])))
  }

  ghost function End(s: State, steps: seq<Step>): State
    requires IsRun(s, steps)
    decreases |steps|
  {
    if steps == [] then s else End(After(s, steps[0]), steps[1..])
  }

  lemma RunTakesEach(s: State, step: Step, steps: seq<Step>)
    requires JobsAreSound(s)
    ensures IsRun(s, []) && End(s, []) == s
    ensures IsRun(s, [step] + steps) <==> Enabled(s, step) && IsRun(After(s, step), steps)
    ensures IsRun(s, [step] + steps) ==> End(s, [step] + steps) == End(After(s, step), steps)
  {
    assert ([step] + steps)[1..] == steps;
  }

  /** No publish of the run happens while a completed job's slot write is pending. */
  ghost predicate NeverOvertaken(s: State, steps: seq<Step>)
    requires IsRun(s, steps)
    decreases |steps|
  {
    steps == [] || (!Overtaken(s, steps[0]) && NeverOvertaken(After(s, steps[0]), steps[1..]))
  }

  lemma {:induction false} RunKeepsExact(s: State, steps: seq<Step>)
    requires Exact(s) && IsRun(s, steps) && NeverOvertaken(s, steps)
    ensures Exact(End(s, steps))
    decreases |steps|
  {
    if steps != [] {
      StepKeepsExact(s, steps[0]);
      RunKeepsExact(After(s, steps[0]), steps[1..]);
    }
  }

  lemma {:induction false} RunKeepsSound(s: State, steps: seq<Step>)
    requires IsRun(s, steps)
    ensures JobsAreSound(End(s, steps))
    decreases |steps|
  {
    if steps != [] { RunKeepsSound(After(s, steps[0]), steps[1..]); }
  }

  /** In every run in which no publish overtakes a completing task, one job at most runs and the slot names it. */
  lemma OneRunningJob(steps: seq<Step>, i: nat, j: nat)
    requires IsRun(START, steps) && NeverOvertaken(START, steps)
    requires i < |End(START, steps).jobs| && End(START, steps).jobs[i].status == Running
    requires j < |End(START, steps).jobs| && End(START, steps).jobs[j].status == Running
    ensures i == j && End(START, steps).latest == Some(i)
  {
    RunKeepsExact(START, steps);
  }

  /** In every run at all, a poller that sees Completed sees every field of the response. */
  lemma CompletedIsFilled(steps: seq<Step>, j: nat)
    requires IsRun(START, steps) && j < |End(START, steps).jobs| && End(START, steps).jobs[j].status == Completed
    ensures var job := End(START, steps).jobs[j];
            (job.task.Flipped? || job.task.Finished?) && job.resultPath == Some(job.task.response.path)
              && job.counts == job.task.response.counts
  {
    RunKeepsSound(START, steps);
    assert JobIsSound(End(START, steps).jobs[j]);
  }

  // ----- completion and slot write as one step

  /** Every completion is followed at once by its write of the slot. */
  ghost predicate AtomicCompletion(steps: seq<Step>) {
    && (forall i | 0 <= i < |steps| && steps[i].Complete? :: i + 1 < |steps| && steps[i + 1] == WriteSlot(steps[i].job))
  }

  lemma WriteSlotClears(s: State, j: nat)
    requires JobsAreSound(s) && SlotWritePending(s, j) && forall k | k != j :: !SlotWritePending(s, k)
    ensures Enabled(s, WriteSlot(j)) && NoWritePending(After(s, WriteSlot(j)))
  {
    forall k ensures !SlotWritePending(After(s, WriteSlot(j)), k) {
      assert k != j ==> !SlotWritePending(s, k);
    }
  }

  lemma OtherStepsKeepClear(s: State, step: Step)
    requires JobsAreSound(s) && NoWritePending(s) && Enabled(s, step) && !step.Complete?
    ensures NoWritePending(After(s, step))
  {
    forall k ensures !SlotWritePending(After(s, step), k) {
      assert !SlotWritePending(s, k);
    }
  }

  lemma {:induction false} AtomicIsNeverOvertaken(s: State, steps: seq<Step>)
    requires IsRun(s, steps) && AtomicCompletion(steps) && NoWritePending(s)
    ensures NeverOvertaken(s, steps)
    decreases |steps|
  {
    if steps != [] {
      var s1, rest := After(s, steps[0]), steps[1..];
      if steps[0].Complete? {
        var j := steps[0].job;
        assert rest[0] == steps[1] == WriteSlot(j);
        forall k ensures k != j ==> !SlotWritePending(s1, k) { assert !SlotWritePending(s, k); }
        WriteSlotClears(s1, j);
        AtomicSuffix(steps, 2);
        AtomicIsNeverOvertaken(After(s1, rest[0]), rest[1..]);
      } else {
        OtherStepsKeepClear(s, steps[0]);
        AtomicSuffix(steps, 1);
        AtomicIsNeverOvertaken(s1, rest);
      }
    }
  }

  lemma AtomicSuffix(steps: seq<Step>, n: nat)
    requires AtomicCompletion(steps) && n <= |steps|
    ensures AtomicCompletion(steps[n..]) && (n == 2 ==> steps[1..][1..] == steps[2..])
  {
    forall i | 0 <= i < |steps[n..]| && steps[n..][i].Complete?
      ensures i + 1 < |steps[n..]| && steps[n..][i + 1] == WriteSlot(steps[n..][i].job)
    {
      assert steps[n + i].Complete?;
    }
  }

  /** With completion and its slot write as one step, one job at most runs and the slot names it. */
  lemma AtomicCompletionIsSafe(steps: seq<Step>)
    requires IsRun(START, steps) && AtomicCompletion(steps)
    ensures SlotNamesRunning(End(START, steps))
  {
    AtomicIsNeverOvertaken(START, steps);
    RunKeepsExact(START, steps);
  }

  // ----- what one start and one task do

  /**
   A start asks the slot, and only one start at a time does: it returns the running job the slot names and changes
   nothing, or else publishes one new running job and names it.
   */
  lemma StartAsksTheSlot(s: State)
    requires JobsAreSound(s) && s.mutex == Free
    ensures forall m | m != Free :: !Enabled(s.(mutex := m), Enter)
    ensures var asked := After(s, Enter);
            if exists j :: s.latest == Some(j) && j < |s.jobs| && s.jobs[j].status == Running
            then Enabled(asked, ReturnRunning) && !Enabled(asked, Clear) && After(asked, ReturnRunning) == s
            else && !Enabled(asked, ReturnRunning) && Enabled(asked, Clear) && Enabled(After(asked, Clear), Publish)
                 && After(After(asked, Clear), Publish)
                    == State(s.jobs + [Job(Running, None, [0, 0, 0, 0, 0, 0, 0, 0], false, Sending)],
                             Some(|s.jobs|), Free)
    ensures forall m | m != Cleared :: !Enabled(s.(mutex := m), Publish)
    ensures forall m | m != Entered :: !Enabled(s.(mutex := m), ReturnRunning) && !Enabled(s.(mutex := m), Clear)
  {
  }

  function JobOf(step: Step): Option<nat> {
    match step
    case Respond(j, _) => Some(j)
    case CopyField(j) => Some(j)
    case Complete(j) => Some(j)
    case WriteSlot(j) => Some(j)
    case Fail(j) => Some(j)
    case SetError(j) => Some(j)
    case _ => None
  }

  /** A task has one step before it at a time, but for the choice between the response and a failure. */
  lemma OneStepAtATime(s: State, a: Step, b: Step)
    requires Enabled(s, a) && Enabled(s, b) && JobOf(a).Some? && JobOf(a) == JobOf(b)
    ensures a == b || ((a.Respond? || a.Fail?) && (b.Respond? || b.Fail?))
  {
  }

  // ----- the two lines as separate steps

  predicate IsBackground(step: Step) {
    step.Respond? || step.CopyField? || step.Complete? || step.WriteSlot? || step.Fail? || step.SetError?
  }

  /** Background tasks alone can bring about a state whose slot does not name the running job. */
  ghost predicate CanHideRunning(s: State)
  {
    exists steps :: Hides(s, steps)
  }

  ghost predicate Hides(s: State, steps: seq<Step>) {
    IsRun(s, steps) && (forall i | 0 <= i < |steps| :: IsBackground(steps[i])) && !SlotNamesRunning(End(s, steps))
  }

  lemma {:induction false} BackgroundIsNeverOvertaken(s: State, steps: seq<Step>)
    requires IsRun(s, steps) && forall i | 0 <= i < |steps| :: IsBackground(steps[i])
    ensures NeverOvertaken(s, steps)
    decreases |steps|
  {
    if steps != [] { BackgroundIsNeverOvertaken(After(s, steps[0]), steps[1..]); }
  }

  /** Publishing a job is safe exactly when no earlier task still has its slot write to come. */
  lemma PublishIsSafeExactlyWhenNoWritePending(s: State)
    requires Exact(s) && s.mutex == Cleared
    ensures JobsAreSound(After(s, Publish)) && (CanHideRunning(After(s, Publish)) <==> !NoWritePending(s))
  {
    StepKeepsSound(s, Publish);
    var s1 := After(s, Publish);
    if NoWritePending(s) {
      StepKeepsExact(s, Publish);
      forall steps | IsRun(s1, steps) && (forall i | 0 <= i < |steps| :: IsBackground(steps[i]))
        ensures SlotNamesRunning(End(s1, steps))
      {
        BackgroundIsNeverOvertaken(s1, steps);
        RunKeepsExact(s1, steps);
      }
    } else {
      var j: nat :| SlotWritePending(s, j);
      LateWriteHides(s, j);
      var steps := [WriteSlot(j)];
      assert IsBackground(steps[0]);
      StepKeepsSound(s1, steps[0]);
      assert End(s1, steps) == After(s1, WriteSlot(j));
      assert Hides(s1, steps);
    }
  }

  /** The late write puts a completed job back in the slot over the one now running. */
  lemma LateWriteHides(s: State, j: nat)
    requires JobsAreSound(s) && s.mutex == Cleared && SlotWritePending(s, j)
    ensures var s1 := After(s, Publish); JobsAreSound(s1) && Enabled(s1, WriteSlot(j))
    ensures var s2 := After(After(s, Publish), WriteSlot(j));
            s2.jobs[|s.jobs|].status == Running && s2.latest == Some(j) && j < |s.jobs|
              && s2.jobs[j].status == Completed && !SlotNamesRunning(s2)
  {
    StepKeepsSound(s, Publish);
    assert JobIsSound(s.jobs[j]);
  }

  ghost predicate TwoRunning(s: State) {
    exists a, b | 0 <= a < b < |s.jobs| :: s.jobs[a].status == Running && s.jobs[b].status == Running
  }

  // ----- the race, step by step

  ghost predicate Reachable(s: State) {
    exists steps :: IsRun(START, steps) && End(START, steps) == s
  }

  lemma {:induction false} RunExtends(s: State, steps: seq<Step>, step: Step)
    requires IsRun(s, steps) && Enabled(End(s, steps), step) && JobsAreSound(End(s, steps))
    ensures IsRun(s, steps + [step]) && End(s, steps + [step]) == After(End(s, steps), step)
    decreases |steps|
  {
    if steps == [] {
      assert steps + [step] == [step] && [step][1..] == [];
      StepKeepsSound(s, step);
    } else {
      assert (steps + [step])[1..] == steps[1..] + [step];
      RunExtends(After(s, steps[0]), steps[1..], step);
    }
  }

  lemma ReachesAfter(s: State, step: Step)
    requires Reachable(s) && JobsAreSound(s) && Enabled(s, step)
    ensures Reachable(After(s, step)) && JobsAreSound(After(s, step))
  {
    var steps :| IsRun(START, steps) && End(START, steps) == s;
    RunExtends(START, steps, step);
    StepKeepsSound(s, step);
  }

  /** Once the running job is hidden, the next starter finds the slot completed and starts a second one. */
  lemma HiddenJobIsJoined(s: State, j: nat)
    requires Reachable(s) && JobsAreSound(s) && s.mutex == Cleared && SlotWritePending(s, j)
    ensures exists t :: Reachable(t) && TwoRunning(t)
  {
    LateWriteHides(s, j);
    ReachesAfter(s, Publish);
    var s1 := After(s, Publish);
    ReachesAfter(s1, WriteSlot(j));
    var s2 := After(s1, WriteSlot(j));
    ReachesAfter(s2, Enter);
    var s3 := After(s2, Enter);
    ReachesAfter(s3, Clear);
    var s4 := After(s3, Clear);
    ReachesAfter(s4, Publish);
    var t := After(s4, Publish);
    assert t.jobs[|s.jobs|].status == Running && t.jobs[|s.jobs| + 1].status == Running;
  }

  lemma {:induction false} FieldsGetCopied(s: State)
    requires Reachable(s) && JobsAreSound(s) && |s.jobs| == 1 && s.jobs[0].task.Copying? && s.latest == Some(0)
             && s.mutex == Free
    ensures exists t :: Reachable(t) && JobsAreSound(t) && t.mutex == Cleared && SlotWritePending(t, 0)
    decreases COUNTS + 1 - s.jobs[0].task.next
  {
    assert JobIsSound(s.jobs[0]);
    if s.jobs[0].task.next <= COUNTS {
      ReachesAfter(s, CopyField(0));
      FieldsGetCopied(After(s, CopyField(0)));
    } else {
      ReachesAfter(s, Complete(0));
      var s1 := After(s, Complete(0));
      ReachesAfter(s1, Enter);
      var s2 := After(s1, Enter);
      ReachesAfter(s2, Clear);
      assert SlotWritePending(After(s2, Clear), 0);
    }
  }

  /** From the empty slot, with completion and slot write apart: two jobs end up running at once. */
  lemma TwoJobsCanRun()
    ensures exists t :: Reachable(t) && TwoRunning(t)
  {
    assert IsRun(START, []) && End(START, []) == START;
    ReachesAfter(START, Enter);
    var s1 := After(START, Enter);
    ReachesAfter(s1, Clear);
    var s2 := After(s1, Clear);
    ReachesAfter(s2, Publish);
    var s3 := After(s2, Publish);
    var response := Response("snapshot.tar", [1, 1, 1, 1, 1, 1, 1, 1]);
    ReachesAfter(s3, Respond(0, response));
    FieldsGetCopied(After(s3, Respond(0, response)));
    var s :| Reachable(s) && JobsAreSound(s) && s.mutex == Cleared && SlotWritePending(s, 0);
    HiddenJobIsJoined(s, 0);
  }
}
