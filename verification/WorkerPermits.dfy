/** Callers and worker threads of the gateway sharing eight permits.

    Every operation is a caller thread that polls for a permit, starts a worker and waits for
    it, and a worker thread that makes the call, gives the permit back and signals.  `Apply`
    executes one atomic step of one thread; the scheduler, the clock, cancellation, failing
    thread starts and the outcome of calls are arbitrary, so a run is any sequence of steps.
 */
module WorkerPermits {

  const MAX_CONCURRENT_TRANSPORT_REQUESTS := 8

  datatype Kind = Route | Transport

  /** What a worker leaves in the shared result list. */
  datatype Value = Answer(id: nat) | Fault(error: nat)

  datatype Outcome = Gave(id: nat) | Raised(error: nat) | Busy | Cancelled | DeadlineExceeded | StartFailed

  datatype Caller =
    | Polling                    // top of the acquisition loop
    | Acquiring                  // inside the bounded wait for a permit
    | Holding                    // has a permit, has not yet looked at cancel and deadline again
    | Undoing(reason: Outcome)   // about to give the permit back and leave
    | Starting                   // about to start the worker thread
    | Awaiting                   // polls the finished flag
    | Left(outcome: Outcome)

  datatype Worker =
    | Unborn
    | InCall                     // route or transport call in progress
    | Returned                   // result recorded, permit not yet released
    | Released                   // permit released, finished flag not yet set
    | Ended

  /** One operation; `acquires` and `releases` record the permit traffic it caused. */
  datatype Operation = Operation(
    kind: Kind, caller: Caller, worker: Worker, result: seq<Value>, finished: bool, acquires: nat, releases: nat)

  /** `overReleased` and `emptyRead` record the two errors the program could run into: a release
      beyond the bound of the semaphore, and reading `result[0]` before it exists. */
  datatype System = System(free: nat, operations: seq<Operation>, overReleased: bool, emptyRead: bool)

  datatype Step =
    | Begin(kind: Kind)
    | Poll(i: nat, cancelled: bool, expired: bool)
    | TryAcquire(i: nat)
    | WaitExpires(i: nat)
    | Recheck(i: nat, cancelled: bool, expired: bool)
    | Undo(i: nat)
    | StartWorker(i: nat, ok: bool)
    | CallReturns(i: nat, value: Value)
    | WorkerReleases(i: nat)
    | WorkerSignals(i: nat)
    | Await(i: nat, cancelled: bool, expired: bool)

  function Initial(): System {
    System(MAX_CONCURRENT_TRANSPORT_REQUESTS, [], false, false)
  }

  /** Release of a bounded semaphore. */
  function Release(s: System): System {
    if s.free < MAX_CONCURRENT_TRANSPORT_REQUESTS then s.(free := s.free + 1) else s.(overReleased := true)
  }

  /** What a waiting caller does when it looks at the finished flag. */
  function Look(op: Operation, cancelled: bool, expired: bool): Caller {
    if op.finished then
      if op.result == [] then Awaiting
      else if op.kind == Route then
        if cancelled then Left(Cancelled)
        else if expired then Left(DeadlineExceeded)
        else Left(Reported(op.result[0]))
      else if op.result[0].Fault? && cancelled then Left(Cancelled)
      else Left(Reported(op.result[0]))
    else if expired then Left(if cancelled then Cancelled else DeadlineExceeded)
    else Awaiting
  }

  function Reported(v: Value): Outcome {
    match v
    case Answer(id) => Gave(id)
    case Fault(e) => Raised(e)
  }

  /** The permit traffic of a step. */
  predicate Takes(op: Operation, step: Step, available: bool) {
    step.TryAcquire? && op.caller == Acquiring && available
  }

  predicate Gives(op: Operation, step: Step) {
    (step.Undo? && op.caller.Undoing?) || (step.WorkerReleases? && op.worker == Returned)
  }

  /** The operation after one of its threads took a step; a step that is not enabled changes nothing. */
  function Local(op: Operation, step: Step, available: bool): Operation {
    match step
    case Begin(_) => op
    case Poll(_, cancelled, expired) =>
      if op.caller != Polling then op
      else op.(caller := if cancelled then Left(Cancelled) else if expired then Left(Busy) else Acquiring)
    case TryAcquire(_) =>
      if Takes(op, step, available) then op.(caller := Holding, acquires := op.acquires + 1) else op
    case WaitExpires(_) =>
      if op.caller != Acquiring then op else op.(caller := Polling)
    case Recheck(_, cancelled, expired) =>
      if op.caller != Holding then op
      else op.(caller := if cancelled then Undoing(Cancelled) else if expired then Undoing(Busy) else Starting)
    case Undo(_) =>
      if Gives(op, step) then op.(caller := Left(op.caller.reason), releases := op.releases + 1) else op
    case StartWorker(_, ok) =>
      if op.caller != Starting then op
      else if ok then op.(caller := Awaiting, worker := InCall)
      else op.(caller := Undoing(StartFailed))
    case CallReturns(_, value) =>
      if op.worker != InCall then op else op.(worker := Returned, result := op.result + [value])
    case WorkerReleases(_) =>
      if Gives(op, step) then op.(worker := Released, releases := op.releases + 1) else op
    case WorkerSignals(_) =>
      if op.worker != Released then op else op.(worker := Ended, finished := true)
    case Await(_, cancelled, expired) =>
      if op.caller != Awaiting then op else op.(caller := Look(op, cancelled, expired))
  }

  predicate ReadsEmpty(op: Operation, step: Step) {
    step.Await? && op.caller == Awaiting && op.finished && op.result == []
  }

  function Apply(s: System, step: Step): System {
    if step.Begin? then
      s.(operations := s.operations + [Operation(step.kind, Polling, Unborn, [], false, 0, 0)])
    else if step.i >= |s.operations| then s
    else
      var op := s.operations[step.i];
      var available := s.free > 0;
      var t := if Takes(op, step, available) then s.(free := s.free - 1) else if Gives(op, step) then Release(s) else s;
      t.(operations := s.operations[step.i := Local(op, step, available)], emptyRead := s.emptyRead || ReadsEmpty(op, step))
  }

  function Run(steps: seq<Step>): System {
    if steps == [] then Initial() else Apply(Run(steps[..|steps| - 1]), steps[|steps| - 1])
  }

  // ---------- counting ----------

  /** The operation holds a permit: its caller before the hand-over, its worker until the release. */
  predicate Holds(op: Operation) {
    op.caller.Holding? || op.caller.Undoing? || op.caller.Starting? || op.worker.InCall? || op.worker.Returned?
  }

  function Permits(op: Operation): nat {
    if Holds(op) then 1 else 0
  }

  function Held(ops: seq<Operation>): nat {
    if ops == [] then 0 else Held(ops[..|ops| - 1]) + Permits(ops[|ops| - 1])
  }

  /** Route and transport calls in progress, including those whose caller has already left. */
  function CallsInProgress(ops: seq<Operation>): nat {
    if ops == [] then 0 else CallsInProgress(ops[..|ops| - 1]) + (if ops[|ops| - 1].worker.InCall? then 1 else 0)
  }

  lemma {:induction false} HeldUpdate(ops: seq<Operation>, i: nat, op: Operation)
    requires i < |ops|
    ensures Held(ops[i := op]) == Held(ops) - Permits(ops[i]) + Permits(op)
  {
    var n := |ops| - 1;
    if i < n {
      HeldUpdate(ops[..n], i, op);
      assert ops[i := op][..n] == ops[..n][i := op];
    } else {
      assert ops[i := op][..n] == ops[..n];
    }
  }

  lemma {:induction false} CallsAreHeld(ops: seq<Operation>)
    ensures CallsInProgress(ops) <= Held(ops)
  {
    if ops != [] {
      CallsAreHeld(ops[..|ops| - 1]);
    }
  }

  // ---------- the invariant ----------

  predicate BeforeStart(c: Caller) {
    c.Polling? || c.Acquiring? || c.Holding? || c.Undoing? || c.Starting?
  }

  predicate WellFormed(op: Operation) {
    // one permit at most, and none lost: what was acquired and not yet released is held
    && op.acquires <= 1
    && op.acquires == op.releases + (if Holds(op) then 1 else 0)
    // the worker exists exactly between a successful start and ever after
    && (BeforeStart(op.caller) ==> op.worker.Unborn?)
    && (op.caller.Awaiting? ==> !op.worker.Unborn?)
    && (op.caller.Polling? || op.caller.Acquiring? ==> op.acquires == 0)
    && (!op.worker.Unborn? ==> op.acquires == 1)
    // the result is there, once, before the flag is set
    && |op.result| == (if op.worker.Returned? || op.worker.Released? || op.worker.Ended? then 1 else 0)
    && (op.finished <==> op.worker.Ended?)
    && (op.caller.Undoing? ==> !op.caller.reason.Gave? && !op.caller.reason.Raised?)
    // what a caller reports is what its own worker left
    && (op.caller.Left? && (op.caller.outcome.Gave? || op.caller.outcome.Raised?) ==>
          op.finished && op.caller.outcome == Reported(op.result[0]))
  }

  ghost predicate AllWellFormed(ops: seq<Operation>) {
    forall i :: 0 <= i < |ops| ==> WellFormed(ops[i])
  }

  ghost predicate Sound(s: System) {
    && s.free + Held(s.operations) == MAX_CONCURRENT_TRANSPORT_REQUESTS
    && !s.overReleased
    && !s.emptyRead
    && AllWellFormed(s.operations)
  }

  /** One step of one operation, in isolation. */
  lemma LocalKeeps(op: Operation, step: Step, available: bool)
    requires WellFormed(op) && !step.Begin?
    ensures var after := Local(op, step, available);
      && WellFormed(after)
      && !ReadsEmpty(op, step)
      && (Gives(op, step) ==> Holds(op))
      && Permits(after) == Permits(op) + (if Takes(op, step, available) then 1 else 0) - (if Gives(op, step) then 1 else 0)
  {
  }

  lemma BeginKeepsSound(s: System, kind: Kind)
    requires Sound(s)
    ensures Sound(Apply(s, Begin(kind)))
  {
    var op := Operation(kind, Polling, Unborn, [], false, 0, 0);
    assert (s.operations + [op])[..|s.operations|] == s.operations;
    assert WellFormed(op);
  }

  lemma UpdateKeepsWellFormed(ops: seq<Operation>, i: nat, op: Operation)
    requires i < |ops| && AllWellFormed(ops) && WellFormed(op)
    ensures AllWellFormed(ops[i := op])
  {
  }

  lemma ApplyKeepsSound(s: System, step: Step)
    requires Sound(s)
    ensures Sound(Apply(s, step))
  {
    if step.Begin? {
      BeginKeepsSound(s, step.kind);
    } else if step.i < |s.operations| {
      var op := s.operations[step.i];
      var after := Local(op, step, s.free > 0);
      LocalKeeps(op, step, s.free > 0);
      UpdateKeepsWellFormed(s.operations, step.i, after);
      HeldUpdate(s.operations, step.i, after);
      if Holds(op) {
        HeldPositive(s.operations, step.i);
      }
    }
  }

  /** A held permit is missing from the semaphore, so its release stays within the bound. */
  lemma {:induction false} HeldPositive(ops: seq<Operation>, i: nat)
    requires i < |ops| && Holds(ops[i])
    ensures Held(ops) >= 1
  {
    if i < |ops| - 1 {
      HeldPositive(ops[..|ops| - 1], i);
    }
  }

  lemma {:induction false} EveryRunIsSound(steps: seq<Step>)
    ensures Sound(Run(steps))
  {
    if steps != [] {
      EveryRunIsSound(steps[..|steps| - 1]);
      ApplyKeepsSound(Run(steps[..|steps| - 1]), steps[|steps| - 1]);
    }
  }

  // ---------- what that means ----------

  /** In every interleaving: permits are conserved, never over-released, and at most eight calls run. */
  lemma PermitsAreConserved(steps: seq<Step>)
    ensures var s := Run(steps);
      && s.free + Held(s.operations) == 8
      && CallsInProgress(s.operations) <= 8
      && !s.overReleased
  {
    EveryRunIsSound(steps);
    CallsAreHeld(Run(steps).operations);
  }

  /** A caller that has a permit and looks again gives it back on cancellation, or else past the deadline. */
  lemma WhyUndone(op: Operation, step: Step, available: bool)
    requires !op.caller.Undoing?
    ensures Local(op, step, available).caller.Undoing? <==>
      || (step.Recheck? && op.caller.Holding? && (step.cancelled || step.expired))
      || (step.StartWorker? && op.caller.Starting? && !step.ok)
    ensures Local(op, step, available).caller.Undoing? ==>
      match Local(op, step, available).caller.reason
      case Cancelled => step.Recheck? && step.cancelled
      case Busy => step.Recheck? && step.expired && !step.cancelled
      case StartFailed => step.StartWorker?
      case _ => false
  {
  }

  /** When a caller leaves, and with what: cancellation comes before the deadline, an expired transport call that
      has finished still reports its result, and an answer of one is not lost even to a cancellation. */
  lemma WhyLeft(op: Operation, step: Step, available: bool)
    requires WellFormed(op) && !op.caller.Left? && Local(op, step, available).caller.Left?
    ensures (step.Undo? && op.caller.Undoing?) || (step.Poll? && op.caller.Polling?) || (step.Await? && op.caller.Awaiting?)
    ensures step.Undo? ==> Local(op, step, available).caller.outcome == op.caller.reason
    ensures !step.Undo? ==>
      match Local(op, step, available).caller.outcome
      case Gave(id) => step.Await? && op.finished && op.result == [Answer(id)] && (op.kind == Route ==> !step.cancelled && !step.expired)
      case Raised(e) => step.Await? && op.finished && op.result == [Fault(e)] && !step.cancelled && (op.kind == Route ==> !step.expired)
      case Cancelled => step.cancelled && (step.Await? && !op.finished ==> step.expired)
                        && (step.Await? && op.finished ==> op.kind == Route || op.result[0].Fault?)
      case DeadlineExceeded => step.Await? && step.expired && !step.cancelled && (op.finished ==> op.kind == Route)
      case Busy => step.Poll? && step.expired && !step.cancelled
      case StartFailed => false
  {
  }

  /** Nothing else keeps a caller: past the deadline or once its worker has finished, a look makes it leave. */
  lemma LeavesInTime(op: Operation, step: Step, available: bool)
    requires WellFormed(op)
    requires (step.Await? && op.caller.Awaiting? && (op.finished || step.expired)) || (step.Poll? && op.caller.Polling? && (step.cancelled || step.expired))
    ensures Local(op, step, available).caller.Left?
  {
  }

  /** Whenever the finished flag is set, `result[0]` exists and is the only result. */
  lemma FinishedHasResult(steps: seq<Step>, i: nat)
    requires i < |Run(steps).operations|
    ensures var s := Run(steps);
      !s.emptyRead && (s.operations[i].finished ==> |s.operations[i].result| == 1)
  {
    EveryRunIsSound(steps);
  }

  /** Both threads of the operation are past their last permit action. */
  predicate Quiet(op: Operation) {
    op.caller.Left? && (op.worker.Unborn? || op.worker.Released? || op.worker.Ended?)
  }

  /** A permit is released exactly as often as it was acquired, however the operation ended: failed
      start, cancellation right after the acquisition, or a caller that gave up on its worker. */
  lemma QuietReleasedExactlyOnce(steps: seq<Step>, i: nat)
    requires i < |Run(steps).operations| && Quiet(Run(steps).operations[i])
    ensures var op := Run(steps).operations[i]; op.releases == op.acquires <= 1
  {
    EveryRunIsSound(steps);
  }

  /** When everything is quiet the semaphore is full again. */
  lemma QuietRestoresCapacity(steps: seq<Step>)
    requires forall i :: 0 <= i < |Run(steps).operations| ==> Quiet(Run(steps).operations[i])
    ensures Run(steps).free == 8
  {
    EveryRunIsSound(steps);
    NoneHeld(Run(steps).operations);
  }

  lemma {:induction false} NoneHeld(ops: seq<Operation>)
    requires forall i :: 0 <= i < |ops| ==> Quiet(ops[i]) && WellFormed(ops[i])
    ensures Held(ops) == 0
  {
    if ops != [] {
      NoneHeld(ops[..|ops| - 1]);
    }
  }

  predicate LaterOf(before: Operation, after: Operation) {
    && (before.caller.Left? ==> after.caller == before.caller)
    && before.result <= after.result
    && (before.finished ==> after.finished)
    && before.acquires <= after.acquires && before.releases <= after.releases
  }

  lemma ApplyLater(s: System, step: Step, i: nat)
    requires i < |s.operations|
    ensures i < |Apply(s, step).operations| && LaterOf(s.operations[i], Apply(s, step).operations[i])
  {
    hide Held;
    if !step.Begin? && step.i == i {
      var op := s.operations[i];
      assert Apply(s, step).operations[i] == Local(op, step, s.free > 0);
    }
  }

  /** A caller that has left never comes back, and a result that has been recorded never changes. */
  lemma {:induction false} LaterStepsKeep(steps: seq<Step>, more: seq<Step>, i: nat)
    requires i < |Run(steps).operations|
    ensures i < |Run(steps + more).operations|
    ensures LaterOf(Run(steps).operations[i], Run(steps + more).operations[i])
    decreases |more|
  {
    if more == [] {
      assert steps + more == steps;
    } else {
      var n := |more| - 1;
      LaterStepsKeep(steps, more[..n], i);
      RunSnoc(steps, more);
      ApplyLater(Run(steps + more[..n]), more[n], i);
    }
  }

  /** Every permit is inside a call. */
  ghost predicate Saturated(s: System) {
    Sound(s) && s.free == 0 && forall i :: 0 <= i < |s.operations| && Holds(s.operations[i]) ==> s.operations[i].worker.InCall?
  }

  lemma {:induction false} OnlyCallsHold(ops: seq<Operation>, i: nat)
    requires Held(ops) == CallsInProgress(ops) && i < |ops| && Holds(ops[i])
    ensures ops[i].worker.InCall?
  {
    CallsAreHeld(ops[..|ops| - 1]);
    if i < |ops| - 1 {
      OnlyCallsHold(ops[..|ops| - 1], i);
    }
  }

  lemma SaturatedStep(s: System, step: Step, i: nat)
    requires Saturated(s) && !step.CallReturns?
    ensures Saturated(Apply(s, step))
    ensures |s.operations| <= |Apply(s, step).operations|
    ensures i < |s.operations| ==> Apply(s, step).operations[i].acquires == s.operations[i].acquires
    ensures |s.operations| <= i < |Apply(s, step).operations| ==> Apply(s, step).operations[i].acquires == 0
  {
    hide Held;
    ApplyKeepsSound(s, step);
    if !step.Begin? && step.i < |s.operations| {
      LocalKeeps(s.operations[step.i], step, false);
    }
  }

  /** Eight calls that hang shut the gateway: until one of them returns, whatever the threads do, no
      operation that starts afterwards ever gets a permit. */
  lemma {:induction false} HungCallsShutTheGateway(steps: seq<Step>, more: seq<Step>, i: nat)
    requires CallsInProgress(Run(steps).operations) == 8
    requires forall k :: 0 <= k < |more| ==> !more[k].CallReturns?
    ensures Saturated(Run(steps + more))
    ensures |Run(steps).operations| <= |Run(steps + more).operations|
    ensures |Run(steps).operations| <= i < |Run(steps + more).operations| ==> Run(steps + more).operations[i].acquires == 0
    decreases |more|
  {
    if more == [] {
      assert steps + more == steps;
      NowSaturated(steps);
    } else {
      var n := |more| - 1;
      HungCallsShutTheGateway(steps, more[..n], i);
      RunSnoc(steps, more);
      SaturatedStep(Run(steps + more[..n]), more[n], i);
    }
  }

  lemma NowSaturated(steps: seq<Step>)
    requires CallsInProgress(Run(steps).operations) == MAX_CONCURRENT_TRANSPORT_REQUESTS
    ensures Saturated(Run(steps))
  {
    EveryRunIsSound(steps);
    var ops := Run(steps).operations;
    CallsAreHeld(ops);
    forall k | 0 <= k < |ops| && Holds(ops[k]) ensures ops[k].worker.InCall? {
      OnlyCallsHold(ops, k);
    }
  }

  lemma RunSnoc(steps: seq<Step>, more: seq<Step>)
    requires more != []
    ensures Run(steps + more) == Apply(Run(steps + more[..|more| - 1]), more[|more| - 1])
  {
    hide Apply, Initial;
    assert (steps + more)[..|steps + more| - 1] == steps + more[..|more| - 1];
  }
}
