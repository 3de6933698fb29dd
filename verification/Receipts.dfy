/** Validation receipts: child processes run together, and a receipt that completes only when all passed.

    The children's exits, the signals and the outcome of stopping a process group are arbitrary.
    Signals are taken before a check is appended, between appending it and owning its process, and at
    each polling round.
 */
module Receipts {
  import opened Wrappers

  datatype CheckStatus = Running | Passed | Failed | Interrupted | CleanupFailed

  datatype Check = Check(status: CheckStatus, exitCode: Option<int>)

  datatype ReceiptStatus = InProgress | Stopped | Broken | Complete

  const COULD_NOT_START := 127

  // ---------- what happens from outside ----------

  /** At a command's turn: a signal arrives before its check is appended, or after that but before its
      process is owned, or the process starts, or it cannot be started. */
  datatype Start = SignalFirst | SignalUnowned | Starts | CannotStart

  /** A polling round: a signal arrives, or each child reports an exit code or none yet. */
  datatype Round = Signal | Poll(exit: nat -> Option<int>)

  /** One call's commands, the rounds it lives through, and which groups can be stopped. */
  datatype Plan = Plan(starts: seq<Start>, rounds: seq<Round>, stops: nat -> bool)

  datatype Cause = StartFailed | ChildFailed | Signalled

  /** How a call ends; `Pending` when the rounds seen so far leave children running. */
  datatype Outcome = Returned | Raised(cause: Cause, cleanupFailed: bool) | Pending

  // ---------- which plans succeed ----------

  /** The child has an exit code by round `r`. */
  ghost predicate ExitedBefore(rounds: seq<Round>, c: nat, r: nat) {
    exists q :: 0 <= q < r && q < |rounds| && rounds[q].Poll? && rounds[q].exit(c).Some?
  }

  /** Round `r` goes by without a signal, and no child first reports a failure in it. */
  ghost predicate QuietAt(plan: Plan, r: nat)
    requires r < |plan.rounds|
  {
    && plan.rounds[r].Poll?
    && forall c: nat :: c < |plan.starts| && !ExitedBefore(plan.rounds, c, r) ==>
         (plan.rounds[r].exit(c) == None || plan.rounds[r].exit(c) == Some(0))
  }

  ghost predicate QuietUntil(plan: Plan, r: nat) {
    r <= |plan.rounds| && forall q :: 0 <= q < r ==> QuietAt(plan, q)
  }

  predicate AllStart(starts: seq<Start>) {
    forall k :: 0 <= k < |starts| ==> starts[k] == Starts
  }

  /** How many checks the commands append: all up to the first that does not start, whose own check is
      appended unless a signal came before. */
  function Begun(starts: seq<Start>): nat {
    if starts == [] || starts[0] == SignalFirst then 0
    else if starts[0] == Starts then 1 + Begun(starts[1..])
    else 1
  }

  /** A signal comes after a check was appended and before its process is owned. */
  predicate Strays(starts: seq<Start>) {
    starts != [] && (starts[0] == SignalUnowned || (starts[0] == Starts && Strays(starts[1..])))
  }

  lemma BegunNext(starts: seq<Start>, k: nat)
    requires k < |starts|
    ensures starts[k] == Starts ==> Begun(starts[k..]) == 1 + Begun(starts[k + 1..]) && Strays(starts[k..]) == Strays(starts[k + 1..])
    ensures starts[k] != Starts ==> Begun(starts[k..]) == (if starts[k] == SignalFirst then 0 else 1)
    ensures starts[k] != Starts ==> Strays(starts[k..]) == (starts[k] == SignalUnowned)
  {
    assert starts[k..][1..] == starts[k + 1..];
  }

  /** Command `k` is the first that does not start. */
  predicate FirstStop(starts: seq<Start>, k: nat) {
    k < |starts| && starts[k] != Starts && forall j :: 0 <= j < k ==> starts[j] == Starts
  }

  /** The first command that does not start cannot be started. */
  ghost predicate Unstartable(starts: seq<Start>) {
    exists k: nat :: FirstStop(starts, k) && starts[k] == CannotStart
  }

  lemma StopsAt(starts: seq<Start>, k: nat)
    requires FirstStop(starts, k)
    ensures Unstartable(starts) <==> starts[k] == CannotStart
  {
  }

  /** Every child has exited by round `r`, all quietly. */
  ghost predicate DoneBy(plan: Plan, r: nat) {
    QuietUntil(plan, r) && forall c: nat :: c < |plan.starts| ==> ExitedBefore(plan.rounds, c, r)
  }

  /** Every command starts, and every child exits with zero before any signal or failure is seen. */
  ghost predicate Succeeds(plan: Plan) {
    AllStart(plan.starts) && exists r :: 0 <= r <= |plan.rounds| && DoneBy(plan, r)
  }

  // ---------- the checks of one call ----------

  /** A check that passed: its child exited with code zero. */
  predicate IsPassed(c: Check) {
    c.status == Passed && c.exitCode == Some(0)
  }

  predicate Ascending(s: seq<nat>) {
    forall i, j :: 0 <= i < j < |s| ==> s[i] < s[j]
  }

  /** While nothing has gone wrong, each check of the call is running and owned, or passed. */
  predicate Healthy(checks: seq<Check>, base: nat, running: seq<nat>) {
    && base <= |checks| && Ascending(running)
    && (forall c :: c in running ==> base <= c < |checks| && checks[c].status == Running)
    && (forall c :: base <= c < |checks| && c !in running ==> IsPassed(checks[c]))
  }

  /** Check `c` is the last one, whose process is not owned. */
  predicate IsStray(checks: seq<Check>, stray: bool, c: nat) {
    stray && c + 1 == |checks|
  }

  /** After a failure: the children still owned are running, and otherwise only a stray check is. */
  predicate Wounded(checks: seq<Check>, base: nat, running: seq<nat>, stray: bool) {
    && base <= |checks| && Ascending(running)
    && (forall c :: c in running ==> base <= c < |checks| && checks[c].status == Running)
    && (forall c :: base <= c < |checks| && c !in running ==> (checks[c].status == Running <==> IsStray(checks, stray, c)))
    && (forall c :: c in running ==> !IsStray(checks, stray, c))
  }

  /** The call's child number `c` is among those owned. */
  predicate Owns(running: seq<nat>, base: nat, c: nat) {
    base + c in running
  }

  /** Of the children polled, those left are the ones without an exit code. */
  ghost predicate Waits(left: seq<nat>, polled: seq<nat>, base: nat, exit: nat -> Option<int>) {
    forall c: nat :: Owns(left, base, c) <==> Owns(polled, base, c) && exit(c) == None
  }

  /** None of the children polled reports a failure. */
  ghost predicate NoFailure(polled: seq<nat>, base: nat, exit: nat -> Option<int>) {
    forall c: nat :: Owns(polled, base, c) ==> exit(c) == None || exit(c) == Some(0)
  }

  predicate SomeNotPassed(checks: seq<Check>, base: nat) {
    exists c :: base <= c < |checks| && checks[c].status != Passed
  }

  /** No check of the call is left running, but for a stray one. */
  predicate NoneRunning(checks: seq<Check>, base: nat, stray: bool) {
    forall c :: base <= c < |checks| ==> (checks[c].status == Running <==> IsStray(checks, stray, c))
  }

  predicate AllPassed(checks: seq<Check>, base: nat) {
    forall c :: base <= c < |checks| ==> IsPassed(checks[c])
  }

  /** How a call leaves the checks it started. */
  predicate Settled(outcome: Outcome, checks: seq<Check>, base: nat, stray: bool) {
    match outcome
    case Returned => AllPassed(checks, base)
    case Raised(_, _) => NoneRunning(checks, base, stray) && (|checks| > base ==> SomeNotPassed(checks, base))
    case Pending => SomeNotPassed(checks, base)
  }

  /** The group of one of these children cannot be stopped. */
  ghost predicate SomeStick(running: seq<nat>, base: nat, stops: nat -> bool) {
    exists c :: c in running && base <= c && !stops(c - base)
  }

  lemma SticksSnoc(running: seq<nat>, c: nat, base: nat, stops: nat -> bool)
    requires base <= c
    ensures SomeStick(running + [c], base, stops) <==> SomeStick(running, base, stops) || !stops(c - base)
  {
    if SomeStick(running, base, stops) {
      var d :| d in running && base <= d && !stops(d - base);
      assert d in running + [c];
    }
    assert c in running + [c];
  }

  class Receipt {
    var status: ReceiptStatus
    var checks: seq<Check>

    constructor ()
      ensures status == InProgress && checks == []
    {
      status, checks := InProgress, [];
    }

    /** Marks one check. */
    method Mark(c: nat, check: Check)
      requires c < |checks|
      modifies this`checks
      ensures checks == old(checks)[c := check]
    {
      checks := checks[c := check];
    }

    /** Records the exit of an owned child. */
    method RecordExit(base: nat, ghost left: seq<nat>, c: nat, ghost rest: seq<nat>, code: int)
      requires Healthy(checks, base, left + [c] + rest)
      modifies this`checks
      ensures |checks| == |old(checks)| && checks[..base] == old(checks)[..base]
      ensures code == 0 ==> Healthy(checks, base, left + rest)
      ensures code != 0 ==> Wounded(checks, base, left + rest, false) && SomeNotPassed(checks, base)
    {
      Finished(checks, base, left, c, rest, code);
      Mark(c, Check(if code == 0 then Passed else Failed, Some(code)));
    }

    /** One polling round: children that exited with zero are recorded as passed, the first other exit fails. */
    method PollAll(base: nat, running: seq<nat>, exit: nat -> Option<int>) returns (left: seq<nat>, failed: bool)
      requires Healthy(checks, base, running)
      modifies this`checks
      ensures |checks| == |old(checks)| && checks[..base] == old(checks)[..base]
      ensures !failed ==> Healthy(checks, base, left)
      ensures failed ==> Wounded(checks, base, left, false) && SomeNotPassed(checks, base)
      ensures failed <==> !NoFailure(running, base, exit)
      ensures !failed ==> Waits(left, running, base, exit)
    {
      left, failed := [], false;
      for k := 0 to |running|
        invariant |checks| == |old(checks)| && checks[..base] == old(checks)[..base]
        invariant Healthy(checks, base, left + running[k..])
        invariant NoFailure(running[..k], base, exit)
        invariant Waits(left, running[..k], base, exit)
      {
        var c := running[k];
        assert left + running[k..] == left + [c] + running[k + 1..];
        assert (left + running[k..])[|left|] == c && c in left + running[k..];
        assert running[..k + 1] == running[..k] + [c];
        WaitsSnoc(left, running[..k], c, base, exit);
        match exit(c - base) {
          case None =>
            left := left + [c];
          case Some(code) =>
            RecordExit(base, left, c, running[k + 1..], code);
            if code != 0 {
              left, failed := left + running[k + 1..], true;
              assert Owns(running, base, c - base);
              return;
            }
        }
      }
      assert left + running[|running|..] == left && running[..|running|] == running;
    }

    /** Stops every group still owned; those that cannot be stopped are recorded as such. */
    method StopAll(base: nat, running: seq<nat>, stops: nat -> bool, ghost stray: bool) returns (cleanupFailed: bool)
      requires Wounded(checks, base, running, stray)
      modifies this`checks
      ensures |checks| == |old(checks)| && checks[..base] == old(checks)[..base]
      ensures NoneRunning(checks, base, stray)
      ensures forall c :: base <= c < |checks| ==>
        (c in running ==> checks[c].status == if stops(c - base) then Interrupted else CleanupFailed)
      ensures forall c :: base <= c < |checks| ==> (c !in running ==> checks[c] == old(checks)[c])
      ensures cleanupFailed <==> SomeStick(running, base, stops)
    {
      hide Ascending;
      cleanupFailed := false;
      for k := 0 to |running|
        invariant |checks| == |old(checks)| && checks[..base] == old(checks)[..base]
        invariant forall c :: base <= c < |checks| ==>
          (c in running[..k] ==> checks[c].status == if stops(c - base) then Interrupted else CleanupFailed)
        invariant forall c :: base <= c < |checks| ==> (c !in running[..k] ==> checks[c] == old(checks)[c])
        invariant cleanupFailed <==> SomeStick(running[..k], base, stops)
      {
        var c := running[k];
        assert running[..k + 1] == running[..k] + [c];
        assert c in running;
        Mark(c, checks[c].(status := if stops(c - base) then Interrupted else CleanupFailed));
        SticksSnoc(running[..k], c, base, stops);
        cleanupFailed := cleanupFailed || !stops(c - base);
      }
      assert running[..|running|] == running;
    }

    /** Starts the commands in turn, appending a running check for each. */
    method StartAll(starts: seq<Start>) returns (running: seq<nat>, trouble: Option<Cause>)
      modifies this`checks
      ensures |checks| == |old(checks)| + Begun(starts) && checks[..|old(checks)|] == old(checks)
      ensures trouble == None ==> Healthy(checks, |old(checks)|, running) && |checks| == |old(checks)| + |starts|
      ensures trouble.Some? ==> Wounded(checks, |old(checks)|, running, Strays(starts))
      ensures trouble == None ==> !Strays(starts)
      ensures trouble.Some? && |running| == 0 && |checks| > |old(checks)| ==> SomeNotPassed(checks, |old(checks)|)
      ensures trouble.Some? ==> trouble.value != ChildFailed
      ensures trouble == None <==> AllStart(starts)
      ensures trouble == None ==> forall c: nat :: Owns(running, |old(checks)|, c) <==> c < |starts|
      ensures trouble.Some? ==> FirstStop(starts, |running|)
      ensures trouble == Some(StartFailed) <==> Unstartable(starts)
      ensures trouble == Some(StartFailed) ==> |checks| > |old(checks)| && checks[|checks| - 1] == Check(Failed, Some(127))
    {
      hide Healthy, Wounded, Owns, SomeNotPassed, Begun, Strays;
      ghost var base := |checks|;
      running, trouble := [], None;
      NothingOwned(checks);
      for k := 0 to |starts|
        invariant |checks| == base + k && checks[..base] == old(checks)
        invariant Healthy(checks, base, running) && |running| == k
        invariant forall i :: 0 <= i < k ==> starts[i] == Starts
        invariant Begun(starts) == k + Begun(starts[k..]) && Strays(starts) == Strays(starts[k..])
        invariant forall c: nat :: Owns(running, base, c) <==> c < k
      {
        BegunNext(starts, k);
        if starts[k] != Starts {
          StopsAt(starts, k);
        }
        match starts[k] {
          case SignalFirst =>
            StillHealthy(checks, base, running);
            trouble := Some(Signalled);
            return;
          case SignalUnowned =>
            OneUnowned(checks, base, running, Check(Running, None));
            checks := checks + [Check(Running, None)];
            trouble := Some(Signalled);
            return;
          case CannotStart =>
            OneUnowned(checks, base, running, Check(Failed, Some(COULD_NOT_START)));
            checks := checks + [Check(Running, None)];
            Mark(|checks| - 1, Check(Failed, Some(COULD_NOT_START)));
            assert checks == checks[..base + k] + [Check(Failed, Some(COULD_NOT_START))];
            trouble := Some(StartFailed);
            return;
          case Starts =>
            OneOwned(checks, base, running, k);
            checks := checks + [Check(Running, None)];
            running := running + [|checks| - 1];
        }
      }
      NothingOwned([]);
      assert starts[|starts|..] == [];
    }

    /** Runs the commands together.  The call returns only when all its checks passed; when it raises, none
        of them is left running, but for one whose process was not yet owned when a signal came, and if any
        was begun one did not pass.  Earlier checks are untouched. */
    method RunMany(plan: Plan) returns (outcome: Outcome)
      modifies this
      ensures |checks| == |old(checks)| + Begun(plan.starts) && checks[..|old(checks)|] == old(checks)
      ensures Settled(outcome, checks, |old(checks)|, Strays(plan.starts))
      ensures outcome.Raised? ==> (|checks| == |old(checks)| <==> plan.starts != [] && plan.starts[0] == SignalFirst)
      ensures outcome == Returned <==> Succeeds(plan)
      ensures outcome.Raised? && outcome.cause == StartFailed <==> Unstartable(plan.starts)
      ensures outcome == Pending <==> AllStart(plan.starts) && QuietUntil(plan, |plan.rounds|) && !Succeeds(plan)
      ensures status == if outcome.Raised? && outcome.cause == Signalled then Stopped else old(status)
    {
      hide Unstartable, FirstStop, Strays, QuietAt, SomeStick, AllStart, Ascending;
      var base := |checks|;
      var running, trouble := StartAll(plan.starts);
      var round: nat := 0;
      while trouble == None && running != [] && round < |plan.rounds|
        invariant |checks| == base + Begun(plan.starts) && checks[..base] == old(checks) && status == old(status)
        invariant trouble == None ==> Healthy(checks, base, running) && |checks| == base + |plan.starts|
        invariant trouble == None ==> AllStart(plan.starts) && QuietUntil(plan, round) && Alive(plan, base, running, round)
        invariant trouble.Some? ==> !Succeeds(plan) && !(AllStart(plan.starts) && QuietUntil(plan, |plan.rounds|))
        invariant trouble.Some? ==> Wounded(checks, base, running, Strays(plan.starts))
        invariant trouble == None ==> !Strays(plan.starts)
        invariant trouble == Some(StartFailed) <==> Unstartable(plan.starts)
        invariant trouble.Some? && |running| == 0 && |checks| > base ==> SomeNotPassed(checks, base)
        decreases |plan.rounds| - round
      {
        match plan.rounds[round] {
          case Signal =>
            NotQuiet(plan, base, running, round);
            trouble := Some(Signalled);
          case Poll(exit) =>
            ghost var owned := running;
            var failed;
            running, failed := PollAll(base, running, exit);
            if failed {
              NotQuiet(plan, base, owned, round);
              trouble := Some(ChildFailed);
            } else {
              QuietRound(plan, base, owned, running, round);
            }
        }
        round := round + 1;
      }
      if trouble == None {
        if running == [] {
          assert DoneBy(plan, round);
          return Returned;
        }
        assert running[0] in running;
        StillAlive(plan, base, running, round);
        return Pending;
      }
      if trouble == Some(Signalled) {
        status := Stopped;
      }
      ghost var before := checks;
      var cleanupFailed := StopAll(base, running, plan.stops, Strays(plan.starts));
      StillNotPassed(before, checks, base, running, Strays(plan.starts));
      NothingToRun(plan);
      outcome := Raised(trouble.value, cleanupFailed);
    }

    /** A receipt completes exactly when it has checks and all of them passed. */
    method Finish() returns (completed: bool)
      modifies this`status
      ensures completed <==> checks != [] && forall c :: 0 <= c < |checks| ==> checks[c].status == Passed
      ensures status == if completed then Complete else old(status)
    {
      completed := checks != [];
      for k := 0 to |checks|
        invariant completed <==> checks != [] && forall c :: 0 <= c < k ==> checks[c].status == Passed
      {
        if checks[k].status != Passed {
          completed := false;
        }
      }
      if completed {
        status := Complete;
      }
    }

    method Fail()
      modifies this`status
      ensures status == Broken
    {
      status := Broken;
    }
  }

  lemma NothingToRun(plan: Plan)
    ensures plan.starts == [] ==> Succeeds(plan)
  {
    if plan.starts == [] {
      assert DoneBy(plan, 0);
    }
  }

  lemma NothingOwned(checks: seq<Check>)
    ensures Healthy(checks, |checks|, []) && forall c: nat :: !Owns([], |checks|, c)
    ensures Begun([]) == 0 && !Strays([])
  {
  }

  lemma StillHealthy(checks: seq<Check>, base: nat, running: seq<nat>)
    requires Healthy(checks, base, running)
    ensures Wounded(checks, base, running, false)
  {
  }

  /** A check whose process starts is owned. */
  lemma OneOwned(checks: seq<Check>, base: nat, running: seq<nat>, k: nat)
    requires Healthy(checks, base, running) && |checks| == base + k
    requires forall c: nat :: Owns(running, base, c) <==> c < k
    ensures Healthy(checks + [Check(Running, None)], base, running + [|checks|])
    ensures forall c: nat :: Owns(running + [|checks|], base, c) <==> c < k + 1
  {
    assert forall i :: 0 <= i < |running| ==> running[i] in running;
    assert forall c: nat :: Owns(running + [|checks|], base, c) <==> Owns(running, base, c) || c == k;
  }

  /** A check whose process is not owned is stray if it runs. */
  lemma OneUnowned(checks: seq<Check>, base: nat, running: seq<nat>, check: Check)
    requires Healthy(checks, base, running) && check.status != Passed
    ensures Wounded(checks + [check], base, running, check.status == Running) && SomeNotPassed(checks + [check], base)
  {
    assert (checks + [check])[|checks|].status != Passed;
  }

  lemma WaitsSnoc(left: seq<nat>, polled: seq<nat>, x: nat, base: nat, exit: nat -> Option<int>)
    requires Waits(left, polled, base, exit) && x >= base
    ensures Waits(if exit(x - base) == None then left + [x] else left, polled + [x], base, exit)
    ensures NoFailure(polled + [x], base, exit) <==>
      NoFailure(polled, base, exit) && (exit(x - base) == None || exit(x - base) == Some(0))
  {
    assert forall c: nat :: Owns(polled + [x], base, c) <==> Owns(polled, base, c) || c == x - base;
    var after := if exit(x - base) == None then left + [x] else left;
    forall c: nat ensures Owns(after, base, c) <==> Owns(polled + [x], base, c) && exit(c) == None {
      assert Owns(polled + [x], base, c) <==> Owns(polled, base, c) || base + c == x;
    }
  }

  function Skipping(n: nat, i: nat): nat {
    if i < n then i else i + 1
  }

  lemma AscendingWithout(left: seq<nat>, c: nat, rest: seq<nat>)
    requires Ascending(left + [c] + rest)
    ensures Ascending(left + rest)
    ensures forall x :: x in left + rest <==> x in left + [c] + rest && x != c
  {
    var all, fewer := left + [c] + rest, left + rest;
    assert forall i :: 0 <= i < |fewer| ==> fewer[i] == all[Skipping(|left|, i)];
    assert all[|left|] == c;
    forall i, j | 0 <= i < j < |fewer| ensures fewer[i] < fewer[j] {
      assert fewer[i] == all[Skipping(|left|, i)] && fewer[j] == all[Skipping(|left|, j)];
    }
    forall x | x in fewer ensures x in all && x != c {
      var i :| 0 <= i < |fewer| && fewer[i] == x;
      var j := Skipping(|left|, i);
      assert all[j] == x && j != |left|;
    }
    forall x | x in all && x != c ensures x in fewer {
      var i :| 0 <= i < |all| && all[i] == x;
      assert x == fewer[if i < |left| then i else i - 1];
    }
  }

  /** Recording the exit of an owned child. */
  lemma Finished(checks: seq<Check>, base: nat, left: seq<nat>, c: nat, rest: seq<nat>, code: int)
    requires Healthy(checks, base, left + [c] + rest)
    ensures base <= c < |checks|
    ensures var after := checks[c := Check(if code == 0 then Passed else Failed, Some(code))];
      && (code == 0 ==> Healthy(after, base, left + rest))
      && (code != 0 ==> Wounded(after, base, left + rest, false) && SomeNotPassed(after, base))
  {
    assert (left + [c] + rest)[|left|] == c && c in left + [c] + rest;
    AscendingWithout(left, c, rest);
    var after := checks[c := Check(if code == 0 then Passed else Failed, Some(code))];
    assert after[c].status == (if code == 0 then Passed else Failed);
  }

  /** Stopping what was owned leaves something that did not pass. */
  lemma StillNotPassed(before: seq<Check>, after: seq<Check>, base: nat, running: seq<nat>, stray: bool)
    requires |after| == |before| && Wounded(before, base, running, stray)
    requires forall c :: base <= c < |after| ==> (c in running ==> after[c].status in {Interrupted, CleanupFailed})
    requires forall c :: base <= c < |after| ==> (c !in running ==> after[c] == before[c])
    requires |running| == 0 && |before| > base ==> SomeNotPassed(before, base)
    ensures |after| > base ==> SomeNotPassed(after, base)
  {
    if |running| > 0 {
      assert running[0] in running;
    }
  }

  /** A call that appended a check and did not return. */
  ghost predicate Troubled(plan: Plan) {
    !Succeeds(plan) && Begun(plan.starts) > 0
  }

  /** Something was checked, and every call succeeded or never appended a check. */
  ghost predicate Completes(plans: seq<Plan>) {
    && (exists k :: 0 <= k < |plans| && Begun(plans[k].starts) > 0)
    && (forall k :: 0 <= k < |plans| ==> !Troubled(plans[k]))
  }

  /** Any sequence of calls on one receipt, then `Finish`: it completes exactly when something was checked
      and every call that appended a check succeeded. */
  method Session(plans: seq<Plan>) returns (receipt: Receipt, completed: bool)
    ensures completed <==> Completes(plans)
    ensures completed ==> AllPassed(receipt.checks, 0)
    ensures receipt.status == Complete <==> completed
  {
    receipt := new Receipt();
    for k := 0 to |plans|
      invariant fresh(receipt) && receipt.status != Complete
      invariant receipt.checks != [] <==> exists i :: 0 <= i < k && Begun(plans[i].starts) > 0
      invariant (forall i :: 0 <= i < k ==> !Troubled(plans[i])) ==> AllPassed(receipt.checks, 0)
      invariant (exists i :: 0 <= i < k && Troubled(plans[i])) ==> SomeNotPassed(receipt.checks, 0)
    {
      ghost var before := receipt.checks;
      var outcome := receipt.RunMany(plans[k]);
      OneMoreCall(before, receipt.checks, outcome, plans[k]);
    }
    completed := receipt.Finish();
  }

  /** A signal before the first start leaves no trace in the checks: an earlier success still completes. */
  lemma SignalFirstLeavesNoTrace(good: Plan, stopped: Plan)
    requires Succeeds(good) && good.starts != []
    requires stopped.starts != [] && stopped.starts[0] == SignalFirst
    ensures !Succeeds(stopped) && Completes([good, stopped])
  {
    assert Begun([good, stopped][0].starts) > 0;
  }

  /** Such a receipt: one command passes, the next call is interrupted before it starts anything. */
  method StoppedYetComplete() returns (receipt: Receipt, completed: bool)
    ensures completed && receipt.status == Complete
  {
    var good := Plan([Starts], [Poll(c => Some(0))], c => true);
    var stopped := Plan([SignalFirst], [], c => true);
    assert QuietAt(good, 0) && ExitedBefore(good.rounds, 0, 1);
    assert DoneBy(good, 1);
    SignalFirstLeavesNoTrace(good, stopped);
    receipt, completed := Session([good, stopped]);
  }

  lemma OneMoreCall(before: seq<Check>, after: seq<Check>, outcome: Outcome, plan: Plan)
    requires before <= after && |after| == |before| + Begun(plan.starts)
    requires Settled(outcome, after, |before|, Strays(plan.starts)) && (outcome == Returned <==> Succeeds(plan))
    ensures AllPassed(before, 0) && !Troubled(plan) ==> AllPassed(after, 0)
    ensures SomeNotPassed(before, 0) ==> SomeNotPassed(after, 0)
    ensures Troubled(plan) ==> SomeNotPassed(after, 0)
  {
    assert forall c :: 0 <= c < |before| ==> after[c] == before[c];
  }

  // ---------- the rounds seen so far ----------

  /** The owned children are exactly those without an exit code. */
  ghost predicate Alive(plan: Plan, base: nat, running: seq<nat>, r: nat) {
    forall c: nat :: Owns(running, base, c) <==> c < |plan.starts| && !ExitedBefore(plan.rounds, c, r)
  }

  lemma ExitedNext(rounds: seq<Round>, c: nat, r: nat)
    requires r < |rounds| && rounds[r].Poll?
    ensures ExitedBefore(rounds, c, r + 1) <==> ExitedBefore(rounds, c, r) || rounds[r].exit(c).Some?
  {
  }

  lemma ExitedLater(rounds: seq<Round>, c: nat, r: nat, later: nat)
    requires ExitedBefore(rounds, c, r) && r <= later
    ensures ExitedBefore(rounds, c, later)
  {
  }

  lemma QuietRound(plan: Plan, base: nat, owned: seq<nat>, left: seq<nat>, r: nat)
    requires r < |plan.rounds| && plan.rounds[r].Poll? && QuietUntil(plan, r) && Alive(plan, base, owned, r)
    requires NoFailure(owned, base, plan.rounds[r].exit)
    requires Waits(left, owned, base, plan.rounds[r].exit)
    ensures QuietUntil(plan, r + 1) && Alive(plan, base, left, r + 1)
  {
    forall c: nat ensures Owns(left, base, c) <==> c < |plan.starts| && !ExitedBefore(plan.rounds, c, r + 1) {
      ExitedNext(plan.rounds, c, r);
    }
    assert QuietAt(plan, r);
  }

  /** A signal or a failure while children are owned: the plan does not succeed. */
  lemma NotQuiet(plan: Plan, base: nat, owned: seq<nat>, r: nat)
    requires r < |plan.rounds| && owned != [] && Alive(plan, base, owned, r)
    requires forall c :: c in owned ==> c >= base
    requires plan.rounds[r].Poll? ==> !NoFailure(owned, base, plan.rounds[r].exit)
    ensures !Succeeds(plan) && !QuietUntil(plan, |plan.rounds|)
  {
    assert !QuietAt(plan, r);
    assert owned[0] in owned;
    var alive: nat := owned[0] - base;
    assert Owns(owned, base, alive);
    forall done | 0 <= done <= |plan.rounds| ensures !DoneBy(plan, done) {
      if done <= r && ExitedBefore(plan.rounds, alive, done) {
        ExitedLater(plan.rounds, alive, done, r);
      }
    }
  }

  /** Rounds ran out with children owned: the plan has not succeeded. */
  lemma StillAlive(plan: Plan, base: nat, owned: seq<nat>, r: nat)
    requires r == |plan.rounds| && owned != [] && Alive(plan, base, owned, r)
    requires forall c :: c in owned ==> c >= base
    ensures !Succeeds(plan)
  {
    assert owned[0] in owned;
    var alive: nat := owned[0] - base;
    assert Owns(owned, base, alive);
    forall done | 0 <= done <= |plan.rounds| ensures !DoneBy(plan, done) {
      if ExitedBefore(plan.rounds, alive, done) {
        ExitedLater(plan.rounds, alive, done, r);
      }
    }
  }
}
