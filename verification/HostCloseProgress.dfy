/**
 No lost wakeups, no deadlock and bounded termination of the Host close protocol.

 Every step lowers a measure of the state, so with `n` callers no schedule is longer than
 27 n + 15 steps, whatever is dropped, aborted or answered; and where the protocol owes no
 step, every caller is through, except that `connect_owned` may wait for a connection that
 is still running and that nobody has closed.
 */
module HostCloseProgress {
  import opened Prelude
  import opened HostClose
  import opened HostCloseInvariant
  import opened HostCloseSafety

  // ----- Lost wakeups -----

  /** Asleep in one of the two caller loops, not yet reached by a notification. */
  predicate Asleep(t: Task) {
    match t
    case Connecting(Awaiting(w)) => w == Parked(false)
    case Closing(_, Activating(_, w)) => w == Parked(false)
    case Closing(_, Settling(_, _, w)) => w == Parked(false)
    case _ => false
  }

  /** Once the collector has run its last notification nobody sleeps in a caller loop; once the
      activation has been notified nobody sleeps waiting for it; once the stop has been notified
      the actor does not sleep; and the branch for a connection that was never polled does not
      sleep at all. */
  lemma NoLostWakeups(states: seq<State>, steps: seq<Step>, k: nat, i: nat)
    requires IsRun(states, steps) && k < |states| && i < |states[k].tasks|
    ensures states[k].sh.collector.Exited? ==> !Asleep(states[k].tasks[i])
    ensures states[k].sh.activated && !ActivationPending(states[k].sh) ==>
              states[k].tasks[i].Closing? && states[k].tasks[i].close.Activating? ==> !Asleep(states[k].tasks[i])
    ensures states[k].sh.actorStop && !states[k].sh.announcing ==> states[k].sh.actor != Selecting(Parked(false))
    ensures states[k].tasks[i].Closing? && states[k].tasks[i].close.Settling? && states[k].tasks[i].close.unpolled ==>
              !states[k].tasks[i].close.wait.Parked? && states[k].sh.actorResult.Some?
  {
    RunKeepsInv(states, steps, k);
    assert TaskOk(states[k].sh, i, states[k].tasks[i]);
  }

  // ----- Deadlock freedom -----

  predicate Over(t: Task) {
    t.Refused? || t.Connected? || t.Closed? || t.Dropped?
  }

  /** The connection runs, its actor sleeps, and framework close has not let it stop. */
  predicate ConnectionIdle(sh: Shared) {
    sh.actor == Selecting(Parked(false)) && !sh.actorStop
  }

  /** The steps that the protocol itself owes: every action of a caller, the actor or the collector
      that is ready, the first poll of the connection, and the answer of framework close. Nobody owes
      dropping a caller, aborting the actor or ending a connection that runs. */
  predicate Owed(s: State, step: Step) {
    && Enabled(s, step)
    && !step.Drop? && !step.AbortActor? && !step.WithoutRuntime?
    && (step.PollConnection? ==> s.sh.actor.PollingFirst?)
  }

  /** Until the collector is through, the background has a step to take unless the connection idles. */
  lemma BackgroundStep(s: State) returns (step: Step)
    requires Inv(s) && s.sh.connector.Some? && !s.sh.collector.Exited? && !ConnectionIdle(s.sh)
    ensures Owed(s, step)
  {
    var c := s.sh.connector.value;
    assert TaskOk(s.sh, c, s.tasks[c]);
    if s.sh.collector.Unborn? {
      return Advance(c);
    } else if !s.sh.collector.Joining? || s.sh.actor.Finished? {
      return CollectorAdvances;
    } else if s.sh.actor.PollingFirst? {
      return PollConnection(Pending);
    } else if s.sh.actor == Selecting(Parked(false)) {
      var g := s.sh.gate.value;
      assert TaskOk(s.sh, g, s.tasks[g]);
      return Advance(g);
    } else {
      return ActorAdvances;
    }
  }

  /** The holder of `close_gate` is never stuck. */
  lemma HolderStep(s: State, g: nat) returns (step: Step)
    requires Inv(s) && g < |s.tasks| && s.sh.gate == Some(g)
    ensures Owed(s, step)
  {
    assert TaskOk(s.sh, g, s.tasks[g]);
    if s.tasks[g].close.Framework? {
      return FrameworkAnswers(g, None);
    } else if Asleep(s.tasks[g]) {
      step := BackgroundStep(s);
    } else {
      return Advance(g);
    }
  }

  /** Deadlock freedom: while some caller is not through, the protocol owes a step, unless that caller
      is `connect_owned` waiting for an idle connection. */
  lemma NotStuck(s: State, i: nat) returns (step: Step)
    requires Inv(s) && i < |s.tasks| && !Over(s.tasks[i])
    requires !(ConnectionIdle(s.sh) && s.tasks[i] == Connecting(Awaiting(Parked(false))))
    ensures Owed(s, step)
  {
    assert TaskOk(s.sh, i, s.tasks[i]);
    if HoldsGate(s.tasks[i]) {
      step := HolderStep(s, i);
    } else if Asleep(s.tasks[i]) {
      step := BackgroundStep(s);
    } else if s.tasks[i].Closing? && s.tasks[i].close.Locking? && s.sh.gate.Some? {
      step := HolderStep(s, s.sh.gate.value);
    } else {
      return Advance(i);
    }
  }

  /** Where nothing is owed every caller has returned, been refused or been dropped, save those that
      wait in `connect_owned` for an idle connection; and there are none of those once framework
      close has answered Ok. */
  lemma StuckMeansFinished(states: seq<State>, steps: seq<Step>, i: nat)
    requires IsRun(states, steps)
    requires forall step :: !Owed(states[|steps|], step)
    requires i < |states[|steps|].tasks|
    ensures states[|steps|].sh.frameworkCloses > 0 ==> Over(states[|steps|].tasks[i])
    ensures Over(states[|steps|].tasks[i])
            || (&& ConnectionIdle(states[|steps|].sh)
                && states[|steps|].tasks[i] == Connecting(Awaiting(Parked(false))))
  {
    var s := states[|steps|];
    RunKeepsInv(states, steps, |steps|);
    if StopDue(s.sh) {
      var g := s.sh.gate.value;
      assert TaskOk(s.sh, g, s.tasks[g]);
      assert Owed(s, Advance(g));
      assert false;
    }
    if !Over(s.tasks[i]) && !(ConnectionIdle(s.sh) && s.tasks[i] == Connecting(Awaiting(Parked(false)))) {
      var step := NotStuck(s, i);
      assert false;
    }
  }

  // ----- Bounded termination -----

  /** How far a wait loop is from leaving: a sleeper must first be woken once the flag is set. */
  function WaitRank(flag: bool, w: Wait): nat {
    match w
    case Enable => if flag then 2 else 3
    case Check(_) => if flag then 1 else 2
    case Parked(_) => if flag then 3 else 1
  }

  function CloseRank(sh: Shared, c: Close): nat {
    match c
    case Stopping => 16
    case Locking => 15
    case Reading => 14
    case Activating(_, w) => 10 + WaitRank(sh.activated, w)
    case Testing(_) => 10
    case Framework(_) => 9
    case Stop(_) => 8
    case Notify(_) => 7
    case Settling(_, _, w) => 3 + WaitRank(sh.actorResult.Some?, w)
    case Taking(_, _) => 3
    case Releasing(_, _) => 2
    case Leaving(_) => 1
  }

  function TaskRank(sh: Shared, t: Task): nat {
    match t
    case Connecting(Starting(_)) => 23
    case Connecting(Spawning) => 22
    case Connecting(Handing) => 21
    case Connecting(Collecting) => 20
    case Connecting(Awaiting(w)) => 16 + WaitRank(sh.actorResult.Some?, w)
    case Closing(_, c) => CloseRank(sh, c)
    case _ => 0
  }

  function ActorRank(sh: Shared): nat {
    match sh.actor
    case Absent => 8
    case Spawned => 7
    case PollingFirst => 6
    case Activate(_) => 5
    case NotifyActive(_) => 4
    case Selecting(w) => WaitRank(sh.actorStop, w)
    case Finished(_) => 0
  }

  function CollectorRank(c: Collector): nat {
    match c
    case Unborn => 5
    case Joining => 4
    case Publish => 3
    case NotifyActivation => 2
    case NotifySettled => 1
    case Exited => 0
  }

  function TotalRank(sh: Shared, tasks: seq<Task>): nat {
    if tasks == [] then 0 else TotalRank(sh, tasks[..|tasks| - 1]) + TaskRank(sh, tasks[|tasks| - 1])
  }

  /** Setting a flag may push every sleeper back by two; `share` is kept back to pay for it. */
  function SharedRank(sh: Shared, share: nat): nat {
    ActorRank(sh) + CollectorRank(sh.collector)
    + (if sh.activated then 0 else share)
    + (if sh.actorResult.Some? then 0 else share)
    + (if sh.actorStop then 0 else 2)
  }

  function Measure(s: State): nat {
    TotalRank(s.sh, s.tasks) + SharedRank(s.sh, 2 * |s.tasks|)
  }

  /** Rank totals are compared caller by caller. */
  lemma {:induction false} TotalRankWithin(a: Shared, b: Shared, before: seq<Task>, after: seq<Task>, slack: bool)
    requires |before| == |after|
    requires forall i :: 0 <= i < |before| ==>
               TaskRank(b, after[i]) <= TaskRank(a, before[i]) + (if slack then 2 else 0)
    ensures TotalRank(b, after) <= TotalRank(a, before) + (if slack then 2 * |before| else 0)
  {
    if before != [] {
      var n := |before| - 1;
      TotalRankWithin(a, b, before[..n], after[..n], slack);
      assert TaskRank(b, after[n]) <= TaskRank(a, before[n]) + (if slack then 2 else 0);
    }
  }

  lemma {:induction false} TotalRankUpdate(sh: Shared, tasks: seq<Task>, i: nat, t: Task)
    requires i < |tasks|
    ensures TotalRank(sh, tasks[i := t]) == TotalRank(sh, tasks) - TaskRank(sh, tasks[i]) + TaskRank(sh, t)
  {
    var n := |tasks| - 1;
    if i < n {
      assert tasks[i := t][..n] == tasks[..n][i := t];
      TotalRankUpdate(sh, tasks[..n], i, t);
    } else {
      assert tasks[i := t][..n] == tasks[..n];
    }
  }

  lemma ClosesLowersTask(sh: Shared, i: nat, k: Option<Outcome>, c: Close)
    requires CanAdvance(sh, Closing(k, c)) && SharedOk(sh) && TaskOk(sh, i, Closing(k, c))
    ensures TaskRank(sh, Closes(sh, i, k, c).task) < CloseRank(sh, c)
  {
  }

  lemma ClosesKeepsShare(sh: Shared, i: nat, k: Option<Outcome>, c: Close, share: nat)
    requires CanAdvance(sh, Closing(k, c)) && SharedOk(sh) && TaskOk(sh, i, Closing(k, c))
    ensures SharedRank(Closes(sh, i, k, c).sh, share) <= SharedRank(sh, share)
    ensures Closes(sh, i, k, c).sh.activated == sh.activated && Closes(sh, i, k, c).sh.actorResult == sh.actorResult
  {
  }

  lemma ConnectsLowers(sh: Shared, i: nat, c: Connect, share: nat)
    requires CanAdvance(sh, Connecting(c)) && SharedOk(sh) && TaskOk(sh, i, Connecting(c))
    ensures TaskRank(sh, Connects(sh, i, c).task) < TaskRank(sh, Connecting(c))
    ensures SharedRank(Connects(sh, i, c).sh, share) <= SharedRank(sh, share)
    ensures Connects(sh, i, c).sh.activated == sh.activated && Connects(sh, i, c).sh.actorResult == sh.actorResult
  {
  }

  /** A caller's own step lowers its rank, raises nothing else and sets no flag that other callers
      wait for. */
  lemma MoveLowers(sh: Shared, t: Task, step: Step, share: nat)
    requires IsTaskStep(step) && CanMove(sh, t, step) && SharedOk(sh) && TaskOk(sh, step.task, t)
    ensures TaskRank(sh, Move(sh, t, step).task) < TaskRank(sh, t)
    ensures SharedRank(Move(sh, t, step).sh, share) <= SharedRank(sh, share)
    ensures Move(sh, t, step).sh.activated == sh.activated && Move(sh, t, step).sh.actorResult == sh.actorResult
  {
    if step.Advance? {
      if t.Connecting? {
        ConnectsLowers(sh, step.task, t.connect, share);
      } else {
        ClosesLowersTask(sh, step.task, t.connected, t.close);
        ClosesKeepsShare(sh, step.task, t.connected, t.close, share);
      }
    }
  }

  /** A background step sets at most one flag, and then pays a share for it. */
  lemma ActorLowers(sh: Shared, share: nat)
    requires CanRun(sh, ActorAdvances) && SharedOk(sh)
    ensures SharedRank(ActorRuns(sh), share) < SharedRank(sh, share)
    ensures ActorRuns(sh).activated != sh.activated ==> SharedRank(ActorRuns(sh), share) + share < SharedRank(sh, share)
  {
  }

  lemma CollectorLowers(sh: Shared, share: nat)
    requires CanRun(sh, CollectorAdvances) && SharedOk(sh)
    ensures SharedRank(CollectorRuns(sh), share) < SharedRank(sh, share)
    ensures CollectorRuns(sh).activated != sh.activated || CollectorRuns(sh).actorResult != sh.actorResult ==>
              SharedRank(CollectorRuns(sh), share) + share < SharedRank(sh, share)
  {
  }

  lemma RunsLowers(sh: Shared, step: Step, share: nat)
    requires !IsTaskStep(step) && CanRun(sh, step) && SharedOk(sh)
    ensures SharedRank(Runs(sh, step), share) < SharedRank(sh, share)
    ensures Runs(sh, step).activated != sh.activated || Runs(sh, step).actorResult != sh.actorResult ==>
              SharedRank(Runs(sh, step), share) + share < SharedRank(sh, share)
  {
    match step
    case ActorAdvances => ActorLowers(sh, share);
    case CollectorAdvances => CollectorLowers(sh, share);
    case _ =>
  }

  /** Being woken costs nothing; a flag that is set costs a waiter at most two. */
  lemma HearsActor(sh: Shared, t: Task)
    requires CanRun(sh, ActorAdvances) && SharedOk(sh)
    ensures TaskRank(ActorRuns(sh), Hears(sh, ActorAdvances, t)) <= TaskRank(sh, t) + 2
    ensures ActorRuns(sh).activated == sh.activated ==>
              TaskRank(ActorRuns(sh), Hears(sh, ActorAdvances, t)) == TaskRank(sh, t)
  {
  }

  lemma HearsCollector(sh: Shared, t: Task)
    requires CanRun(sh, CollectorAdvances) && SharedOk(sh)
    ensures TaskRank(CollectorRuns(sh), Hears(sh, CollectorAdvances, t)) <= TaskRank(sh, t) + 2
    ensures CollectorRuns(sh).activated == sh.activated && CollectorRuns(sh).actorResult == sh.actorResult ==>
              TaskRank(CollectorRuns(sh), Hears(sh, CollectorAdvances, t)) == TaskRank(sh, t)
  {
  }

  lemma HearsWithin(sh: Shared, step: Step, t: Task)
    requires !IsTaskStep(step) && CanRun(sh, step) && SharedOk(sh)
    ensures TaskRank(Runs(sh, step), Hears(sh, step, t)) <= TaskRank(sh, t) + 2
    ensures Runs(sh, step).activated == sh.activated && Runs(sh, step).actorResult == sh.actorResult ==>
              TaskRank(Runs(sh, step), Hears(sh, step, t)) == TaskRank(sh, t)
  {
    match step
    case ActorAdvances => HearsActor(sh, t);
    case CollectorAdvances => HearsCollector(sh, t);
    case _ =>
  }

  lemma SameFlagsSameRank(a: Shared, b: Shared, tasks: seq<Task>)
    requires a.activated == b.activated && a.actorResult == b.actorResult
    ensures TotalRank(a, tasks) == TotalRank(b, tasks)
  {
    TotalRankWithin(a, b, tasks, tasks, false);
    TotalRankWithin(b, a, tasks, tasks, false);
  }

  /** Every step of every task lowers the measure. */
  lemma StepLowersMeasure(s: State, step: Step)
    requires Inv(s) && Enabled(s, step)
    ensures Measure(Apply(s, step)) < Measure(s)
  {
    var s' := Apply(s, step);
    if IsTaskStep(step) {
      var moved := Move(s.sh, s.tasks[step.task], step);
      MoveLowers(s.sh, s.tasks[step.task], step, 2 * |s.tasks|);
      TotalRankUpdate(s.sh, s.tasks, step.task, moved.task);
      SameFlagsSameRank(s.sh, moved.sh, s'.tasks);
    } else {
      var flips := s'.sh.activated != s.sh.activated || s'.sh.actorResult != s.sh.actorResult;
      forall i | 0 <= i < |s.tasks|
        ensures TaskRank(s'.sh, s'.tasks[i]) <= TaskRank(s.sh, s.tasks[i]) + (if flips then 2 else 0)
      {
        HearsWithin(s.sh, step, s.tasks[i]);
      }
      TotalRankWithin(s.sh, s'.sh, s.tasks, s'.tasks, flips);
      RunsLowers(s.sh, step, 2 * |s.tasks|);
    }
  }

  lemma {:induction false} InitialRank(sh: Shared, tasks: seq<Task>)
    requires forall i :: 0 <= i < |tasks| ==> TaskRank(sh, tasks[i]) <= 23
    ensures TotalRank(sh, tasks) <= 23 * |tasks|
  {
    if tasks != [] {
      InitialRank(sh, tasks[..|tasks| - 1]);
    }
  }

  lemma {:induction false} RunLowersMeasure(states: seq<State>, steps: seq<Step>, k: nat)
    requires IsRun(states, steps) && k < |states|
    ensures Measure(states[k]) + k <= Measure(states[0])
  {
    if k > 0 {
      RunLowersMeasure(states, steps, k - 1);
      RunKeepsInv(states, steps, k - 1);
      assert Follows(states, steps, k - 1);
      StepLowersMeasure(states[k - 1], steps[k - 1]);
    }
  }

  /** Every schedule of `n` callers ends: no run is longer than 27 n + 15 steps, so with
      `StuckMeansFinished` every caller that is not dropped finishes once framework close succeeds. */
  lemma RunsAreBounded(states: seq<State>, steps: seq<Step>)
    requires IsRun(states, steps)
    ensures |steps| <= 27 * |states[0].tasks| + 15
  {
    RunLowersMeasure(states, steps, |steps|);
    InitialRank(states[0].sh, states[0].tasks);
  }
}
