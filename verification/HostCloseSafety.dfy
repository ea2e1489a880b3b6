/** Safety of the Host close protocol over whole runs. */
module HostCloseSafety {
  import opened Prelude
  import opened HostClose
  import opened HostCloseInvariant

  /** Everything that, once true of the shared memory, stays true. */
  ghost predicate Later(a: Shared, b: Shared) {
    && (a.attached ==> b.attached)
    && (a.stopping ==> b.stopping)
    && (Settled(a) ==> Settled(b) && b.retains == a.retains)
    && (a.activated ==> b.activated)
    && (a.pollStarted ==> b.pollStarted)
    && (a.actorStop ==> b.actorStop)
    && (a.connector.Some? ==> b.connector == a.connector && b.held == a.held)
    && (a.attached && a.connector.None? ==> b.connector.None?)
    && (a.actorResult.Some? ==> b.actorResult == a.actorResult && b.pollStarted == a.pollStarted)
    && a.retains <= b.retains && a.releases <= b.releases && a.frameworkCloses <= b.frameworkCloses
  }

  /** Framework close answered Ok before state `k`. */
  ghost predicate FrameworkClosedBefore(steps: seq<Step>, k: nat) {
    exists m :: 0 <= m < k && m < |steps| && steps[m].FrameworkAnswers? && steps[m].failure.None?
  }

  lemma {:induction false} RunKeepsInv(states: seq<State>, steps: seq<Step>, k: nat)
    requires IsRun(states, steps) && k < |states|
    ensures Inv(states[k])
  {
    if k == 0 {
      InitInv(states[0]);
    } else {
      RunKeepsInv(states, steps, k - 1);
      assert Follows(states, steps, k - 1);
      StepKeepsInv(states[k - 1], steps[k - 1]);
    }
  }

  lemma ClosesLater(sh: Shared, i: nat, k: Option<Outcome>, c: Close)
    requires SharedOk(sh) && TaskOk(sh, i, Closing(k, c)) && CanAdvance(sh, Closing(k, c))
    ensures Later(sh, Closes(sh, i, k, c).sh)
  {
  }

  lemma MoveLater(sh: Shared, t: Task, step: Step)
    requires IsTaskStep(step) && CanMove(sh, t, step)
    requires SharedOk(sh) && TaskOk(sh, step.task, t)
    ensures Later(sh, Move(sh, t, step).sh)
  {
    if step.Advance? && t.Closing? {
      ClosesLater(sh, step.task, t.connected, t.close);
    }
  }

  lemma ActorRunsLater(sh: Shared)
    requires SharedOk(sh) && CanRun(sh, ActorAdvances)
    ensures Later(sh, ActorRuns(sh))
  {
  }

  lemma StepLater(s: State, step: Step)
    requires Inv(s) && Enabled(s, step)
    ensures Later(s.sh, Apply(s, step).sh)
  {
    if IsTaskStep(step) {
      MoveLater(s.sh, s.tasks[step.task], step);
    } else if step.ActorAdvances? {
      ActorRunsLater(s.sh);
    }
  }

  lemma {:induction false} RunLater(states: seq<State>, steps: seq<Step>, i: nat, j: nat)
    requires IsRun(states, steps) && i <= j < |states|
    ensures Later(states[i].sh, states[j].sh)
    decreases j
  {
    if i < j {
      RunLater(states, steps, i, j - 1);
      RunKeepsInv(states, steps, j - 1);
      assert Follows(states, steps, j - 1);
      StepLater(states[j - 1], steps[j - 1]);
    }
  }

  /** At most one `retain` succeeds, and the handle slot goes None, Some, None at most once:
      it never holds a second handle and never holds the first one again. */
  lemma RetainedAtMostOnce(states: seq<State>, steps: seq<Step>, i: nat, j: nat, k: nat)
    requires IsRun(states, steps) && i <= j <= k < |states|
    ensures states[k].sh.retains <= 1 && states[k].sh.releases <= states[k].sh.retains
    ensures states[i].sh.retained.Some? && states[k].sh.retained.Some? ==>
              states[k].sh.retained == states[j].sh.retained == states[i].sh.retained
    ensures states[i].sh.retained.Some? && states[j].sh.retained.None? ==> states[k].sh.retained.None?
  {
    RunKeepsInv(states, steps, i);
    RunKeepsInv(states, steps, j);
    RunKeepsInv(states, steps, k);
    RunLater(states, steps, i, j);
    RunLater(states, steps, j, k);
  }

  /** A `close` that enters before any `retain` fences every later connection. */
  lemma CloseFencesRetain(states: seq<State>, steps: seq<Step>, i: nat, j: nat)
    requires IsRun(states, steps) && i <= j < |states|
    requires states[i].sh.attached && states[i].sh.retains == 0
    ensures states[j].sh.retains == 0 && states[j].sh.retained.None? && states[j].sh.actor.Absent?
  {
    RunKeepsInv(states, steps, i);
    RunKeepsInv(states, steps, j);
    RunLater(states, steps, i, j);
  }

  lemma {:induction false} FrameworkClosesAreInTrace(states: seq<State>, steps: seq<Step>, k: nat)
    requires IsRun(states, steps) && k < |states|
    ensures states[k].sh.frameworkCloses > 0 ==> FrameworkClosedBefore(steps, k)
  {
    if k > 0 {
      FrameworkClosesAreInTrace(states, steps, k - 1);
      assert Follows(states, steps, k - 1);
      OnlyAnswersCount(states[k - 1], steps[k - 1]);
      if states[k].sh.frameworkCloses > 0 {
        if states[k - 1].sh.frameworkCloses > 0 {
          var m :| 0 <= m < k - 1 && m < |steps| && steps[m].FrameworkAnswers? && steps[m].failure.None?;
          assert 0 <= m < k;
        } else {
          assert 0 <= k - 1 < k;
        }
      }
    }
  }

  lemma OnlyAnswersCount(s: State, step: Step)
    requires Enabled(s, step)
    ensures Apply(s, step).sh.frameworkCloses > s.sh.frameworkCloses ==> step.FrameworkAnswers? && step.failure.None?
  {
    if step.Advance? {
      assert Move(s.sh, s.tasks[step.task], step).sh.frameworkCloses == s.sh.frameworkCloses;
    }
  }

  /** The connection actor is told to stop only after framework close succeeded. */
  lemma ActorNeverStoppedEarly(states: seq<State>, steps: seq<Step>, k: nat)
    requires IsRun(states, steps) && k < |states| && states[k].sh.actorStop
    ensures FrameworkClosedBefore(steps, k)
  {
    RunKeepsInv(states, steps, k);
    FrameworkClosesAreInTrace(states, steps, k);
  }

  /** The step is a caller finishing `close` with the published result, holding the gate. */
  predicate ReleasesBy(s: State, step: Step) {
    && step.Advance? && step.task < |s.tasks| && s.sh.gate == Some(step.task)
    && s.tasks[step.task].Closing? && s.tasks[step.task].close.Releasing?
    && s.sh.actorResult == Some(s.tasks[step.task].close.result)
  }

  lemma MoveReleases(sh: Shared, t: Task, step: Step)
    requires IsTaskStep(step) && CanMove(sh, t, step)
    requires SharedOk(sh) && sh.retained.Some? && Move(sh, t, step).sh.retained != sh.retained
    ensures step.Advance? && t.Closing? && t.close.Releasing?
  {
  }

  /** Nothing else empties the handle slot: a failed or dropped close keeps the handle. */
  lemma OnlyReleasingReleases(s: State, step: Step)
    requires Inv(s) && Enabled(s, step)
    requires s.sh.retained.Some? && Apply(s, step).sh.retained != s.sh.retained
    ensures ReleasesBy(s, step) && MayRelease(s.sh)
  {
    assert TaskOk(s.sh, step.task, s.tasks[step.task]);
    MoveReleases(s.sh, s.tasks[step.task], step);
  }

  /** The handle is released only by a caller that finishes `close` holding the gate, after
      the collector published, and after framework close answered Ok or else in a run whose
      connection is never polled: neither before nor ever after. Hence a failed or dropped
      close keeps the same handle. */
  lemma ReleaseIsJustified(states: seq<State>, steps: seq<Step>, k: nat)
    requires IsRun(states, steps) && k < |steps|
    requires states[k].sh.retained.Some? && states[k + 1].sh.retained != states[k].sh.retained
    ensures ReleasesBy(states[k], steps[k])
    ensures FrameworkClosedBefore(steps, k) || forall j :: 0 <= j < |states| ==> !states[j].sh.pollStarted
  {
    RunKeepsInv(states, steps, k);
    assert Follows(states, steps, k);
    OnlyReleasingReleases(states[k], steps[k]);
    FrameworkClosesAreInTrace(states, steps, k);
    if !FrameworkClosedBefore(steps, k) {
      forall j | 0 <= j < |states|
        ensures !states[j].sh.pollStarted
      {
        if j <= k { RunLater(states, steps, j, k); } else { RunLater(states, steps, k, j); }
      }
    }
  }

  /** Framework close runs for one caller at a time, on the handle that is still retained. */
  lemma FrameworkCloseIsExclusive(states: seq<State>, steps: seq<Step>, k: nat, i: nat, j: nat)
    requires IsRun(states, steps) && k < |states| && i < |states[k].tasks| && j < |states[k].tasks|
    requires states[k].tasks[i].Closing? && states[k].tasks[i].close.Framework?
    requires states[k].tasks[j].Closing? && states[k].tasks[j].close.Framework?
    ensures i == j && states[k].sh.retained == Some(states[k].tasks[i].close.handle)
    ensures states[k].sh.pollStarted && !(states[k].sh.actorResult.None? && states[k].sh.actor.Absent?)
  {
    RunKeepsInv(states, steps, k);
    assert TaskOk(states[k].sh, i, states[k].tasks[i]) && TaskOk(states[k].sh, j, states[k].tasks[j]);
  }

  /** A `close` or `connect_owned` that returns anything but a framework-close error leaves nothing
      behind: no handle and no abort handle are held then or later, no actor runs, nothing can attach
      any more, and the owner is marked as stopping. This includes a `close` that reports a transport
      failure. */
  lemma ReturnMeansSettled(states: seq<State>, steps: seq<Step>, k: nat, j: nat, i: nat)
    requires IsRun(states, steps) && k <= j < |states| && i < |states[k].tasks|
    requires states[k].tasks[i].Closed? || states[k].tasks[i].Connected?
    ensures states[j].sh.stopping
    ensures FrameworkFailed(states[k].tasks[i].result)
            || (&& Settled(states[j].sh) && states[j].sh.retains == states[k].sh.retains
                && (states[j].sh.actor.Absent? || states[j].sh.actor.Finished?))
  {
    RunKeepsInv(states, steps, k);
    RunKeepsInv(states, steps, j);
    assert TaskOk(states[k].sh, i, states[k].tasks[i]);
    RunLater(states, steps, k, j);
  }

  /** A `connect_owned` that retained its handle and returns yields its own framework-close
      error or exactly the result the collector published, which no later step changes; every
      other `connect_owned` is refused, and a `close` never invents a transport result. */
  lemma ReturnedResultsAreReal(states: seq<State>, steps: seq<Step>, k: nat, j: nat, i: nat)
    requires IsRun(states, steps) && k <= j < |states| && i < |states[k].tasks|
    ensures states[k].tasks[i].Connected? ==>
              && states[k].sh.actorResult.Some? && states[j].sh.actorResult == states[k].sh.actorResult
              && (states[j].sh.actorResult == Some(states[k].tasks[i].result)
                  || FrameworkFailed(states[k].tasks[i].result))
    ensures (&& states[k].tasks[i].Closed? && states[k].tasks[i].result.Failed?
             && !FrameworkFailed(states[k].tasks[i].result)) ==>
              states[j].sh.actorResult == Some(states[k].tasks[i].result)
    ensures states[k].tasks[i].Connected? || InSetup(states[k].tasks[i]) ==> states[j].sh.connector == Some(i)
  {
    RunKeepsInv(states, steps, k);
    assert TaskOk(states[k].sh, i, states[k].tasks[i]);
    RunLater(states, steps, k, j);
  }

  // ----- Where the published result comes from -----

  /** What the actor is going to be joined with, once that is settled. */
  function Told(sh: Shared): Option<Outcome> {
    match sh.actor
    case Activate(first) => first
    case NotifyActive(first) => first
    case Finished(joined) => Some(joined)
    case _ => None
  }

  /** The steps that settle it: the connection answers, the actor panics or is aborted, or the actor
      notices that it has been told to stop. */
  predicate Settles(sh: Shared, step: Step, r: Outcome) {
    || step == PollConnection(Ready(r))
    || ((step == PollConnection(Panicked) || step.AbortActor?) && r == Failed(ActorFailed))
    || (step.ActorAdvances? && sh.actor.Selecting? && sh.actor.wait.Check? && sh.actorStop && r == Done)
  }

  ghost predicate SettledBefore(states: seq<State>, steps: seq<Step>, k: nat, r: Outcome)
    requires |states| == |steps| + 1
  {
    exists m :: 0 <= m < k && m < |steps| && Settles(states[m].sh, steps[m], r)
  }

  /** A step that settles the outcome settles it to what it says, when it was open; every other step
      leaves it as it is. */
  lemma ToldBySettling(s: State, step: Step)
    requires Inv(s) && Enabled(s, step)
    ensures forall r :: Settles(s.sh, step, r) ==> Told(s.sh).None? && Told(Apply(s, step).sh) == Some(r)
    ensures (forall r :: !Settles(s.sh, step, r)) ==> Told(Apply(s, step).sh) == Told(s.sh)
  {
    if IsTaskStep(step) {
      assert TaskOk(s.sh, step.task, s.tasks[step.task]);
      TaskStepsLeaveActor(s.sh, s.tasks[step.task], step);
    } else {
      ToldByRunning(s.sh, step);
    }
  }

  lemma ToldByRunning(sh: Shared, step: Step)
    requires !IsTaskStep(step) && CanRun(sh, step) && SharedOk(sh)
    ensures forall r :: Settles(sh, step, r) ==> Told(sh).None? && Told(Runs(sh, step)) == Some(r)
    ensures (forall r :: !Settles(sh, step, r)) ==> Told(Runs(sh, step)) == Told(sh)
  {
    match step
    case PollConnection(Ready(outcome)) => assert Settles(sh, step, outcome);
    case PollConnection(Panicked) => assert Settles(sh, step, Failed(ActorFailed));
    case PollConnection(Pending) =>
    case AbortActor => assert Settles(sh, step, Failed(ActorFailed));
    case ActorAdvances =>
      assert sh.actor.Selecting? && sh.actor.wait.Check? && sh.actorStop ==> Settles(sh, step, Done);
    case CollectorAdvances =>
  }

  lemma TaskStepsLeaveActor(sh: Shared, t: Task, step: Step)
    requires IsTaskStep(step) && CanMove(sh, t, step) && SharedOk(sh) && TaskOk(sh, step.task, t)
    ensures Told(Move(sh, t, step).sh) == Told(sh)
  {
    if step.Advance? && t.Closing? {
      CloseLeavesActor(sh, step.task, t.connected, t.close);
    }
  }

  lemma CloseLeavesActor(sh: Shared, i: nat, k: Option<Outcome>, c: Close)
    requires CanAdvance(sh, Closing(k, c))
    ensures Told(Closes(sh, i, k, c).sh) == Told(sh)
  {
  }

  /** The actor's outcome is settled exactly by what happened: by no step, or by one that says so. */
  lemma {:induction false} ToldIsSettled(states: seq<State>, steps: seq<Step>, k: nat, r: Outcome)
    requires IsRun(states, steps) && k < |states|
    ensures Told(states[k].sh) == Some(r) <==> SettledBefore(states, steps, k, r)
  {
    if k > 0 {
      ToldIsSettled(states, steps, k - 1, r);
      RunKeepsInv(states, steps, k - 1);
      assert Follows(states, steps, k - 1);
      ToldBySettling(states[k - 1], steps[k - 1]);
      if Settles(states[k - 1].sh, steps[k - 1], r) {
        assert SettledBefore(states, steps, k, r);
      } else if SettledBefore(states, steps, k, r) {
        var m :| 0 <= m < k && m < |steps| && Settles(states[m].sh, steps[m], r);
        assert SettledBefore(states, steps, k - 1, r);
      }
    }
  }

  /** The published result is the connection's answer, or the actor's failure if it panicked or was
      aborted, or Done if it was stopped after framework close; and whichever of these has happened,
      no other result is published. */
  lemma PublishedIsAnswered(states: seq<State>, steps: seq<Step>, k: nat, r: Outcome)
    requires IsRun(states, steps) && k < |states|
    ensures states[k].sh.actorResult == Some(r) ==> SettledBefore(states, steps, k, r)
    ensures SettledBefore(states, steps, k, r) && states[k].sh.actorResult.Some? ==> states[k].sh.actorResult == Some(r)
    ensures r.Failed? && r.error.FrameworkClose? ==> !SettledBefore(states, steps, k, r)
  {
    RunKeepsInv(states, steps, k);
    ToldIsSettled(states, steps, k, r);
    if SettledBefore(states, steps, k, r) {
      var m :| 0 <= m < k && m < |steps| && Settles(states[m].sh, steps[m], r);
      assert Follows(states, steps, m);
    }
  }

  // ----- Where framework errors and the handle come from -----

  /** What the caller is about to return or has returned. */
  function Returning(t: Task): Option<Outcome> {
    match t
    case Closing(_, Leaving(r)) => Some(r)
    case Closed(r) => Some(r)
    case Connected(r) => Some(r)
    case _ => None
  }

  ghost predicate AnsweredBefore(steps: seq<Step>, k: nat, i: nat, message: string) {
    exists m :: 0 <= m < k && m < |steps| && steps[m] == FrameworkAnswers(i, Some(message))
  }

  lemma ReturningStep(s: State, step: Step, i: nat, message: string)
    requires Inv(s) && Enabled(s, step) && i < |s.tasks|
    requires Returning(Apply(s, step).tasks[i]) == Some(Failed(FrameworkClose(message)))
    requires s.sh.actorResult != Some(Failed(FrameworkClose(message)))
    ensures Returning(s.tasks[i]) == Some(Failed(FrameworkClose(message))) || step == FrameworkAnswers(i, Some(message))
  {
    assert TaskOk(s.sh, i, s.tasks[i]);
  }

  /** A framework-close error that a caller returns is one that framework close gave that caller. */
  lemma {:induction false} FrameworkErrorIsAnswered(states: seq<State>, steps: seq<Step>, k: nat, i: nat,
                                                    message: string)
    requires IsRun(states, steps) && k < |states| && i < |states[k].tasks|
    requires Returning(states[k].tasks[i]) == Some(Failed(FrameworkClose(message)))
    ensures AnsweredBefore(steps, k, i, message)
  {
    if k > 0 {
      RunKeepsInv(states, steps, k - 1);
      assert Follows(states, steps, k - 1);
      PublishedIsAnswered(states, steps, k - 1, Failed(FrameworkClose(message)));
      ReturningStep(states[k - 1], steps[k - 1], i, message);
      if steps[k - 1] != FrameworkAnswers(i, Some(message)) {
        FrameworkErrorIsAnswered(states, steps, k - 1, i, message);
        var m :| 0 <= m < k - 1 && m < |steps| && steps[m] == FrameworkAnswers(i, Some(message));
        assert 0 <= m < k;
      }
    }
  }

  lemma StartingStays(s: State, step: Step, i: nat)
    requires Inv(s) && Enabled(s, step) && i < |s.tasks|
    ensures |Apply(s, step).tasks| == |s.tasks|
    ensures Apply(s, step).tasks[i].Connecting? && Apply(s, step).tasks[i].connect.Starting? ==>
              Apply(s, step).tasks[i] == s.tasks[i]
    ensures Apply(s, step).sh.connector == Some(i) && s.sh.connector.None? ==>
              s.tasks[i].Connecting? && s.tasks[i].connect.Starting?
              && Apply(s, step).sh.held == Some(s.tasks[i].connect.handle)
  {
  }

  lemma {:induction false} StartedWith(states: seq<State>, steps: seq<Step>, k: nat, i: nat)
    requires IsRun(states, steps) && k < |states| && i < |states[k].tasks|
    requires states[k].tasks[i].Connecting? && states[k].tasks[i].connect.Starting?
    ensures i < |states[0].tasks| && states[0].tasks[i] == states[k].tasks[i]
  {
    if k > 0 {
      RunKeepsInv(states, steps, k - 1);
      assert Follows(states, steps, k - 1);
      StartingStays(states[k - 1], steps[k - 1], i);
      StartedWith(states, steps, k - 1, i);
    }
  }

  /** The retained handle is the one that the connecting caller came with. */
  lemma {:induction false} RetainedIsOwn(states: seq<State>, steps: seq<Step>, k: nat)
    requires IsRun(states, steps) && k < |states| && states[k].sh.connector.Some?
    ensures var i := states[k].sh.connector.value;
            && i < |states[0].tasks| && states[0].tasks[i].Connecting? && states[0].tasks[i].connect.Starting?
            && (states[k].sh.retained.Some? ==> states[k].sh.retained == Some(states[0].tasks[i].connect.handle))
            && states[k].sh.held == Some(states[0].tasks[i].connect.handle)
  {
    RunKeepsInv(states, steps, k);
    if k > 0 {
      var i := states[k].sh.connector.value;
      RunKeepsInv(states, steps, k - 1);
      assert Follows(states, steps, k - 1);
      StepLater(states[k - 1], steps[k - 1]);
      if states[k - 1].sh.connector.Some? {
        RetainedIsOwn(states, steps, k - 1);
      } else {
        ConnectorIsTask(states[k - 1], steps[k - 1]);
        StartingStays(states[k - 1], steps[k - 1], i);
        StartedWith(states, steps, k - 1, i);
      }
    }
  }

  lemma ConnectorIsTask(s: State, step: Step)
    requires Inv(s) && Enabled(s, step) && s.sh.connector.None? && Apply(s, step).sh.connector.Some?
    ensures Apply(s, step).sh.connector.value < |s.tasks|
  {
  }

  // ----- Which callers are refused -----

  /** Step `m` is the first of caller `i`: without a runtime, or with one on an owner already attached. */
  predicate RefusesAt(states: seq<State>, steps: seq<Step>, m: nat, i: nat, e: HostError)
    requires |states| == |steps| + 1
  {
    && m < |steps| && i < |states[m].tasks|
    && states[m].tasks[i].Connecting? && states[m].tasks[i].connect.Starting?
    && ((e == NoRuntime && steps[m] == WithoutRuntime(i))
        || (e == AlreadyAttached && steps[m] == Advance(i) && states[m].sh.attached))
  }

  lemma RefusedStays(states: seq<State>, steps: seq<Step>, m: nat, k: nat, i: nat)
    requires IsRun(states, steps) && m <= k < |states|
    requires i < |states[m].tasks| && states[m].tasks[i].Refused?
    ensures i < |states[k].tasks| && states[k].tasks[i] == states[m].tasks[i]
  {
    if m < k {
      RefusedStays(states, steps, m, k - 1, i);
      assert Follows(states, steps, k - 1);
    }
  }

  lemma {:induction false} RefusedBy(states: seq<State>, steps: seq<Step>, k: nat, i: nat) returns (m: nat)
    requires IsRun(states, steps) && k < |states| && i < |states[k].tasks| && states[k].tasks[i].Refused?
    ensures m < k && RefusesAt(states, steps, m, i, states[k].tasks[i].error)
  {
    assert Follows(states, steps, k - 1);
    if states[k - 1].tasks[i].Refused? {
      m := RefusedBy(states, steps, k - 1, i);
    } else {
      m := k - 1;
    }
  }

  /** A connecting caller is refused exactly when its first step finds no runtime, or an owner that is
      attached or closed; and with the error that says which. */
  lemma RefusedExactly(states: seq<State>, steps: seq<Step>, k: nat, i: nat, e: HostError)
    requires IsRun(states, steps) && k < |states| && i < |states[k].tasks|
    ensures states[k].tasks[i] == Refused(e) <==> exists m :: 0 <= m < k && RefusesAt(states, steps, m, i, e)
  {
    if states[k].tasks[i] == Refused(e) {
      var m := RefusedBy(states, steps, k, i);
    }
    forall m | 0 <= m < k && RefusesAt(states, steps, m, i, e)
      ensures states[k].tasks[i] == Refused(e)
    {
      assert Follows(states, steps, m);
      RefusedStays(states, steps, m + 1, k, i);
    }
  }
}
