/** The invariant of the Host close protocol: it holds initially and every step keeps it. */
module HostCloseInvariant {
  import opened Prelude
  import opened HostClose

  predicate IsWoken(w: Wait) {
    !w.Enable? && w.woken
  }

  /** Between publishing an outcome of the activation and notifying its waiters. */
  predicate ActivationPending(sh: Shared) {
    sh.actor.NotifyActive? || sh.collector.NotifyActivation?
  }

  predicate SettledPending(sh: Shared) {
    sh.collector.Publish? || sh.collector.NotifyActivation? || sh.collector.NotifySettled?
  }

  /** No waiter on `activation` sleeps past its notification. */
  predicate ActivationWait(sh: Shared, w: Wait) {
    && (IsWoken(w) ==> sh.activated)
    && (w == Parked(false) && sh.activated ==> ActivationPending(sh))
  }

  /** No waiter on `actor_settled` sleeps past its notification. */
  predicate SettledWait(sh: Shared, w: Wait) {
    && (IsWoken(w) ==> sh.actorResult.Some?)
    && (w == Parked(false) && sh.actorResult.Some? ==> SettledPending(sh))
  }

  /** What a caller may be told: success, its own framework error, or the published result. */
  predicate Reportable(sh: Shared, r: Outcome) {
    r.Done? || FrameworkFailed(r) || sh.actorResult == Some(r)
  }

  /** Framework close has answered Ok, and its caller has not stored `actor_stop` yet. */
  predicate StopDue(sh: Shared) {
    sh.frameworkCloses > 0 && !sh.actorStop
  }

  predicate FrameworkFailed(r: Outcome) {
    r.Failed? && r.error.FrameworkClose?
  }

  /** Nothing is left to close, and nothing can be attached any more. */
  predicate Settled(sh: Shared) {
    sh.attached && sh.retained.None? && !sh.abortHandle
  }

  /** Framework close has succeeded, or the connection was joined without ever being polled. */
  predicate MayRelease(sh: Shared) {
    sh.actorResult.Some? && (sh.frameworkCloses > 0 || !sh.pollStarted)
  }

  predicate CloseOk(sh: Shared, c: Close) {
    && (!c.Stopping? && !c.Locking? && !c.Reading? && !c.Leaving? ==> sh.retained == Some(c.handle))
    && match c
       case Activating(_, w) => ActivationWait(sh, w)
       case Testing(_) => sh.activated
       case Framework(_) => sh.pollStarted
       case Stop(_) => sh.pollStarted && sh.frameworkCloses > 0
       case Notify(_) => sh.actorStop
       case Settling(_, unpolled, w) =>
         && SettledWait(sh, w)
         && (if unpolled then MayRelease(sh) && !sh.pollStarted && !w.Parked? else sh.actorStop)
       case Taking(_, r) => sh.actorResult == Some(r) && MayRelease(sh)
       case Releasing(_, r) => sh.actorResult == Some(r) && MayRelease(sh) && !sh.abortHandle
       case Leaving(r) => Reportable(sh, r) && (FrameworkFailed(r) || Settled(sh))
       case _ => true
  }

  predicate ConnectOk(sh: Shared, i: nat, c: Connect) {
    match c
    case Starting(_) => sh.connector != Some(i)
    case Spawning => sh.connector == Some(i) && sh.actor.Absent? && sh.collector.Unborn?
    case Handing => sh.connector == Some(i) && !sh.actor.Absent? && sh.collector.Unborn?
    case Collecting => sh.connector == Some(i) && !sh.actor.Absent? && sh.collector.Unborn? && sh.abortHandle
    case Awaiting(w) => sh.connector == Some(i) && SettledWait(sh, w)
  }

  /** The connecting task is between `retain` and spawning the collector. */
  predicate InSetup(t: Task) {
    t.Connecting? && (t.connect.Spawning? || t.connect.Handing? || t.connect.Collecting?)
  }

  /** What holds of caller `i`, wherever it stands. */
  predicate TaskOk(sh: Shared, i: nat, t: Task) {
    && (HoldsGate(t) <==> sh.gate == Some(i))
    && (sh.gate == Some(i) && sh.announcing ==> t.close.Notify?)
    && (sh.gate == Some(i) && StopDue(sh) ==> t.close.Stop?)
    && (sh.connector == Some(i) && sh.actor.Absent? ==> t == Connecting(Spawning))
    && (sh.connector == Some(i) && sh.collector.Unborn? ==> InSetup(t))
    && match t
       case Connecting(c) => ConnectOk(sh, i, c)
       case Closing(connected, c) =>
         && CloseOk(sh, c) && (c.Stopping? || sh.stopping)
         && (if connected.Some? then sh.connector == Some(i) && sh.actorResult == connected
             else sh.connector != Some(i))
       case Refused(_) => sh.connector != Some(i)
       case Connected(r) =>
         && sh.connector == Some(i) && sh.actorResult.Some? && sh.stopping
         && (FrameworkFailed(r) || (sh.actorResult == Some(r) && Settled(sh)))
       case Closed(r) =>
         && sh.connector != Some(i) && sh.stopping && Reportable(sh, r)
         && (FrameworkFailed(r) || Settled(sh))
       case Dropped => true
  }

  /** The handle slot follows its history. */
  predicate OwnerOk(sh: Shared) {
    && (sh.connector.None? ==> sh.held.None? && sh.actor.Absent? && sh.collector.Unborn? && !sh.abortHandle)
    && (sh.connector.Some? ==> sh.attached && sh.held.Some?)
    && sh.retains == (if sh.connector.Some? then 1 else 0)
    && sh.releases <= sh.retains
    && sh.retained == (if sh.releases < sh.retains then sh.held else None)
    && (sh.releases > 0 ==> MayRelease(sh) && !sh.abortHandle)
    && (sh.collector.Joining? ==> sh.abortHandle)
  }

  predicate ActorOk(sh: Shared) {
    && (sh.actorStop ==> sh.frameworkCloses > 0)
    && (sh.frameworkCloses > 0 ==> sh.pollStarted)
    && (sh.announcing ==> sh.actorStop && sh.gate.Some?)
    && (StopDue(sh) ==> sh.gate.Some?)
    && (sh.actor.Absent? || sh.actor.Spawned? ==> !sh.pollStarted)
    && (sh.actor.PollingFirst? || sh.actor.Activate? || sh.actor.NotifyActive? || sh.actor.Selecting? ==>
          sh.pollStarted)
    && (sh.actor.NotifyActive? || sh.actor.Selecting? ==> sh.activated)
    && (sh.actor.Absent? ==> sh.collector.Unborn?)
    && (sh.activated ==> sh.pollStarted || sh.actorResult.Some?)
    && (sh.actorResult.Some? ==> sh.actor == Finished(sh.actorResult.value))
    && (sh.actorResult.Some? <==> !sh.collector.Unborn? && !sh.collector.Joining?)
    && (sh.collector.NotifyActivation? || sh.collector.NotifySettled? || sh.collector.Exited? ==> sh.activated)
  }

  /** The connection actor never sleeps past the notification that it may stop. */
  predicate StopWait(sh: Shared) {
    sh.actor.Selecting? ==>
      && (IsWoken(sh.actor.wait) ==> sh.actorStop)
      && (sh.actor.wait == Parked(false) && sh.actorStop ==> sh.announcing)
  }

  predicate SharedOk(sh: Shared) {
    OwnerOk(sh) && ActorOk(sh) && StopWait(sh)
  }

  predicate Inv(s: State) {
    && SharedOk(s.sh)
    && (s.sh.gate.Some? ==> s.sh.gate.value < |s.tasks|)
    && (s.sh.connector.Some? ==> s.sh.connector.value < |s.tasks|)
    && forall i :: 0 <= i < |s.tasks| ==> TaskOk(s.sh, i, s.tasks[i])
  }

  lemma InitInv(s: State)
    requires Init(s)
    ensures Inv(s)
  {
  }

  // ----- A step of one caller: itself, the shared memory, the other callers -----

  lemma ConnectsKeeps(sh: Shared, i: nat, c: Connect)
    requires SharedOk(sh) && TaskOk(sh, i, Connecting(c)) && CanAdvance(sh, Connecting(c))
    ensures SharedOk(Connects(sh, i, c).sh) && TaskOk(Connects(sh, i, c).sh, i, Connects(sh, i, c).task)
  {
  }

  lemma ConnectsKeepsOthers(sh: Shared, i: nat, c: Connect, j: nat, t: Task)
    requires SharedOk(sh) && TaskOk(sh, i, Connecting(c)) && CanAdvance(sh, Connecting(c))
    requires j != i && TaskOk(sh, j, t)
    ensures TaskOk(Connects(sh, i, c).sh, j, t)
  {
  }

  lemma ClosesKeepsShared(sh: Shared, i: nat, k: Option<Outcome>, c: Close)
    requires SharedOk(sh) && TaskOk(sh, i, Closing(k, c)) && CanAdvance(sh, Closing(k, c))
    ensures SharedOk(Closes(sh, i, k, c).sh)
  {
  }

  lemma ClosesKeepsOwn(sh: Shared, i: nat, k: Option<Outcome>, c: Close)
    requires SharedOk(sh) && TaskOk(sh, i, Closing(k, c)) && CanAdvance(sh, Closing(k, c))
    ensures TaskOk(Closes(sh, i, k, c).sh, i, Closes(sh, i, k, c).task)
  {
  }

  lemma ClosesKeepsOthers(sh: Shared, i: nat, k: Option<Outcome>, c: Close, j: nat, t: Task)
    requires SharedOk(sh) && TaskOk(sh, i, Closing(k, c)) && CanAdvance(sh, Closing(k, c))
    requires j != i && TaskOk(sh, j, t)
    ensures TaskOk(Closes(sh, i, k, c).sh, j, t)
  {
  }

  lemma MoveKeeps(sh: Shared, t: Task, step: Step)
    requires IsTaskStep(step) && CanMove(sh, t, step)
    requires SharedOk(sh) && TaskOk(sh, step.task, t)
    ensures SharedOk(Move(sh, t, step).sh) && TaskOk(Move(sh, t, step).sh, step.task, Move(sh, t, step).task)
  {
    if step.Advance? {
      if t.Connecting? {
        ConnectsKeeps(sh, step.task, t.connect);
      } else {
        ClosesKeepsShared(sh, step.task, t.connected, t.close);
        ClosesKeepsOwn(sh, step.task, t.connected, t.close);
      }
    }
  }

  lemma MoveKeepsOthers(sh: Shared, t: Task, step: Step, j: nat, u: Task)
    requires IsTaskStep(step) && CanMove(sh, t, step)
    requires SharedOk(sh) && TaskOk(sh, step.task, t)
    requires j != step.task && TaskOk(sh, j, u)
    ensures TaskOk(Move(sh, t, step).sh, j, u)
  {
    if step.Advance? {
      if t.Connecting? {
        ConnectsKeepsOthers(sh, step.task, t.connect, j, u);
      } else {
        ClosesKeepsOthers(sh, step.task, t.connected, t.close, j, u);
      }
    }
  }

  // ----- A step of the actor or the collector: the shared memory and every caller -----

  lemma ActorRunsKeepsShared(sh: Shared)
    requires SharedOk(sh) && CanRun(sh, ActorAdvances)
    ensures SharedOk(ActorRuns(sh))
  {
  }

  lemma ActorRunsKeepsTask(sh: Shared, j: nat, t: Task)
    requires SharedOk(sh) && CanRun(sh, ActorAdvances) && TaskOk(sh, j, t)
    ensures TaskOk(ActorRuns(sh), j, Hears(sh, ActorAdvances, t))
  {
  }

  lemma CollectorRunsKeepsShared(sh: Shared)
    requires SharedOk(sh) && CanRun(sh, CollectorAdvances)
    ensures SharedOk(CollectorRuns(sh))
  {
  }

  lemma CollectorPublishesKeepsTask(sh: Shared, j: nat, t: Task)
    requires SharedOk(sh) && CanRun(sh, CollectorAdvances) && TaskOk(sh, j, t)
    requires sh.collector.Joining? || sh.collector.Publish?
    ensures TaskOk(CollectorRuns(sh), j, t)
  {
  }

  lemma CollectorActivatesKeepsTask(sh: Shared, j: nat, t: Task)
    requires SharedOk(sh) && sh.collector.NotifyActivation? && TaskOk(sh, j, t)
    ensures TaskOk(CollectorRuns(sh), j, WakeActivation(t))
  {
  }

  lemma CollectorSettlesKeepsTask(sh: Shared, j: nat, t: Task)
    requires SharedOk(sh) && sh.collector.NotifySettled? && TaskOk(sh, j, t)
    ensures TaskOk(CollectorRuns(sh), j, WakeSettled(t))
  {
  }

  lemma ConnectionKeeps(sh: Shared, step: Step)
    requires SharedOk(sh) && (step.PollConnection? || step.AbortActor?) && CanRun(sh, step)
    ensures SharedOk(Runs(sh, step))
  {
  }

  lemma ConnectionKeepsTask(sh: Shared, step: Step, j: nat, t: Task)
    requires SharedOk(sh) && (step.PollConnection? || step.AbortActor?) && CanRun(sh, step)
    requires TaskOk(sh, j, t)
    ensures TaskOk(Runs(sh, step), j, t)
  {
  }

  lemma RunsKeepsShared(sh: Shared, step: Step)
    requires SharedOk(sh) && !IsTaskStep(step) && CanRun(sh, step)
    ensures SharedOk(Runs(sh, step))
  {
    match step
    case ActorAdvances => ActorRunsKeepsShared(sh);
    case CollectorAdvances => CollectorRunsKeepsShared(sh);
    case _ => ConnectionKeeps(sh, step);
  }

  lemma CollectorRunsKeepsTask(sh: Shared, j: nat, t: Task)
    requires SharedOk(sh) && CanRun(sh, CollectorAdvances) && TaskOk(sh, j, t)
    ensures TaskOk(CollectorRuns(sh), j, Hears(sh, CollectorAdvances, t))
  {
    match sh.collector
    case NotifyActivation => CollectorActivatesKeepsTask(sh, j, t);
    case NotifySettled => CollectorSettlesKeepsTask(sh, j, t);
    case _ => CollectorPublishesKeepsTask(sh, j, t);
  }

  lemma RunsKeepsTask(sh: Shared, step: Step, j: nat, t: Task)
    requires SharedOk(sh) && !IsTaskStep(step) && CanRun(sh, step) && TaskOk(sh, j, t)
    ensures TaskOk(Runs(sh, step), j, Hears(sh, step, t))
  {
    match step
    case ActorAdvances => ActorRunsKeepsTask(sh, j, t);
    case CollectorAdvances => CollectorRunsKeepsTask(sh, j, t);
    case _ => ConnectionKeepsTask(sh, step, j, t);
  }

  // ----- Every step keeps the invariant -----

  lemma MoveStepKeepsInv(s: State, step: Step)
    requires Inv(s) && Enabled(s, step) && IsTaskStep(step)
    ensures Inv(Apply(s, step))
  {
    var moved := Move(s.sh, s.tasks[step.task], step);
    var s' := Apply(s, step);
    assert s' == State(s.tasks[step.task := moved.task], moved.sh);
    MoveKeeps(s.sh, s.tasks[step.task], step);
    forall j | 0 <= j < |s.tasks|
      ensures TaskOk(moved.sh, j, s'.tasks[j])
    {
      if j != step.task {
        MoveKeepsOthers(s.sh, s.tasks[step.task], step, j, s.tasks[j]);
      }
    }
  }

  lemma RunStepKeepsInv(s: State, step: Step)
    requires Inv(s) && Enabled(s, step) && !IsTaskStep(step)
    ensures Inv(Apply(s, step))
  {
    var s' := Apply(s, step);
    RunsKeepsShared(s.sh, step);
    forall j | 0 <= j < |s.tasks|
      ensures TaskOk(s'.sh, j, s'.tasks[j])
    {
      RunsKeepsTask(s.sh, step, j, s.tasks[j]);
    }
  }

  lemma StepKeepsInv(s: State, step: Step)
    requires Inv(s) && Enabled(s, step)
    ensures Inv(Apply(s, step))
  {
    if IsTaskStep(step) { MoveStepKeepsInv(s, step); } else { RunStepKeepsInv(s, step); }
  }
}
