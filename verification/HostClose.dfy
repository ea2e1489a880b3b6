/**
 Cleanup ownership of one in-process Host connection (echo-sdk-host/src/lib.rs).

 `HostCloseOwner` is shared by any number of `close` callers and `connect_owned`
 callers, one actor polling the connection and one collector joining that actor.
 A state is the shared memory plus one program counter per task; a step is one
 atomic action. Between two of its awaits a task is never dropped, so `Drop` is
 enabled at the awaits only, but the atomic actions of different tasks interleave
 freely.
 */
module HostClose {
  import opened Prelude

  /** Identity of a framework close handle. */
  type Handle = nat

  /** `HostError`, tagged by the party that reports it. */
  datatype HostError =
    | AlreadyAttached
    | NoRuntime
    | FrameworkClose(message: string)
    | Transport(message: string)
    | ActorFailed

  datatype Outcome = Done | Failed(error: HostError)

  /** One of the three wait loops: register the waiter, test the condition, await.
      `woken` says that `notify_waiters` has reached the registered waiter. */
  datatype Wait = Enable | Check(woken: bool) | Parked(woken: bool)

  /** Where a caller stands inside `close`. */
  datatype Close =
    | Stopping
    | Locking
    | Reading
    | Activating(handle: Handle, wait: Wait)
    | Testing(handle: Handle)
    | Framework(handle: Handle)
    | Stop(handle: Handle)
    | Notify(handle: Handle)
    | Settling(handle: Handle, unpolled: bool, wait: Wait)
    | Taking(handle: Handle, result: Outcome)
    | Releasing(handle: Handle, result: Outcome)
    | Leaving(result: Outcome)

  /** Where a caller stands inside `connect_owned`, before it calls `close`. */
  datatype Connect =
    | Starting(handle: Handle)
    | Spawning
    | Handing
    | Collecting
    | Awaiting(wait: Wait)

  datatype Task =
    | Connecting(connect: Connect)
    | Closing(connected: Option<Outcome>, close: Close)
    | Refused(error: HostError)
    | Connected(result: Outcome)
    | Closed(result: Outcome)
    | Dropped

  datatype Poll = Ready(outcome: Outcome) | Pending | Panicked

  datatype Actor =
    | Absent
    | Spawned
    | PollingFirst
    | Activate(first: Option<Outcome>)
    | NotifyActive(first: Option<Outcome>)
    | Selecting(wait: Wait)
    | Finished(joined: Outcome)

  datatype Collector = Unborn | Joining | Publish | NotifyActivation | NotifySettled | Exited

  /** The fields of `HostCloseOwner`, the two spawned tasks, and history: whether a caller
      is between storing `actor_stop` and notifying it, which task retained which handle,
      and how often the handle was retained and released and framework close answered Ok. */
  datatype Shared = Shared(
    attached: bool,
    retained: Option<Handle>,
    gate: Option<nat>,
    stopping: bool,
    actorStop: bool,
    activated: bool,
    pollStarted: bool,
    abortHandle: bool,
    actorResult: Option<Outcome>,
    actor: Actor,
    collector: Collector,
    announcing: bool,
    connector: Option<nat>,
    held: Option<Handle>,
    retains: nat,
    releases: nat,
    frameworkCloses: nat)

  datatype State = State(tasks: seq<Task>, sh: Shared)

  datatype Step =
    | Advance(task: nat)
    | WithoutRuntime(task: nat)
    | FrameworkAnswers(task: nat, failure: Option<string>)
    | Drop(task: nat)
    | ActorAdvances
    | PollConnection(poll: Poll)
    | AbortActor
    | CollectorAdvances

  // ----- Waiters -----

  function Wake(w: Wait): Wait {
    match w
    case Enable => Enable
    case Check(_) => Check(true)
    case Parked(_) => Parked(true)
  }

  /** `activation.notify_waiters()`, seen by one task. */
  function WakeActivation(t: Task): Task {
    match t
    case Closing(connected, Activating(h, w)) => Closing(connected, Activating(h, Wake(w)))
    case _ => t
  }

  /** `actor_settled.notify_waiters()`, seen by one task. */
  function WakeSettled(t: Task): Task {
    match t
    case Connecting(Awaiting(w)) => Connecting(Awaiting(Wake(w)))
    case Closing(connected, Settling(h, unpolled, w)) => Closing(connected, Settling(h, unpolled, Wake(w)))
    case _ => t
  }

  // ----- Which steps are possible -----

  predicate HoldsGate(t: Task) {
    t.Closing? && !t.close.Stopping? && !t.close.Locking?
  }

  /** A task suspended at an await, or a future that was never polled, may be dropped. */
  predicate Droppable(t: Task) {
    match t
    case Connecting(Starting(_)) => true
    case Connecting(Awaiting(w)) => w.Parked?
    case Closing(connected, Stopping) => connected.None?
    case Closing(_, Locking) => true
    case Closing(_, Activating(_, w)) => w.Parked?
    case Closing(_, Framework(_)) => true
    case Closing(_, Settling(_, _, w)) => w.Parked?
    case _ => false
  }

  predicate CanAdvance(sh: Shared, t: Task) {
    match t
    case Connecting(Awaiting(w)) => w != Parked(false)
    case Connecting(_) => true
    case Closing(_, Locking) => sh.gate.None?
    case Closing(_, Activating(_, w)) => w != Parked(false)
    case Closing(_, Framework(_)) => false
    case Closing(_, Settling(_, _, w)) => w != Parked(false)
    case Closing(_, _) => true
    case _ => false
  }

  /** Steps of one caller, as opposed to steps of the actor and the collector. */
  predicate IsTaskStep(step: Step) {
    step.Advance? || step.WithoutRuntime? || step.FrameworkAnswers? || step.Drop?
  }

  predicate CanMove(sh: Shared, t: Task, step: Step)
    requires IsTaskStep(step)
  {
    match step
    case Advance(_) => CanAdvance(sh, t)
    case WithoutRuntime(_) => t.Connecting? && t.connect.Starting?
    case FrameworkAnswers(_, _) => t.Closing? && t.close.Framework?
    case Drop(_) => Droppable(t)
  }

  predicate CanRun(sh: Shared, step: Step)
    requires !IsTaskStep(step)
  {
    match step
    case ActorAdvances =>
      sh.actor.Spawned? || sh.actor.Activate? || sh.actor.NotifyActive?
      || (sh.actor.Selecting? && sh.actor.wait != Parked(false))
    case PollConnection(poll) =>
      && (sh.actor.PollingFirst? || (sh.actor.Selecting? && !poll.Pending?))
      && (poll.Ready? ==> poll.outcome.Done? || poll.outcome.error.Transport?)
    case AbortActor => sh.actor.Spawned? || (sh.actor.Selecting? && sh.actor.wait.Parked?)
    case CollectorAdvances =>
      (sh.collector.Joining? && sh.actor.Finished?)
      || sh.collector.Publish? || sh.collector.NotifyActivation? || sh.collector.NotifySettled?
  }

  predicate Enabled(s: State, step: Step) {
    if IsTaskStep(step)
    then step.task < |s.tasks| && CanMove(s.sh, s.tasks[step.task], step)
    else CanRun(s.sh, step)
  }

  // ----- What each step does -----

  /** A caller's step: its next program counter and the shared memory after it. */
  datatype Moved = Moved(task: Task, sh: Shared)

  function Connects(sh: Shared, i: nat, c: Connect): (m: Moved)
    requires CanAdvance(sh, Connecting(c))
    ensures sh.attached ==> m.sh.retained == sh.retained
    ensures m.sh.gate == sh.gate && (m.sh.connector == sh.connector || m.sh.connector == Some(i))
  {
    match c
    case Starting(h) =>
      if sh.attached then Moved(Refused(AlreadyAttached), sh)
      else Moved(Connecting(Spawning),
                 sh.(attached := true, retained := Some(h), connector := Some(i), held := Some(h),
                     retains := sh.retains + 1))
    case Spawning => Moved(Connecting(Handing), sh.(actor := Spawned))
    case Handing => Moved(Connecting(Collecting), sh.(abortHandle := true))
    case Collecting => Moved(Connecting(Awaiting(Enable)), sh.(collector := Joining))
    case Awaiting(Enable) => Moved(Connecting(Awaiting(Check(false))), sh)
    case Awaiting(Check(woken)) =>
      Moved(if sh.actorResult.Some? then Closing(sh.actorResult, Stopping) else Connecting(Awaiting(Parked(woken))), sh)
    case Awaiting(Parked(_)) => Moved(Connecting(Awaiting(Enable)), sh)
  }

  /** `close` returned `result`: to its own caller, or to the `?` inside `connect_owned`. */
  function Return(connected: Option<Outcome>, result: Outcome): Task {
    match connected
    case None => Closed(result)
    case Some(published) => Connected(if result.Failed? then result else published)
  }

  function Closes(sh: Shared, i: nat, k: Option<Outcome>, c: Close): (m: Moved)
    requires CanAdvance(sh, Closing(k, c))
    ensures !c.Releasing? ==> m.sh.retained == sh.retained
    ensures m.sh.connector == sh.connector && (m.sh.gate == sh.gate || m.sh.gate == Some(i) || m.sh.gate == None)
  {
    match c
    case Stopping => Moved(Closing(k, Locking), sh.(stopping := true))
    case Locking => Moved(Closing(k, Reading), sh.(gate := Some(i)))
    case Reading =>
      Moved(Closing(k, if sh.retained.Some? then Activating(sh.retained.value, Enable) else Leaving(Done)),
            sh.(attached := true))
    case Activating(h, Enable) => Moved(Closing(k, Activating(h, Check(false))), sh)
    case Activating(h, Check(woken)) =>
      Moved(Closing(k, if sh.activated then Testing(h) else Activating(h, Parked(woken))), sh)
    case Activating(h, Parked(_)) => Moved(Closing(k, Activating(h, Enable)), sh)
    case Testing(h) =>
      Moved(Closing(k, if sh.pollStarted then Framework(h) else Settling(h, true, Enable)), sh)
    case Stop(h) => Moved(Closing(k, Notify(h)), sh.(actorStop := true, announcing := true))
    case Notify(h) =>
      Moved(Closing(k, Settling(h, false, Enable)),
            sh.(announcing := false,
                actor := if sh.actor.Selecting? then Selecting(Wake(sh.actor.wait)) else sh.actor))
    case Settling(h, u, Enable) => Moved(Closing(k, Settling(h, u, Check(false))), sh)
    case Settling(h, u, Check(woken)) =>
      Moved(Closing(k, if sh.actorResult.Some? then Taking(h, sh.actorResult.value)
                       else Settling(h, u, Parked(woken))), sh)
    case Settling(h, u, Parked(_)) => Moved(Closing(k, Settling(h, u, Enable)), sh)
    case Taking(h, r) => Moved(Closing(k, Releasing(h, r)), sh.(abortHandle := false))
    case Releasing(h, r) => Moved(Closing(k, Leaving(r)), sh.(retained := None, releases := sh.releases + 1))
    case Leaving(r) => Moved(Return(k, r), sh.(gate := None))
  }

  /** What the framework's own close answers: Ok, or a transport-independent error. */
  function Answers(sh: Shared, k: Option<Outcome>, h: Handle, failure: Option<string>): Moved {
    match failure
    case None => Moved(Closing(k, Stop(h)), sh.(frameworkCloses := sh.frameworkCloses + 1))
    case Some(message) => Moved(Closing(k, Leaving(Failed(FrameworkClose(message)))), sh)
  }

  function Move(sh: Shared, t: Task, step: Step): (m: Moved)
    requires IsTaskStep(step) && CanMove(sh, t, step)
    ensures m.sh.gate == sh.gate || m.sh.gate == Some(step.task) || m.sh.gate == None
    ensures m.sh.connector == sh.connector || m.sh.connector == Some(step.task)
  {
    match step
    case Advance(i) =>
      if t.Connecting? then Connects(sh, i, t.connect) else Closes(sh, i, t.connected, t.close)
    case WithoutRuntime(_) => Moved(Refused(NoRuntime), sh)
    case FrameworkAnswers(_, failure) => Answers(sh, t.connected, t.close.handle, failure)
    case Drop(_) => Moved(Dropped, if HoldsGate(t) then sh.(gate := None) else sh)
  }

  function ActorRuns(sh: Shared): (after: Shared)
    requires CanRun(sh, ActorAdvances)
    ensures after == sh.(activated := after.activated, pollStarted := after.pollStarted, actor := after.actor)
  {
    match sh.actor
    case Spawned => sh.(pollStarted := true, actor := PollingFirst)
    case Activate(first) => sh.(activated := true, actor := NotifyActive(first))
    case NotifyActive(first) => sh.(actor := if first.Some? then Finished(first.value) else Selecting(Enable))
    case Selecting(Enable) => sh.(actor := Selecting(Check(false)))
    case Selecting(Check(woken)) => sh.(actor := if sh.actorStop then Finished(Done) else Selecting(Parked(woken)))
    case Selecting(Parked(_)) => sh.(actor := Selecting(Enable))
  }

  function CollectorRuns(sh: Shared): (after: Shared)
    requires CanRun(sh, CollectorAdvances)
    ensures after == sh.(activated := after.activated, actorResult := after.actorResult, collector := after.collector)
  {
    match sh.collector
    case Joining => sh.(actorResult := Some(sh.actor.joined), collector := Publish)
    case Publish => sh.(activated := true, collector := NotifyActivation)
    case NotifyActivation => sh.(collector := NotifySettled)
    case NotifySettled => sh.(collector := Exited)
  }

  /** The shared memory after a step of the actor or the collector. */
  function Runs(sh: Shared, step: Step): (after: Shared)
    requires !IsTaskStep(step) && CanRun(sh, step)
    ensures after == sh.(activated := after.activated, pollStarted := after.pollStarted, actor := after.actor,
                         actorResult := after.actorResult, collector := after.collector)
  {
    match step
    case ActorAdvances => ActorRuns(sh)
    case PollConnection(Panicked) => sh.(actor := Finished(Failed(ActorFailed)))
    case PollConnection(Pending) => sh.(actor := Activate(None))
    case PollConnection(Ready(outcome)) =>
      sh.(actor := if sh.actor.PollingFirst? then Activate(Some(outcome)) else Finished(outcome))
    case AbortActor => sh.(actor := Finished(Failed(ActorFailed)))
    case CollectorAdvances => CollectorRuns(sh)
  }

  /** What a waiting caller notices of that step: `notify_waiters` reaches it or not. */
  function Hears(sh: Shared, step: Step, t: Task): Task {
    match step
    case ActorAdvances => if sh.actor.NotifyActive? then WakeActivation(t) else t
    case CollectorAdvances =>
      if sh.collector.NotifyActivation? then WakeActivation(t)
      else if sh.collector.NotifySettled? then WakeSettled(t)
      else t
    case _ => t
  }

  /** The state after an enabled step. */
  function Apply(s: State, step: Step): State
    requires Enabled(s, step)
  {
    if IsTaskStep(step) then
      var moved := Move(s.sh, s.tasks[step.task], step);
      State(s.tasks[step.task := moved.task], moved.sh)
    else
      State(seq(|s.tasks|, i requires 0 <= i < |s.tasks| => Hears(s.sh, step, s.tasks[i])), Runs(s.sh, step))
  }

  /** `HostCloseOwner::new()` with any callers of `connect_owned` and `close` about to start. */
  predicate Init(s: State) {
    && s.sh == Shared(false, None, None, false, false, false, false, false, None, Absent, Unborn,
                      false, None, None, 0, 0, 0)
    && forall i :: 0 <= i < |s.tasks| ==>
         s.tasks[i] == Closing(None, Stopping)
         || (s.tasks[i].Connecting? && s.tasks[i].connect.Starting?)
  }

  /** The `k`-th step of a run is enabled and leads to the next state. */
  predicate Follows(states: seq<State>, steps: seq<Step>, k: nat)
    requires |states| == |steps| + 1
  {
    k < |steps| ==> Enabled(states[k], steps[k]) && states[k + 1] == Apply(states[k], steps[k])
  }

  predicate IsRun(states: seq<State>, steps: seq<Step>) {
    && |states| == |steps| + 1
    && Init(states[0])
    && forall k :: 0 <= k < |steps| ==> Follows(states, steps, k)
  }
}
