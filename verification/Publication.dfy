/**
 Session publication admissions and the definition registry of echo-sdk-host/src/factory.rs.

 The factory's maps are locked, so each operation under one lock is atomic; a `create_session`
 call takes several of them (resolve the definition, enter the publication, run the observer) and
 other calls interleave in between. UUID tokens are taken to be fresh.
 */
module Publication {
  import opened Prelude

  type Token = nat

  /** `observer` says that the one-shot observer has not been taken yet. */
  datatype Admission = Admission(token: Token, definition: string, observer: bool)

  datatype Guard = Guard(sessionId: string, token: Token)

  /** What a token was issued for. */
  datatype Request = Request(sessionId: string, definition: string, observer: bool)

  /** The locked maps of the factory, and history: what each token was issued for, which guards
      live, whose observer was taken, and every definition that was ever registered. */
  datatype Registry = Registry(
    admissions: map<string, Admission>,
    definitions: set<string>,
    fallback: string,
    maxDefinitions: nat,
    issued: map<Token, Request>,
    guards: set<Guard>,
    taken: set<Token>,
    known: set<string>)

  function Fresh(fallback: string, maxDefinitions: nat): Registry {
    Registry(map[], {fallback}, fallback, maxDefinitions, map[], {}, {}, {fallback})
  }

  // ----- The atomic operations -----

  /** `associate_publication`: an occupied address is refused without any change. */
  function Associate(r: Registry, sessionId: string, definition: string, observer: bool, token: Token)
    : (Registry, Option<Guard>)
    requires token !in r.issued
  {
    if sessionId in r.admissions then (r, None)
    else
      var guard := Guard(sessionId, token);
      (r.(admissions := r.admissions[sessionId := Admission(token, definition, observer)],
          issued := r.issued[token := Request(sessionId, definition, observer)],
          guards := r.guards + {guard}),
       Some(guard))
  }

  /** `SessionPublicationGuard::drop` */
  function DropGuard(r: Registry, guard: Guard): Registry {
    var entry := guard.sessionId in r.admissions && r.admissions[guard.sessionId].token == guard.token;
    r.(admissions := if entry then r.admissions - {guard.sessionId} else r.admissions,
       guards := r.guards - {guard})
  }

  datatype Entered = Mismatch | Admitted(observer: Option<Token>)

  /** The locked part of `enter_publication_factory`: takes the observer of a matching admission. */
  function Enter(r: Registry, sessionId: string, definition: Option<string>): (Registry, Entered) {
    if sessionId !in r.admissions then (r, Admitted(None))
    else
      var entry := r.admissions[sessionId];
      if definition != Some(entry.definition) then (r, Mismatch)
      else if !entry.observer then (r, Admitted(None))
      else (r.(admissions := r.admissions[sessionId := entry.(observer := false)], taken := r.taken + {entry.token}),
            Admitted(Some(entry.token)))
  }

  /** The definition a Session is built from: its marker's, if registered, or the default. */
  function Resolve(r: Registry, definition: Option<string>): Option<string> {
    match definition
    case None => Some(r.fallback)
    case Some(id) => if id in r.definitions then Some(id) else None
  }

  /** `register_definition` */
  function Register(r: Registry, id: string): (Registry, bool) {
    if id in r.definitions then (r, true)
    else if |r.definitions| >= r.maxDefinitions then (r, false)
    else (r.(definitions := r.definitions + {id}, known := r.known + {id}), true)
  }

  /** `remove_definition` */
  function Unregister(r: Registry, id: string): Registry {
    if id == r.fallback then r else r.(definitions := r.definitions - {id})
  }

  // ----- What a registry keeps -----

  /** Live guards and map entries correspond one to one, by session and token. */
  predicate Bijection(r: Registry) {
    && (forall g :: g in r.guards ==> g.sessionId in r.admissions && r.admissions[g.sessionId].token == g.token)
    && (forall id :: id in r.admissions ==> Guard(id, r.admissions[id].token) in r.guards)
  }

  predicate EntryOk(r: Registry, id: string, entry: Admission) {
    && entry.token in r.issued
    && r.issued[entry.token].sessionId == id && r.issued[entry.token].definition == entry.definition
    && (entry.observer ==> r.issued[entry.token].observer && entry.token !in r.taken)
  }

  predicate RegistryOk(r: Registry) {
    && Bijection(r)
    && (forall id :: id in r.admissions ==> EntryOk(r, id, r.admissions[id]))
    && (forall token :: token in r.taken ==> token in r.issued && r.issued[token].observer)
  }

  predicate DefinitionsOk(r: Registry) {
    && r.fallback in r.definitions && r.definitions <= r.known
    && |r.definitions| <= (if r.maxDefinitions > 1 then r.maxDefinitions else 1)
  }

  // ----- The factory itself -----

  /** `CoreProfileSessionFactory`, the maps that concern admissions and definitions. */
  class CoreProfileSessionFactory {
    const fallback: string
    const maxDefinitions: nat
    var definitions: set<string>
    var publicationAdmissions: map<string, Admission>
    ghost var issued: map<Token, Request>
    ghost var guards: set<Guard>
    ghost var taken: set<Token>
    ghost var known: set<string>

    ghost function View(): Registry
      reads this
    {
      Registry(publicationAdmissions, definitions, fallback, maxDefinitions, issued, guards, taken, known)
    }

    ghost predicate Valid()
      reads this
    {
      RegistryOk(View()) && DefinitionsOk(View())
    }

    constructor (fallback: string, maxDefinitions: nat)
      ensures Valid() && View() == Fresh(fallback, maxDefinitions)
      ensures definitions == {fallback} && publicationAdmissions == map[] && guards == {}
    {
      this.fallback, this.maxDefinitions := fallback, maxDefinitions;
      definitions, publicationAdmissions := {fallback}, map[];
      issued, guards, taken, known := map[], {}, {}, {fallback};
    }

    method AssociatePublication(sessionId: string, definition: string, observer: bool, token: Token)
      returns (guard: Option<Guard>)
      requires Valid() && token !in issued
      modifies this
      ensures Valid() && (View(), guard) == Associate(old(View()), sessionId, definition, observer, token)
      ensures sessionId in old(publicationAdmissions) <==> guard.None?
      ensures guard.None? ==> unchanged(this)
      ensures guard.Some? ==>
                && guard.value == Guard(sessionId, token) && guard.value !in old(guards)
                && guards == old(guards) + {guard.value}
                && publicationAdmissions
                   == old(publicationAdmissions)[sessionId := Admission(token, definition, observer)]
                && unchanged(`definitions, `known, `taken)
    {
      if sessionId in publicationAdmissions {
        return None;
      }
      publicationAdmissions := publicationAdmissions[sessionId := Admission(token, definition, observer)];
      issued := issued[token := Request(sessionId, definition, observer)];
      guards := guards + {Guard(sessionId, token)};
      return Some(Guard(sessionId, token));
    }

    method DropPublicationGuard(guard: Guard)
      requires Valid()
      modifies this
      ensures Valid() && View() == DropGuard(old(View()), guard)
      ensures guard !in old(guards) ==> unchanged(this)
      ensures guard in old(guards) ==>
                && guard.sessionId in old(publicationAdmissions)
                && publicationAdmissions == old(publicationAdmissions) - {guard.sessionId}
                && guards == old(guards) - {guard} && unchanged(`definitions, `known, `taken, `issued)
    {
      if guard.sessionId in publicationAdmissions && publicationAdmissions[guard.sessionId].token == guard.token {
        publicationAdmissions := publicationAdmissions - {guard.sessionId};
      }
      assert guard !in guards ==> guards - {guard} == guards;
      guards := guards - {guard};
    }

    method EnterPublicationFactory(sessionId: string, definition: Option<string>) returns (entered: Entered)
      requires Valid()
      modifies this
      ensures Valid() && (View(), entered) == Enter(old(View()), sessionId, definition)
      ensures entered.Mismatch? <==>
              sessionId in old(publicationAdmissions)
              && definition != Some(old(publicationAdmissions)[sessionId].definition)
      ensures !(entered.Admitted? && entered.observer.Some?) ==> unchanged(this)
      ensures entered.Admitted? && entered.observer.Some? ==>
                && entered.observer.value !in old(taken) && taken == old(taken) + {entered.observer.value}
                && issued[entered.observer.value].sessionId == sessionId
                && definition == Some(issued[entered.observer.value].definition)
                && !publicationAdmissions[sessionId].observer
                && publicationAdmissions - {sessionId} == old(publicationAdmissions) - {sessionId}
                && unchanged(`definitions, `known, `issued, `guards)
    {
      if sessionId !in publicationAdmissions {
        return Admitted(None);
      }
      var entry := publicationAdmissions[sessionId];
      if definition != Some(entry.definition) {
        return Mismatch;
      }
      if !entry.observer {
        return Admitted(None);
      }
      publicationAdmissions := publicationAdmissions[sessionId := entry.(observer := false)];
      taken := taken + {entry.token};
      return Admitted(Some(entry.token));
    }

    method RegisterDefinition(id: string) returns (ok: bool)
      requires Valid()
      modifies this
      ensures Valid() && (View(), ok) == Register(old(View()), id)
      ensures ok <==> id in definitions
      ensures !ok ==> unchanged(this) && |definitions| >= maxDefinitions
      ensures ok ==> definitions == old(definitions) + {id}
      ensures fallback in definitions && |definitions| <= (if maxDefinitions > 1 then maxDefinitions else 1)
      ensures unchanged(`publicationAdmissions, `guards, `issued, `taken)
    {
      if id in definitions {
        return true;
      }
      if |definitions| >= maxDefinitions {
        return false;
      }
      definitions, known := definitions + {id}, known + {id};
      return true;
    }

    method RemoveDefinition(id: string)
      requires Valid()
      modifies this
      ensures Valid() && View() == Unregister(old(View()), id)
      ensures fallback in definitions && (id != fallback ==> id !in definitions)
      ensures definitions - {id} == old(definitions) - {id}
      ensures unchanged(`publicationAdmissions, `guards, `issued, `taken, `known)
    {
      if id != fallback {
        definitions := definitions - {id};
      }
    }
  }

  // ----- Interleaved calls -----

  /** Where a `create_session` call stands. */
  datatype Stage =
    | Resolving
    | Entering
    | Observing(token: Token)
    | Building
    | Refused

  /** A context's session and definition marker; once resolved, the definition the Session is built from. */
  datatype Call = Call(sessionId: string, definition: Option<string>, resolved: Option<string>, stage: Stage)

  /** An observer that ran, the call that ran it, the context it ran for, and whether it succeeded. */
  datatype Run = Run(call: nat, token: Token, sessionId: string, definition: Option<string>, succeeded: bool)

  datatype State = State(registry: Registry, calls: seq<Call>, ran: seq<Run>)

  datatype Step =
    | Associates(sessionId: string, definition: string, observer: bool, token: Token)
    | DropsGuard(guard: Guard)
    | Registers(id: string)
    | Removes(id: string)
    | Creates(sessionId: string, marker: Option<string>)
    | Advances(call: nat, observerSucceeds: bool)

  /** Tokens are fresh, and a guard is dropped once, while it lives. */
  predicate Enabled(s: State, step: Step) {
    match step
    case Associates(_, _, _, token) => token !in s.registry.issued
    case DropsGuard(guard) => guard in s.registry.guards
    case Advances(i, _) => i < |s.calls| && !s.calls[i].stage.Building? && !s.calls[i].stage.Refused?
    case _ => true
  }

  function Advance(s: State, i: nat, succeeds: bool): State
    requires i < |s.calls| && !s.calls[i].stage.Building? && !s.calls[i].stage.Refused?
  {
    var c := s.calls[i];
    match c.stage
    case Resolving =>
      var definition := Resolve(s.registry, c.definition);
      s.(calls := s.calls[i := c.(resolved := definition, stage := if definition.Some? then Entering else Refused)])
    case Entering =>
      var (registry, entered) := Enter(s.registry, c.sessionId, c.definition);
      var stage := match entered
        case Mismatch => Refused
        case Admitted(None) => Building
        case Admitted(Some(token)) => Observing(token);
      s.(registry := registry, calls := s.calls[i := c.(stage := stage)])
    case Observing(token) =>
      s.(calls := s.calls[i := c.(stage := if succeeds then Building else Refused)],
         ran := s.ran + [Run(i, token, c.sessionId, c.definition, succeeds)])
  }

  function Apply(s: State, step: Step): State
    requires Enabled(s, step)
  {
    match step
    case Associates(sessionId, definition, observer, token) =>
      s.(registry := Associate(s.registry, sessionId, definition, observer, token).0)
    case DropsGuard(guard) => s.(registry := DropGuard(s.registry, guard))
    case Registers(id) => s.(registry := Register(s.registry, id).0)
    case Removes(id) => s.(registry := Unregister(s.registry, id))
    case Creates(sessionId, marker) => s.(calls := s.calls + [Call(sessionId, marker, None, Resolving)])
    case Advances(i, succeeds) => Advance(s, i, succeeds)
  }

  predicate Follows(states: seq<State>, steps: seq<Step>, k: nat)
    requires |states| == |steps| + 1
  {
    k < |steps| ==> Enabled(states[k], steps[k]) && states[k + 1] == Apply(states[k], steps[k])
  }

  /** Any interleaving of any operations, from a new factory. */
  predicate IsRun(states: seq<State>, steps: seq<Step>, fallback: string, maxDefinitions: nat) {
    && |states| == |steps| + 1
    && states[0] == State(Fresh(fallback, maxDefinitions), [], [])
    && forall k :: 0 <= k < |steps| ==> Follows(states, steps, k)
  }

  // ----- What every interleaving keeps -----

  /** The context carries the definition its admission was issued for, which was registered. */
  predicate MatchesRequest(r: Registry, token: Token, sessionId: string, definition: Option<string>) {
    && token in r.taken && token in r.issued && r.issued[token].observer
    && r.issued[token].sessionId == sessionId && definition == Some(r.issued[token].definition)
    && r.issued[token].definition in r.known
  }

  predicate CallOk(r: Registry, ran: seq<Run>, c: Call) {
    && (c.stage.Entering? && c.definition.Some? ==> c.definition.value in r.known)
    && (c.stage.Observing? ==>
          && MatchesRequest(r, c.stage.token, c.sessionId, c.definition)
          && forall k :: 0 <= k < |ran| ==> ran[k].token != c.stage.token)
  }

  predicate RanOnce(r: Registry, ran: seq<Run>) {
    && (forall k :: 0 <= k < |ran| ==> MatchesRequest(r, ran[k].token, ran[k].sessionId, ran[k].definition))
    && (forall j, k :: 0 <= j < k < |ran| ==> ran[j].token != ran[k].token)
  }

  predicate ObserversApart(calls: seq<Call>) {
    forall i, j :: 0 <= i < j < |calls| && calls[i].stage.Observing? && calls[j].stage.Observing? ==>
      calls[i].stage.token != calls[j].stage.token
  }

  predicate Inv(s: State) {
    && RegistryOk(s.registry) && DefinitionsOk(s.registry)
    && RanOnce(s.registry, s.ran) && ObserversApart(s.calls)
    && forall i :: 0 <= i < |s.calls| ==> CallOk(s.registry, s.ran, s.calls[i])
  }

  /** What calls know of the registry stays true as it issues, takes and learns more. */
  predicate Grows(r: Registry, after: Registry) {
    && r.taken <= after.taken && r.known <= after.known
    && forall token :: token in r.issued ==> token in after.issued && after.issued[token] == r.issued[token]
  }

  lemma CallsStayOk(r: Registry, after: Registry, ran: seq<Run>, calls: seq<Call>)
    requires Grows(r, after) && RanOnce(r, ran) && forall i :: 0 <= i < |calls| ==> CallOk(r, ran, calls[i])
    ensures RanOnce(after, ran) && forall i :: 0 <= i < |calls| ==> CallOk(after, ran, calls[i])
  {
  }

  lemma AssociateKeeps(r: Registry, sessionId: string, definition: string, observer: bool, token: Token)
    requires RegistryOk(r) && DefinitionsOk(r) && token !in r.issued
    ensures var after := Associate(r, sessionId, definition, observer, token).0;
            RegistryOk(after) && DefinitionsOk(after) && Grows(r, after)
  {
  }

  lemma DropGuardKeeps(r: Registry, guard: Guard)
    requires RegistryOk(r) && DefinitionsOk(r)
    ensures RegistryOk(DropGuard(r, guard)) && DefinitionsOk(DropGuard(r, guard)) && Grows(r, DropGuard(r, guard))
  {
  }

  lemma RegisterKeeps(r: Registry, id: string)
    requires RegistryOk(r) && DefinitionsOk(r)
    ensures RegistryOk(Register(r, id).0) && DefinitionsOk(Register(r, id).0) && Grows(r, Register(r, id).0)
  {
  }

  lemma UnregisterKeeps(r: Registry, id: string)
    requires RegistryOk(r) && DefinitionsOk(r)
    ensures RegistryOk(Unregister(r, id)) && DefinitionsOk(Unregister(r, id)) && Grows(r, Unregister(r, id))
  {
  }

  lemma RegistryStepsKeep(s: State, step: Step)
    requires Inv(s) && Enabled(s, step) && !step.Advances?
    ensures Inv(Apply(s, step))
  {
    match step {
      case Associates(sessionId, definition, observer, token) =>
        AssociateKeeps(s.registry, sessionId, definition, observer, token);
      case DropsGuard(guard) => DropGuardKeeps(s.registry, guard);
      case Registers(id) => RegisterKeeps(s.registry, id);
      case Removes(id) => UnregisterKeeps(s.registry, id);
      case Creates(_, _) =>
    }
    CallsStayOk(s.registry, Apply(s, step).registry, s.ran, s.calls);
  }

  lemma EnterKeeps(r: Registry, sessionId: string, definition: Option<string>)
    requires RegistryOk(r) && DefinitionsOk(r) && (definition.Some? ==> definition.value in r.known)
    ensures var (after, entered) := Enter(r, sessionId, definition);
            && RegistryOk(after) && DefinitionsOk(after)
            && r.taken <= after.taken && after.issued == r.issued && after.known == r.known
            && (entered.Admitted? && entered.observer.Some? ==>
                  && entered.observer.value !in r.taken
                  && MatchesRequest(after, entered.observer.value, sessionId, definition))
  {
  }

  lemma ResolvingKeeps(s: State, i: nat, succeeds: bool)
    requires Inv(s) && i < |s.calls| && s.calls[i].stage.Resolving?
    ensures Inv(Advance(s, i, succeeds))
  {
  }

  lemma EnteringKeeps(s: State, i: nat, succeeds: bool)
    requires Inv(s) && i < |s.calls| && s.calls[i].stage.Entering?
    ensures Inv(Advance(s, i, succeeds))
  {
    assert CallOk(s.registry, s.ran, s.calls[i]);
    EnterKeeps(s.registry, s.calls[i].sessionId, s.calls[i].definition);
    CallsStayOk(s.registry, Advance(s, i, succeeds).registry, s.ran, s.calls);
  }

  lemma ObservingKeeps(s: State, i: nat, succeeds: bool)
    requires Inv(s) && i < |s.calls| && s.calls[i].stage.Observing?
    ensures Inv(Advance(s, i, succeeds))
  {
    assert CallOk(s.registry, s.ran, s.calls[i]);
  }

  lemma AdvanceKeeps(s: State, i: nat, succeeds: bool)
    requires Inv(s) && Enabled(s, Advances(i, succeeds))
    ensures Inv(Advance(s, i, succeeds))
  {
    match s.calls[i].stage
    case Resolving => ResolvingKeeps(s, i, succeeds);
    case Entering => EnteringKeeps(s, i, succeeds);
    case Observing(_) => ObservingKeeps(s, i, succeeds);
  }

  lemma StepKeepsInv(s: State, step: Step)
    requires Inv(s) && Enabled(s, step)
    ensures Inv(Apply(s, step))
  {
    if step.Advances? { AdvanceKeeps(s, step.call, step.observerSucceeds); } else { RegistryStepsKeep(s, step); }
  }

  lemma {:induction false} RunKeepsInv(states: seq<State>, steps: seq<Step>,
                                       fallback: string, maxDefinitions: nat, k: nat)
    requires IsRun(states, steps, fallback, maxDefinitions) && k < |states|
    ensures Inv(states[k])
    ensures states[k].registry.fallback == fallback && states[k].registry.maxDefinitions == maxDefinitions
  {
    if k > 0 {
      RunKeepsInv(states, steps, fallback, maxDefinitions, k - 1);
      assert Follows(states, steps, k - 1);
      StepKeepsInv(states[k - 1], steps[k - 1]);
    }
  }

  /** In every interleaving, live guards and map entries are in bijection: each guard has its own
      entry, each entry its own guard, and no two entries share a token. */
  lemma GuardsMatchEntries(states: seq<State>, steps: seq<Step>, fallback: string, maxDefinitions: nat, k: nat)
    requires IsRun(states, steps, fallback, maxDefinitions) && k < |states|
    ensures var r := states[k].registry;
            && r.guards == (set id | id in r.admissions :: Guard(id, r.admissions[id].token))
            && forall a, b :: a in r.admissions && b in r.admissions && a != b ==>
                 r.admissions[a].token != r.admissions[b].token
  {
    RunKeepsInv(states, steps, fallback, maxDefinitions, k);
    var r := states[k].registry;
    assert forall id :: id in r.admissions ==> EntryOk(r, id, r.admissions[id]);
  }

  /** A dropped guard removes its own entry, always finds it, and removes no other. */
  lemma GuardRemovesItsOwn(states: seq<State>, steps: seq<Step>, fallback: string, maxDefinitions: nat, k: nat)
    requires IsRun(states, steps, fallback, maxDefinitions) && k < |steps| && steps[k].DropsGuard?
    ensures var before, after := states[k].registry.admissions, states[k + 1].registry.admissions;
            var guard := steps[k].guard;
            && guard.sessionId in before && before[guard.sessionId].token == guard.token
            && after == before - {guard.sessionId}
  {
    RunKeepsInv(states, steps, fallback, maxDefinitions, k);
    assert Follows(states, steps, k);
  }

  /** An occupied address is refused, and nothing changes; a free one is taken, and nothing else changes. */
  lemma AssociateIsExclusive(states: seq<State>, steps: seq<Step>, fallback: string, maxDefinitions: nat, k: nat)
    requires IsRun(states, steps, fallback, maxDefinitions) && k < |steps| && steps[k].Associates?
    ensures var before, after, id := states[k].registry, states[k + 1].registry, steps[k].sessionId;
            if id in before.admissions then states[k + 1] == states[k]
            else && Guard(id, steps[k].token) in after.guards
                 && after.guards - {Guard(id, steps[k].token)} == before.guards
                 && after.admissions - {id} == before.admissions
  {
    RunKeepsInv(states, steps, fallback, maxDefinitions, k);
    assert Follows(states, steps, k);
    var before, after := states[k].registry, states[k + 1].registry;
    if steps[k].sessionId !in before.admissions {
      assert Guard(steps[k].sessionId, steps[k].token) !in before.guards;
    }
  }

  // ----- Which calls get to build a Session -----

  /** A marker that names no registered definition. */
  predicate IsUnknown(r: Registry, c: Call) {
    c.definition.Some? && c.definition.value !in r.definitions
  }

  /** The definition a call must build from: the registered one it names, or the default if it names none. */
  predicate BuildsFrom(r: Registry, c: Call, id: string) {
    if c.definition.None? then id == r.fallback else id == c.definition.value && id in r.definitions
  }

  /** The call's address is held for another definition than the call's. */
  predicate IsForeign(r: Registry, c: Call) {
    c.sessionId in r.admissions && c.definition != Some(r.admissions[c.sessionId].definition)
  }

  /** The entry at the call's address still has its observer, and `token` is the entry's. */
  predicate Awaits(r: Registry, c: Call, token: Token) {
    && c.sessionId in r.admissions
    && r.admissions[c.sessionId].observer && r.admissions[c.sessionId].token == token
  }

  predicate AwaitsNone(r: Registry, c: Call) {
    c.sessionId in r.admissions ==> !r.admissions[c.sessionId].observer
  }

  /** Step `m` is one of call `i`. */
  predicate Moves(states: seq<State>, steps: seq<Step>, m: nat, i: nat)
    requires |states| == |steps| + 1
  {
    && m < |steps| && steps[m].Advances? && steps[m].call == i && i < |states[m].calls|
    && !states[m].calls[i].stage.Building? && !states[m].calls[i].stage.Refused?
  }

  predicate ResolvesTo(states: seq<State>, steps: seq<Step>, m: nat, i: nat, id: string)
    requires |states| == |steps| + 1
  {
    && Moves(states, steps, m, i) && states[m].calls[i].stage.Resolving?
    && BuildsFrom(states[m].registry, states[m].calls[i], id)
  }

  predicate EntersAt(states: seq<State>, steps: seq<Step>, m: nat, i: nat)
    requires |states| == |steps| + 1
  {
    && Moves(states, steps, m, i) && states[m].calls[i].stage.Entering?
    && !IsForeign(states[m].registry, states[m].calls[i])
  }

  /** The steps that refuse a call: an unknown definition, a foreign address, an observer that fails. */
  predicate FailsAt(states: seq<State>, steps: seq<Step>, m: nat, i: nat)
    requires |states| == |steps| + 1
  {
    && Moves(states, steps, m, i)
    && var c, r := states[m].calls[i], states[m].registry;
       match c.stage
       case Resolving => IsUnknown(r, c)
       case Entering => IsForeign(r, c)
       case _ => !steps[m].observerSucceeds
  }

  /** The steps after which a call builds: entering with no observer to run, or running it. */
  predicate PassesAt(states: seq<State>, steps: seq<Step>, m: nat, i: nat)
    requires |states| == |steps| + 1
  {
    || (EntersAt(states, steps, m, i) && AwaitsNone(states[m].registry, states[m].calls[i]))
    || (Moves(states, steps, m, i) && states[m].calls[i].stage.Observing? && steps[m].observerSucceeds)
  }

  /** One step of a call, told by the registry alone: where the call stands next, which definition it
      then has, which observer it took, and what ran. No other call moves. */
  lemma AdvanceExactly(s: State, i: nat, succeeds: bool)
    requires Enabled(s, Advances(i, succeeds))
    ensures var after, c := Advance(s, i, succeeds), s.calls[i];
            && |after.calls| == |s.calls|
            && after.calls[i].sessionId == c.sessionId && after.calls[i].definition == c.definition
            && (forall j :: 0 <= j < |s.calls| && j != i ==> after.calls[j] == s.calls[j])
    ensures var after, c := Advance(s, i, succeeds), s.calls[i];
            match c.stage
            case Resolving =>
              && after.registry == s.registry && after.ran == s.ran
              && (if IsUnknown(s.registry, c) then after.calls[i].stage == Refused
                  else && after.calls[i].stage == Entering && after.calls[i].resolved.Some?
                       && BuildsFrom(s.registry, c, after.calls[i].resolved.value))
            case Entering =>
              && after.ran == s.ran && after.calls[i].resolved == c.resolved
              && (if IsForeign(s.registry, c) then after.calls[i].stage == Refused
                  else if AwaitsNone(s.registry, c) then after.calls[i].stage == Building
                  else after.calls[i].stage.Observing? && Awaits(s.registry, c, after.calls[i].stage.token))
              && (after.calls[i].stage.Observing? ==>
                    && AwaitsNone(after.registry, c) && c.sessionId in after.registry.admissions
                    && after.registry.admissions[c.sessionId].(observer := true)
                       == s.registry.admissions[c.sessionId]
                    && after.registry.admissions - {c.sessionId} == s.registry.admissions - {c.sessionId})
              && (!after.calls[i].stage.Observing? ==> after.registry == s.registry)
            case _ =>
              && after.registry == s.registry && after.calls[i].resolved == c.resolved
              && after.calls[i].stage == (if succeeds then Building else Refused)
              && after.ran == s.ran + [Run(i, c.stage.token, c.sessionId, c.definition, succeeds)]
  {
  }

  /** A call keeps its context, and the definition it has resolved. */
  lemma {:induction false} CallStays(states: seq<State>, steps: seq<Step>, fallback: string, maxDefinitions: nat,
                                     m: nat, k: nat, i: nat)
    requires IsRun(states, steps, fallback, maxDefinitions) && m <= k < |states| && i < |states[m].calls|
    ensures i < |states[k].calls|
    ensures states[k].calls[i].sessionId == states[m].calls[i].sessionId
    ensures states[k].calls[i].definition == states[m].calls[i].definition
    ensures !states[m].calls[i].stage.Resolving? ==> states[k].calls[i].resolved == states[m].calls[i].resolved
    ensures states[m].calls[i].stage.Building? || states[m].calls[i].stage.Refused? ==>
              states[k].calls[i] == states[m].calls[i]
    ensures !states[m].calls[i].stage.Resolving? ==> !states[k].calls[i].stage.Resolving?
  {
    if m < k {
      CallStays(states, steps, fallback, maxDefinitions, m, k - 1, i);
      assert Follows(states, steps, k - 1);
    }
  }

  predicate RanBy(ran: seq<Run>, i: nat) {
    exists j :: 0 <= j < |ran| && ran[j].call == i
  }

  /** Nothing has run for a call that is not through with its observer. */
  lemma {:induction false} NotRunYet(states: seq<State>, steps: seq<Step>, fallback: string, maxDefinitions: nat,
                                     k: nat, i: nat)
    requires IsRun(states, steps, fallback, maxDefinitions) && k < |states|
    requires i < |states[k].calls| ==> !states[k].calls[i].stage.Building? && !states[k].calls[i].stage.Refused?
    ensures !RanBy(states[k].ran, i)
  {
    if k > 0 {
      assert Follows(states, steps, k - 1);
      NotRunYet(states, steps, fallback, maxDefinitions, k - 1, i);
    }
  }

  /** Past its resolving step, a call has the definition that it named and found registered there, or
      the default if it names none. */
  lemma {:induction false} ResolvedBefore(states: seq<State>, steps: seq<Step>, fallback: string, maxDefinitions: nat,
                                          k: nat, i: nat) returns (m: nat)
    requires IsRun(states, steps, fallback, maxDefinitions) && k < |states| && i < |states[k].calls|
    requires !states[k].calls[i].stage.Resolving? && !states[k].calls[i].stage.Refused?
    ensures m < k && states[k].calls[i].resolved.Some?
    ensures ResolvesTo(states, steps, m, i, states[k].calls[i].resolved.value)
  {
    assert Follows(states, steps, k - 1);
    if Moves(states, steps, k - 1, i) && states[k - 1].calls[i].stage.Resolving? {
      m := k - 1;
      AdvanceExactly(states[m], i, steps[m].observerSucceeds);
    } else {
      m := ResolvedBefore(states, steps, fallback, maxDefinitions, k - 1, i);
    }
  }

  /** Past its entering step, a call had found its address free, or held for its own definition. */
  lemma {:induction false} EnteredBefore(states: seq<State>, steps: seq<Step>, fallback: string, maxDefinitions: nat,
                                         k: nat, i: nat) returns (n: nat)
    requires IsRun(states, steps, fallback, maxDefinitions) && k < |states| && i < |states[k].calls|
    requires states[k].calls[i].stage.Building? || states[k].calls[i].stage.Observing?
    ensures n < k && EntersAt(states, steps, n, i)
    ensures states[k].calls[i].stage.Observing? ==>
              Awaits(states[n].registry, states[n].calls[i], states[k].calls[i].stage.token)
    ensures states[k].calls[i].stage.Building? ==>
              AwaitsNone(states[n].registry, states[n].calls[i]) || RanBy(states[k].ran, i)
  {
    assert Follows(states, steps, k - 1);
    if Moves(states, steps, k - 1, i) && states[k - 1].calls[i].stage.Entering? {
      n := k - 1;
      AdvanceExactly(states[n], i, steps[n].observerSucceeds);
    } else {
      n := EnteredBefore(states, steps, fallback, maxDefinitions, k - 1, i);
      if RanBy(states[k - 1].ran, i) {
        var j :| 0 <= j < |states[k - 1].ran| && states[k - 1].ran[j].call == i;
        assert states[k].ran[j].call == i;
      } else if states[k - 1].calls[i].stage.Observing? && states[k].calls[i].stage.Building? {
        assert states[k].ran[|states[k - 1].ran|].call == i;
      }
    }
  }

  /** An entry of what ran, by the steps of the call that ran it: it entered at an address that awaited
      that very token, then ran it, with that outcome, and is through. */
  lemma {:induction false} RanMeans(states: seq<State>, steps: seq<Step>, fallback: string, maxDefinitions: nat,
                                    k: nat, j: nat) returns (m: nat, n: nat, o: nat)
    requires IsRun(states, steps, fallback, maxDefinitions) && k < |states| && j < |states[k].ran|
    ensures var run := states[k].ran[j];
            && run.call < |states[k].calls| && run.definition.Some?
            && m < n < o < k && ResolvesTo(states, steps, m, run.call, run.definition.value)
            && EntersAt(states, steps, n, run.call)
            && Awaits(states[n].registry, states[n].calls[run.call], run.token)
            && Moves(states, steps, o, run.call) && states[o].calls[run.call].stage == Observing(run.token)
            && steps[o].observerSucceeds == run.succeeded
            && states[k].calls[run.call].sessionId == run.sessionId
            && states[k].calls[run.call].definition == run.definition
            && states[k].calls[run.call].stage == (if run.succeeded then Building else Refused)
  {
    assert Follows(states, steps, k - 1);
    if j < |states[k - 1].ran| {
      m, n, o := RanMeans(states, steps, fallback, maxDefinitions, k - 1, j);
    } else {
      o := k - 1;
      var i := steps[o].call;
      AdvanceExactly(states[o], i, steps[o].observerSucceeds);
      n := EnteredBefore(states, steps, fallback, maxDefinitions, o, i);
      m := ResolvedBefore(states, steps, fallback, maxDefinitions, n, i);
      CallStays(states, steps, fallback, maxDefinitions, m, n, i);
      CallStays(states, steps, fallback, maxDefinitions, n, k, i);
    }
  }

  /** A call runs at most one observer. */
  lemma {:induction false} RunsAtMostOnce(states: seq<State>, steps: seq<Step>, fallback: string, maxDefinitions: nat,
                                          k: nat, j: nat, l: nat)
    requires IsRun(states, steps, fallback, maxDefinitions) && k < |states|
    requires j < l < |states[k].ran|
    ensures states[k].ran[j].call != states[k].ran[l].call
  {
    assert Follows(states, steps, k - 1);
    if l < |states[k - 1].ran| {
      RunsAtMostOnce(states, steps, fallback, maxDefinitions, k - 1, j, l);
    } else {
      var i := steps[k - 1].call;
      NotRunYet(states, steps, fallback, maxDefinitions, k - 1, i);
      assert states[k - 1].ran[j] == states[k].ran[j];
    }
  }

  /** A call that builds a Session builds it from its marker's registered definition, or from the default if it has
      no marker; it entered where no other request was waiting; and if an observer was waiting there for it, that
      observer ran for this call, once, and succeeded. */
  lemma BuildingMeans(states: seq<State>, steps: seq<Step>, fallback: string, maxDefinitions: nat, k: nat, i: nat)
    returns (m: nat, n: nat)
    requires IsRun(states, steps, fallback, maxDefinitions) && k < |states| && i < |states[k].calls|
    requires states[k].calls[i].stage.Building?
    ensures var c := states[k].calls[i];
            && m < n < k && c.resolved.Some?
            && ResolvesTo(states, steps, m, i, c.resolved.value) && EntersAt(states, steps, n, i)
            && c.resolved == (if c.definition.Some? then c.definition else Some(fallback))
    ensures AwaitsNone(states[n].registry, states[n].calls[i]) ==> !RanBy(states[k].ran, i)
    ensures forall token :: Awaits(states[n].registry, states[n].calls[i], token) ==>
              RanBy(states[k].ran, i)
    ensures forall j :: 0 <= j < |states[k].ran| && states[k].ran[j].call == i ==>
              && states[k].ran[j].succeeded
              && Awaits(states[n].registry, states[n].calls[i], states[k].ran[j].token)
              && forall l :: 0 <= l < |states[k].ran| && l != j ==> states[k].ran[l].call != i
  {
    n := EnteredBefore(states, steps, fallback, maxDefinitions, k, i);
    m := ResolvedBefore(states, steps, fallback, maxDefinitions, n, i);
    CallStays(states, steps, fallback, maxDefinitions, m, n, i);
    CallStays(states, steps, fallback, maxDefinitions, n, k, i);
    RunKeepsInv(states, steps, fallback, maxDefinitions, m);
    forall j | 0 <= j < |states[k].ran| && states[k].ran[j].call == i
      ensures states[k].ran[j].succeeded
      ensures Awaits(states[n].registry, states[n].calls[i], states[k].ran[j].token)
      ensures forall l :: 0 <= l < |states[k].ran| && l != j ==> states[k].ran[l].call != i
    {
      var _, n', _ := RanMeans(states, steps, fallback, maxDefinitions, k, j);
      EntersOnce(states, steps, fallback, maxDefinitions, n, n', i);
      forall l | 0 <= l < |states[k].ran| && l != j
        ensures states[k].ran[l].call != i
      {
        RunsAtMostOnce(states, steps, fallback, maxDefinitions, k, if l < j then l else j, if l < j then j else l);
      }
    }
  }

  lemma EntersOnce(states: seq<State>, steps: seq<Step>, fallback: string, maxDefinitions: nat,
                   n: nat, n': nat, i: nat)
    requires IsRun(states, steps, fallback, maxDefinitions)
    requires EntersAt(states, steps, n, i) && EntersAt(states, steps, n', i)
    ensures n == n'
  {
    LeavesEntering(states, steps, fallback, maxDefinitions, n, n', i);
    LeavesEntering(states, steps, fallback, maxDefinitions, n', n, i);
  }

  lemma {:induction false} LeavesEntering(states: seq<State>, steps: seq<Step>, fallback: string, maxDefinitions: nat,
                                          n: nat, k: nat, i: nat)
    requires IsRun(states, steps, fallback, maxDefinitions) && k < |states|
    requires EntersAt(states, steps, n, i)
    ensures n < k ==> i < |states[k].calls| && !states[k].calls[i].stage.Entering?
    ensures n < k ==> !states[k].calls[i].stage.Resolving?
  {
    if n < k {
      assert Follows(states, steps, k - 1);
      AdvanceExactly(states[n], i, steps[n].observerSucceeds);
      LeavesEntering(states, steps, fallback, maxDefinitions, n, k - 1, i);
    }
  }

  /** A call is refused exactly when one of its own steps failed, and builds exactly when one passed. */
  lemma OutcomeIsExact(states: seq<State>, steps: seq<Step>, fallback: string, maxDefinitions: nat, k: nat, i: nat)
    requires IsRun(states, steps, fallback, maxDefinitions) && k < |states| && i < |states[k].calls|
    ensures states[k].calls[i].stage.Refused? <==> exists m :: 0 <= m < k && FailsAt(states, steps, m, i)
    ensures states[k].calls[i].stage.Building? <==> exists m :: 0 <= m < k && PassesAt(states, steps, m, i)
  {
    if states[k].calls[i].stage.Refused? || states[k].calls[i].stage.Building? {
      var m := SettledBy(states, steps, fallback, maxDefinitions, k, i);
    }
    forall m | 0 <= m < k && FailsAt(states, steps, m, i)
      ensures states[k].calls[i].stage.Refused?
    {
      assert Follows(states, steps, m);
      AdvanceExactly(states[m], i, steps[m].observerSucceeds);
      CallStays(states, steps, fallback, maxDefinitions, m + 1, k, i);
    }
    forall m | 0 <= m < k && PassesAt(states, steps, m, i)
      ensures states[k].calls[i].stage.Building?
    {
      assert Follows(states, steps, m);
      AdvanceExactly(states[m], i, steps[m].observerSucceeds);
      CallStays(states, steps, fallback, maxDefinitions, m + 1, k, i);
    }
  }

  lemma {:induction false} SettledBy(states: seq<State>, steps: seq<Step>, fallback: string, maxDefinitions: nat,
                                     k: nat, i: nat) returns (m: nat)
    requires IsRun(states, steps, fallback, maxDefinitions) && k < |states| && i < |states[k].calls|
    requires states[k].calls[i].stage.Refused? || states[k].calls[i].stage.Building?
    ensures m < k
    ensures states[k].calls[i].stage.Refused? ==> FailsAt(states, steps, m, i)
    ensures states[k].calls[i].stage.Building? ==> PassesAt(states, steps, m, i)
  {
    assert Follows(states, steps, k - 1);
    if Moves(states, steps, k - 1, i) {
      m := k - 1;
      AdvanceExactly(states[m], i, steps[m].observerSucceeds);
    } else {
      m := SettledBy(states, steps, fallback, maxDefinitions, k - 1, i);
    }
  }

  /** Each observer runs at most once, and only for a context of the session it was associated with
      that carries the associated definition, which that call itself had found registered. */
  lemma ObserversRunOnce(states: seq<State>, steps: seq<Step>, fallback: string, maxDefinitions: nat, k: nat, j: nat)
    returns (m: nat, n: nat)
    requires IsRun(states, steps, fallback, maxDefinitions) && k < |states| && j < |states[k].ran|
    ensures var run := states[k].ran[j];
            && MatchesRequest(states[k].registry, run.token, run.sessionId, run.definition)
            && m < n < k && ResolvesTo(states, steps, m, run.call, run.definition.value)
            && run.definition.value in states[m].registry.definitions
            && EntersAt(states, steps, n, run.call)
            && Awaits(states[n].registry, states[n].calls[run.call], run.token)
            && run.call < |states[k].calls|
            && states[k].calls[run.call].stage == (if run.succeeded then Building else Refused)
    ensures forall i :: 0 <= i < |states[k].ran| && i != j ==> states[k].ran[i].token != states[k].ran[j].token
  {
    RunKeepsInv(states, steps, fallback, maxDefinitions, k);
    var o;
    m, n, o := RanMeans(states, steps, fallback, maxDefinitions, k, j);
    RunKeepsInv(states, steps, fallback, maxDefinitions, m);
    CallStays(states, steps, fallback, maxDefinitions, m, k, states[k].ran[j].call);
  }

  /** The default definition is never lost, and the registry holds at most max(1, limit) definitions. */
  lemma RegistryIsBounded(states: seq<State>, steps: seq<Step>, fallback: string, maxDefinitions: nat, k: nat)
    requires IsRun(states, steps, fallback, maxDefinitions) && k < |states|
    ensures fallback in states[k].registry.definitions
    ensures |states[k].registry.definitions| <= (if maxDefinitions > 1 then maxDefinitions else 1)
    ensures Resolve(states[k].registry, None) == Some(fallback) == Resolve(states[k].registry, Some(fallback))
  {
    RunKeepsInv(states, steps, fallback, maxDefinitions, k);
  }

  // ----- Registry contents, by the steps of the run -----

  /** Step `m` registers `id`, and finds it registered or finds room. */
  predicate RegistersAt(states: seq<State>, steps: seq<Step>, m: nat, id: string)
    requires |states| == |steps| + 1
  {
    && m < |steps| && steps[m] == Registers(id)
    && (|| id in states[m].registry.definitions
        || |states[m].registry.definitions| < states[m].registry.maxDefinitions)
  }

  /** Step `undo` is taken after step `m` and before step `k`. */
  predicate TakenWithin(steps: seq<Step>, undo: Step, m: nat, k: nat) {
    exists l :: m < l < k && l < |steps| && steps[l] == undo
  }

  lemma TakenByLast(steps: seq<Step>, undo: Step, m: nat, k: nat)
    requires m < k <= |steps|
    ensures TakenWithin(steps, undo, m, k) <==>
              TakenWithin(steps, undo, m, k - 1) || (m < k - 1 && steps[k - 1] == undo)
  {
    if TakenWithin(steps, undo, m, k - 1) {
      var l :| m < l < k - 1 && l < |steps| && steps[l] == undo;
      assert m < l < k;
    }
    if m < k - 1 && steps[k - 1] == undo {
      assert m < k - 1 < k;
    }
  }

  predicate RegisteredSince(states: seq<State>, steps: seq<Step>, m: nat, k: nat, id: string)
    requires |states| == |steps| + 1
  {
    m < k && RegistersAt(states, steps, m, id) && !TakenWithin(steps, Removes(id), m, k)
  }

  /** Besides the default, the registered definitions are those a step registered and none removed since. */
  lemma {:induction false} RegisteredExactly(states: seq<State>, steps: seq<Step>,
                                             fallback: string, maxDefinitions: nat, k: nat, id: string)
    requires IsRun(states, steps, fallback, maxDefinitions) && k < |states|
    ensures id in states[k].registry.definitions <==>
              || id == fallback
              || exists m :: 0 <= m < k && RegisteredSince(states, steps, m, k, id)
  {
    RunKeepsInv(states, steps, fallback, maxDefinitions, k);
    if k > 0 && id != fallback {
      RegisteredExactly(states, steps, fallback, maxDefinitions, k - 1, id);
      RunKeepsInv(states, steps, fallback, maxDefinitions, k - 1);
      assert Follows(states, steps, k - 1);
      RegisteredAfter(states[k - 1], steps[k - 1], id);
      forall m | 0 <= m < k
        ensures RegisteredSince(states, steps, m, k, id) <==>
                  if m == k - 1 then RegistersAt(states, steps, m, id)
                  else RegisteredSince(states, steps, m, k - 1, id) && steps[k - 1] != Removes(id)
      {
        TakenByLast(steps, Removes(id), m, k);
      }
      assert RegistersAt(states, steps, k - 1, id) <==> RegisteredSince(states, steps, k - 1, k, id);
      var last := k - 1;
      if m :| 0 <= m < last && RegisteredSince(states, steps, m, last, id) {
        assert steps[k - 1] == Removes(id) || RegisteredSince(states, steps, m, k, id);
      }
    }
  }

  lemma RegisteredAfter(s: State, step: Step, id: string)
    requires Inv(s) && Enabled(s, step) && id != s.registry.fallback
    ensures id in Apply(s, step).registry.definitions <==>
              || (id in s.registry.definitions && step != Removes(id))
              || (&& step == Registers(id)
                  && (id in s.registry.definitions || |s.registry.definitions| < s.registry.maxDefinitions))
  {
  }

  /** Step `m` associates the entry's request with an address that it finds free. */
  predicate AssociatesAt(states: seq<State>, steps: seq<Step>, m: nat, id: string, token: Token, definition: string)
    requires |states| == |steps| + 1
  {
    && m < |steps| && id !in states[m].registry.admissions
    && steps[m].Associates? && steps[m].sessionId == id && steps[m].token == token
    && steps[m].definition == definition
  }

  predicate HeldSince(states: seq<State>, steps: seq<Step>, m: nat, k: nat,
                      id: string, token: Token, definition: string)
    requires |states| == |steps| + 1
  {
    && m < k && AssociatesAt(states, steps, m, id, token, definition)
    && !TakenWithin(steps, DropsGuard(Guard(id, token)), m, k)
  }

  predicate Holds(r: Registry, id: string, token: Token, definition: string) {
    id in r.admissions && r.admissions[id].token == token && r.admissions[id].definition == definition
  }

  /** An address is held, under a token and for a definition, from the step that associates them until
      the step that drops that guard. */
  lemma {:induction false} HeldExactly(states: seq<State>, steps: seq<Step>, fallback: string, maxDefinitions: nat,
                                       k: nat, id: string, token: Token, definition: string)
    requires IsRun(states, steps, fallback, maxDefinitions) && k < |states|
    ensures Holds(states[k].registry, id, token, definition) <==>
              exists m :: 0 <= m < k && HeldSince(states, steps, m, k, id, token, definition)
  {
    if k > 0 {
      HeldExactly(states, steps, fallback, maxDefinitions, k - 1, id, token, definition);
      RunKeepsInv(states, steps, fallback, maxDefinitions, k - 1);
      assert Follows(states, steps, k - 1);
      HeldAfter(states[k - 1], steps[k - 1], id, token, definition);
      forall m | 0 <= m < k
        ensures HeldSince(states, steps, m, k, id, token, definition) <==>
                  if m == k - 1 then AssociatesAt(states, steps, m, id, token, definition)
                  else HeldSince(states, steps, m, k - 1, id, token, definition)
                       && steps[k - 1] != DropsGuard(Guard(id, token))
      {
        TakenByLast(steps, DropsGuard(Guard(id, token)), m, k);
      }
      assert AssociatesAt(states, steps, k - 1, id, token, definition)
             <==> HeldSince(states, steps, k - 1, k, id, token, definition);
      var last := k - 1;
      if m :| 0 <= m < last && HeldSince(states, steps, m, last, id, token, definition) {
        assert steps[k - 1] == DropsGuard(Guard(id, token)) || HeldSince(states, steps, m, k, id, token, definition);
      }
    }
  }

  lemma HeldAfter(s: State, step: Step, id: string, token: Token, definition: string)
    requires Inv(s) && Enabled(s, step)
    ensures Holds(Apply(s, step).registry, id, token, definition) <==>
              || (Holds(s.registry, id, token, definition) && step != DropsGuard(Guard(id, token)))
              || (&& step.Associates? && step.sessionId == id && step.token == token && step.definition == definition
                  && id !in s.registry.admissions)
  {
  }

  /** Calls are the `Creates` steps in order, each with the context of its step. */
  lemma {:induction false} CreatedBy(states: seq<State>, steps: seq<Step>, fallback: string, maxDefinitions: nat,
                                     k: nat, i: nat) returns (m: nat)
    requires IsRun(states, steps, fallback, maxDefinitions) && k < |states| && i < |states[k].calls|
    ensures m < k && |states[m].calls| == i
    ensures steps[m] == Creates(states[k].calls[i].sessionId, states[k].calls[i].definition)
  {
    assert Follows(states, steps, k - 1);
    if i < |states[k - 1].calls| {
      m := CreatedBy(states, steps, fallback, maxDefinitions, k - 1, i);
    } else {
      m := k - 1;
    }
  }
}
