/**
 The accepted external contract of the parity manifest (echo-sdk-protocol/src/inventory.rs):
 a reviewed delta of additions and retirements is checked as a whole and then applied to every
 manifest entry; the accepted contract is read back off the manifest.
 */
module AcceptedScope {
  import opened Prelude
  import opened Sorting
  import InventoryWalk

  type ItemKind = InventoryWalk.ItemKind

  datatype Scope = ExternalContract | InternalHelper | HostOrRustOnly | LanguageIntrinsic | Deferred

  /** A manifest entry; `sourcePaths` in the iteration order of the source's ordered set. */
  datatype Entry = Entry(
    path: string,
    kind: ItemKind,
    sourcePaths: seq<string>,
    signatures: seq<string>,
    route: string,
    canonical: bool,
    scope: Scope)

  /** Source identity and kind: what an acceptance names. */
  datatype Key = Key(identity: string, kind: ItemKind)

  datatype Contract = Contract(schemaVersion: nat, protocolVersion: nat, entries: seq<Entry>)

  datatype ScopeError =
    | IncompatibleSeed
    | NotAnAcceptedEntry(path: string)
    | RepeatedIdentity(identity: string)
    | BadRetirement(identity: string)
    | Disappeared(keys: set<Key>)
    | AlreadyAccepted(identity: string)
    | NotDeferred(identity: string)
    | NotInInventory(identity: string)

  // ----- Scopes and identities -----

  predicate StartsWith(s: string, prefix: string) {
    prefix <= s
  }

  /** The defining path of an item: its least source path, else its facade path. */
  function SourceIdentity(path: string, sourcePaths: seq<string>): string {
    if sourcePaths == [] then path else sourcePaths[0]
  }

  function Identity(e: Entry): string {
    SourceIdentity(e.path, e.sourcePaths)
  }

  function KeyOf(e: Entry): Key {
    Key(Identity(e), e.kind)
  }

  function IntrinsicReason(route: string): string {
    if StartsWith(route, "intrinsic:") then route[|"intrinsic:"|..] else ""
  }

  predicate IsTesting(sourcePaths: seq<string>) {
    exists i :: 0 <= i < |sourcePaths| && StartsWith(sourcePaths[i], "echo_agent::testing::")
  }

  predicate IsReserved(sourcePaths: seq<string>) {
    "echo_agent::acp::AcpSession::reserve_recovered_turn_ids" in sourcePaths
  }

  predicate IsLanguageReason(reason: string) {
    reason in {"rust-language-surface", "rust-trait-implementation", "callback-type-alias"}
  }

  predicate IsHostReason(reason: string) {
    || StartsWith(reason, "process-local-") || StartsWith(reason, "host-owned-")
    || reason == "language-local-opaque-resource-type"
  }

  /** `sdk_scope_for`. Acceptance outranks the testing namespace, which outranks the reserved source,
      which outranks the route. */
  function ScopeFor(sourcePaths: seq<string>, route: string, accepted: bool): (scope: Scope)
    ensures scope == ExternalContract <==> accepted
  {
    if accepted then ExternalContract
    else if IsTesting(sourcePaths) then InternalHelper
    else if IsReserved(sourcePaths) then HostOrRustOnly
    else if IsLanguageReason(IntrinsicReason(route)) then LanguageIntrinsic
    else if IsHostReason(IntrinsicReason(route)) then HostOrRustOnly
    else Deferred
  }

  /** The routes of a language-intrinsic item, whole. */
  predicate IsLanguageRoute(route: string) {
    route in {"intrinsic:rust-language-surface", "intrinsic:rust-trait-implementation",
              "intrinsic:callback-type-alias"}
  }

  /** The routes of an item that stays with its host process: two families and one route of its own. */
  predicate IsHostRoute(route: string) {
    || "intrinsic:process-local-" <= route || "intrinsic:host-owned-" <= route
    || route == "intrinsic:language-local-opaque-resource-type"
  }

  /** What the source reads off the reason can be read off the route. */
  lemma ReasonIsRoute(route: string, reason: string)
    requires reason != ""
    ensures IntrinsicReason(route) == reason <==> route == "intrinsic:" + reason
    ensures reason <= IntrinsicReason(route) <==> "intrinsic:" + reason <= route
  {
    var prefix := "intrinsic:";
    if prefix <= route {
      assert route == prefix + route[|prefix|..];
    }
    if prefix + reason <= route {
      assert (prefix + reason)[..|prefix|] == prefix;
      assert route[|prefix|..][..|reason|] == reason;
    }
  }

  lemma LanguageRoutes()
    ensures "intrinsic:" + "rust-language-surface" == "intrinsic:rust-language-surface"
    ensures "intrinsic:" + "rust-trait-implementation" == "intrinsic:rust-trait-implementation"
    ensures "intrinsic:" + "callback-type-alias" == "intrinsic:callback-type-alias"
  {
  }

  lemma HostRoutes()
    ensures "intrinsic:" + "process-local-" == "intrinsic:process-local-"
    ensures "intrinsic:" + "host-owned-" == "intrinsic:host-owned-"
  {
  }

  lemma OpaqueResourceRoute()
    ensures "intrinsic:" + "language-local-opaque-resource-type" == "intrinsic:language-local-opaque-resource-type"
  {
  }

  lemma LanguageReasonIsRoute(route: string)
    ensures IsLanguageReason(IntrinsicReason(route)) <==> IsLanguageRoute(route)
  {
    ReasonIsRoute(route, "rust-language-surface");
    ReasonIsRoute(route, "rust-trait-implementation");
    ReasonIsRoute(route, "callback-type-alias");
    LanguageRoutes();
  }

  lemma HostReasonIsRoute(route: string)
    ensures IsHostReason(IntrinsicReason(route)) <==> IsHostRoute(route)
  {
    ReasonIsRoute(route, "process-local-");
    ReasonIsRoute(route, "host-owned-");
    ReasonIsRoute(route, "language-local-opaque-resource-type");
    HostRoutes();
    OpaqueResourceRoute();
  }

  lemma LanguageLetter(route: string)
    requires IsLanguageRoute(route)
    ensures |route| > 10 && route[10] in {'r', 'c'}
  {
  }

  lemma HostLetter(route: string)
    requires IsHostRoute(route)
    ensures |route| > 10 && route[10] in {'p', 'h', 'l'}
  {
  }

  /** No route is of both kinds: the letter after the colon tells. */
  lemma RoutesAreApart(route: string)
    ensures !(IsLanguageRoute(route) && IsHostRoute(route))
  {
    if IsLanguageRoute(route) {
      LanguageLetter(route);
    }
    if IsHostRoute(route) {
      HostLetter(route);
    }
  }

  lemma ScopeByReason(sourcePaths: seq<string>, route: string, accepted: bool, language: bool, host: bool)
    requires language == IsLanguageReason(IntrinsicReason(route)) && host == IsHostReason(IntrinsicReason(route))
    requires !(language && host)
    ensures ScopeFor(sourcePaths, route, accepted) == ExternalContract <==> accepted
    ensures ScopeFor(sourcePaths, route, accepted) == InternalHelper <==> !accepted && IsTesting(sourcePaths)
    ensures ScopeFor(sourcePaths, route, accepted) == LanguageIntrinsic <==>
            !accepted && !IsTesting(sourcePaths) && !IsReserved(sourcePaths) && language
    ensures ScopeFor(sourcePaths, route, accepted) == HostOrRustOnly <==>
            !accepted && !IsTesting(sourcePaths) && (IsReserved(sourcePaths) || host)
    ensures ScopeFor(sourcePaths, route, accepted) == Deferred <==>
            !accepted && !IsTesting(sourcePaths) && !IsReserved(sourcePaths) && !language && !host
  {
  }

  /** The scope, told by the source paths and the whole route: acceptance first, then the testing
      namespace, then the reserved source, then the route. */
  lemma ScopeIsExact(sourcePaths: seq<string>, route: string, accepted: bool)
    ensures ScopeFor(sourcePaths, route, accepted) == ExternalContract <==> accepted
    ensures ScopeFor(sourcePaths, route, accepted) == InternalHelper <==> !accepted && IsTesting(sourcePaths)
    ensures ScopeFor(sourcePaths, route, accepted) == LanguageIntrinsic <==>
            !accepted && !IsTesting(sourcePaths) && !IsReserved(sourcePaths) && IsLanguageRoute(route)
    ensures ScopeFor(sourcePaths, route, accepted) == HostOrRustOnly <==>
            !accepted && !IsTesting(sourcePaths) && (IsReserved(sourcePaths) || IsHostRoute(route))
    ensures ScopeFor(sourcePaths, route, accepted) == Deferred <==>
            && !accepted && !IsTesting(sourcePaths) && !IsReserved(sourcePaths)
            && !IsLanguageRoute(route) && !IsHostRoute(route)
  {
    LanguageReasonIsRoute(route);
    HostReasonIsRoute(route);
    RoutesAreApart(route);
    ScopeByReason(sourcePaths, route, accepted, IsLanguageRoute(route), IsHostRoute(route));
  }

  /** An acceptance names an entry by its kind and its least source path, or its facade path if it has none. */
  lemma KeyIsExact(e: Entry, k: Key)
    ensures KeyOf(e) == k <==> k.kind == e.kind
                               && k.identity == (if e.sourcePaths != [] then e.sourcePaths[0] else e.path)
  {
  }

  // ----- What a delta asks for, and what it does -----

  function Keys(entries: seq<Entry>): set<Key> {
    set e | e in entries :: KeyOf(e)
  }

  predicate KeysDistinct(entries: seq<Entry>) {
    DistinctBy(entries, KeyOf)
  }

  function CanonicalKeys(entries: seq<Entry>): set<Key> {
    set e | e in entries && e.canonical :: KeyOf(e)
  }

  /** Several canonical entries may share a key; the first one's scope stands for the key. */
  function FirstScope(entries: seq<Entry>, k: Key): Option<Scope> {
    if entries == [] then None
    else if entries[0].canonical && KeyOf(entries[0]) == k then
      Some(ScopeFor(entries[0].sourcePaths, entries[0].route, false))
    else FirstScope(entries[1..], k)
  }

  /** Entry `i` is the first canonical one of that key. */
  predicate IsFirst(entries: seq<Entry>, k: Key, i: nat) {
    && i < |entries| && entries[i].canonical && KeyOf(entries[i]) == k
    && forall j :: 0 <= j < i ==> !(entries[j].canonical && KeyOf(entries[j]) == k)
  }

  /** The inventory offers the key: the first canonical entry that has it is deferred. */
  ghost predicate IsDeferred(entries: seq<Entry>, k: Key) {
    exists i: nat :: IsFirst(entries, k, i) && ScopeFor(entries[i].sourcePaths, entries[i].route, false) == Deferred
  }

  /** The delta as a whole is consistent with the accepted seed and the current inventory. */
  ghost predicate Admissible(entries: seq<Entry>, protocol: nat, seed: Contract,
                             additions: seq<Key>, retirements: seq<Key>)
  {
    && seed.schemaVersion == 1 && seed.protocolVersion == protocol
    && (forall e :: e in seed.entries ==> e.canonical && e.scope == ExternalContract)
    && KeysDistinct(seed.entries)
    && (forall k :: k in retirements ==> k in Keys(seed.entries) && k !in additions)
    && (forall k :: k in Keys(seed.entries) && k !in retirements ==> k in CanonicalKeys(entries))
    && (forall k :: k in additions ==> k !in Keys(seed.entries) && IsDeferred(entries, k))
  }

  function Elements(keys: seq<Key>): set<Key> {
    set k | k in keys
  }

  function AcceptedKeys(seed: Contract, additions: seq<Key>, retirements: seq<Key>): set<Key> {
    Keys(seed.entries) - Elements(retirements) + Elements(additions)
  }

  function Rescope(e: Entry, accepted: set<Key>): Entry {
    e.(scope := ScopeFor(e.sourcePaths, e.route, KeyOf(e) in accepted))
  }

  function RescopeAll(entries: seq<Entry>, accepted: set<Key>): (after: seq<Entry>)
    ensures |after| == |entries|
    ensures forall i :: 0 <= i < |entries| ==> after[i] == Rescope(entries[i], accepted)
  {
    seq(|entries|, i requires 0 <= i < |entries| => Rescope(entries[i], accepted))
  }

  predicate IsAccepted(e: Entry) {
    e.scope == ExternalContract && e.canonical
  }

  function AcceptedEntries(entries: seq<Entry>): (accepted: seq<Entry>)
    ensures forall e :: e in accepted <==> e in entries && IsAccepted(e)
  {
    if entries == [] then []
    else (if IsAccepted(entries[0]) then [entries[0]] else []) + AcceptedEntries(entries[1..])
  }

  /** `accepted_external_contract_document`. */
  function ContractOf(protocol: nat, entries: seq<Entry>): Contract {
    Contract(1, protocol, AcceptedEntries(entries))
  }

  lemma RescopeOneMore(entries: seq<Entry>, accepted: set<Key>, i: nat)
    requires i < |entries|
    ensures (RescopeAll(entries[..i], accepted) + entries[i..])[i := Rescope(entries[i], accepted)]
            == RescopeAll(entries[..i + 1], accepted) + entries[i + 1..]
  {
  }

  // ----- The operation -----

  lemma {:induction false} FirstScopeOfPrefix(entries: seq<Entry>, i: nat, k: Key)
    requires i < |entries|
    ensures FirstScope(entries[..i + 1], k)
            == (if FirstScope(entries[..i], k).Some? then FirstScope(entries[..i], k)
                else if entries[i].canonical && KeyOf(entries[i]) == k
                then Some(ScopeFor(entries[i].sourcePaths, entries[i].route, false)) else None)
  {
    assert entries[..i + 1][0] == entries[0];
    if i > 0 {
      assert entries[..i + 1][1..] == entries[1..][..i] && entries[..i][1..] == entries[1..][..i - 1];
      FirstScopeOfPrefix(entries[1..], i - 1, k);
    }
  }

  lemma {:induction false} FirstScopeIffCanonical(entries: seq<Entry>, k: Key)
    ensures FirstScope(entries, k).Some? <==> k in CanonicalKeys(entries)
  {
    if entries != [] {
      FirstScopeIffCanonical(entries[1..], k);
      assert entries == [entries[0]] + entries[1..];
      assert CanonicalKeys(entries)
          == CanonicalKeys(entries[1..]) + (if entries[0].canonical then {KeyOf(entries[0])} else {});
    }
  }

  lemma {:induction false} FirstByPosition(entries: seq<Entry>, k: Key, i: nat)
    requires IsFirst(entries, k, i)
    ensures FirstScope(entries, k) == Some(ScopeFor(entries[i].sourcePaths, entries[i].route, false))
  {
    if i > 0 {
      var rest := entries[1..];
      assert forall j :: 0 <= j < |rest| ==> rest[j] == entries[j + 1];
      assert !(entries[0].canonical && KeyOf(entries[0]) == k);
      FirstByPosition(rest, k, i - 1);
    }
  }

  lemma {:induction false} FirstHasPosition(entries: seq<Entry>, k: Key) returns (i: nat)
    requires FirstScope(entries, k).Some?
    ensures IsFirst(entries, k, i)
  {
    i := 0;
    if !(entries[0].canonical && KeyOf(entries[0]) == k) {
      var rest := entries[1..];
      assert forall j :: 0 <= j < |rest| ==> rest[j] == entries[j + 1];
      var before := FirstHasPosition(rest, k);
      i := before + 1;
      assert forall j :: 0 < j < i ==> entries[j] == rest[j - 1];
    }
  }

  lemma DeferredByPosition(entries: seq<Entry>, k: Key)
    ensures FirstScope(entries, k) == Some(Deferred) <==> IsDeferred(entries, k)
  {
    if FirstScope(entries, k) == Some(Deferred) {
      var i := FirstHasPosition(entries, k);
      FirstByPosition(entries, k, i);
    }
    if IsDeferred(entries, k) {
      var i: nat :| IsFirst(entries, k, i) && ScopeFor(entries[i].sourcePaths, entries[i].route, false) == Deferred;
      FirstByPosition(entries, k, i);
    }
  }

  /** Something is wrong with the seed. */
  predicate SeedObjection(seed: Contract, error: ScopeError) {
    match error
    case NotAnAcceptedEntry(path) =>
      exists e :: e in seed.entries && e.path == path && !(e.canonical && e.scope == ExternalContract)
    case RepeatedIdentity(identity) =>
      !KeysDistinct(seed.entries) && exists k :: k in Keys(seed.entries) && k.identity == identity
    case _ => false
  }

  predicate RetirementObjection(seed: set<Key>, additions: seq<Key>, retirements: seq<Key>, error: ScopeError) {
    && error.BadRetirement?
    && exists k :: k in retirements && k.identity == error.identity && (k !in seed || k in additions)
  }

  /** `offered` are the keys that the inventory has, `deferred` those among them that may be added. */
  predicate AdditionObjection(seed: set<Key>, offered: set<Key>, deferred: set<Key>,
                              additions: seq<Key>, error: ScopeError)
  {
    match error
    case AlreadyAccepted(identity) => exists k :: k in additions && k.identity == identity && k in seed
    case NotInInventory(identity) => exists k :: k in additions && k.identity == identity && k !in offered
    case NotDeferred(identity) =>
      exists k :: k in additions && k.identity == identity && k in offered && k !in deferred
    case _ => false
  }

  predicate KeyObjection(seed: set<Key>, offered: set<Key>, deferred: set<Key>,
                         additions: seq<Key>, retirements: seq<Key>, error: ScopeError)
  {
    match error
    case BadRetirement(_) => RetirementObjection(seed, additions, retirements, error)
    case Disappeared(keys) => keys != {} && keys == seed - Elements(retirements) - offered
    case _ => AdditionObjection(seed, offered, deferred, additions, error)
  }

  ghost function DeferredKeys(entries: seq<Entry>): set<Key> {
    set k | k in CanonicalKeys(entries) && IsDeferred(entries, k)
  }

  function DeferredIn(current: map<Key, Scope>): set<Key> {
    set k | k in current && current[k] == Deferred
  }

  /** The error names something that is wrong with the seed or the delta. */
  ghost predicate IsObjection(entries: seq<Entry>, protocol: nat, seed: Contract,
                              additions: seq<Key>, retirements: seq<Key>, error: ScopeError)
  {
    match error
    case IncompatibleSeed => seed.schemaVersion != 1 || seed.protocolVersion != protocol
    case NotAnAcceptedEntry(_) => SeedObjection(seed, error)
    case RepeatedIdentity(_) => SeedObjection(seed, error)
    case _ =>
      KeyObjection(Keys(seed.entries), CanonicalKeys(entries), DeferredKeys(entries), additions, retirements, error)
  }

  lemma CurrentIsOffered(entries: seq<Entry>, current: map<Key, Scope>)
    requires forall k :: FirstScope(entries, k) == (if k in current then Some(current[k]) else None)
    requires current.Keys == CanonicalKeys(entries)
    ensures DeferredKeys(entries) == DeferredIn(current)
    ensures forall k :: IsDeferred(entries, k) <==> k in current && current[k] == Deferred
  {
    forall k
      ensures IsDeferred(entries, k) <==> k in current && current[k] == Deferred
    {
      DeferredByPosition(entries, k);
    }
  }

  lemma MissingKeys(seed: set<Key>, retirements: seq<Key>, canonical: set<Key>, missing: set<Key>)
    requires missing == set k | k in seed && k !in retirements && k !in canonical
    ensures missing == seed - Elements(retirements) - canonical
    ensures missing == {} <==> forall k :: k in seed && k !in retirements ==> k in canonical
  {
    forall k | k in seed && k !in retirements && k !in canonical
      ensures k in missing
    {
    }
  }

  class ParityManifest {
    const protocolVersion: nat
    var entries: seq<Entry>

    constructor (protocolVersion: nat, entries: seq<Entry>)
      ensures this.protocolVersion == protocolVersion && this.entries == entries
    {
      this.protocolVersion, this.entries := protocolVersion, entries;
    }

    /** The keys of the seed, which must be accepted entries with distinct keys. */
    static method CollectSeed(accepted: Contract) returns (r: Result<set<Key>, ScopeError>)
      ensures r.Ok? <==> (forall e :: e in accepted.entries ==> e.canonical && e.scope == ExternalContract)
                         && KeysDistinct(accepted.entries)
      ensures r.Ok? ==> r.value == Keys(accepted.entries)
      ensures r.Err? ==> SeedObjection(accepted, r.error)
    {
      var seed: set<Key> := {};
      var i := 0;
      while i < |accepted.entries|
        invariant 0 <= i <= |accepted.entries|
        invariant seed == Keys(accepted.entries[..i])
        invariant forall e :: e in accepted.entries[..i] ==> e.canonical && e.scope == ExternalContract
        invariant KeysDistinct(accepted.entries[..i])
      {
        var e := accepted.entries[i];
        assert accepted.entries[..i + 1] == accepted.entries[..i] + [e];
        if !e.canonical || e.scope != ExternalContract {
          assert e in accepted.entries;
          return Err(NotAnAcceptedEntry(e.path));
        }
        if KeyOf(e) in seed {
          assert KeyOf(e) in Keys(accepted.entries);
          return Err(RepeatedIdentity(Identity(e)));
        }
        seed := seed + {KeyOf(e)};
        i := i + 1;
      }
      assert accepted.entries[..i] == accepted.entries;
      return Ok(seed);
    }

    /** The scopes that the current inventory offers for acceptance, by key. */
    method CollectCurrent() returns (current: map<Key, Scope>)
      ensures current.Keys == CanonicalKeys(entries)
      ensures forall k :: FirstScope(entries, k) == (if k in current then Some(current[k]) else None)
    {
      current := map[];
      var i := 0;
      while i < |entries|
        invariant 0 <= i <= |entries|
        invariant forall k :: k in current <==> FirstScope(entries[..i], k).Some?
        invariant forall k :: k in current ==> FirstScope(entries[..i], k) == Some(current[k])
      {
        forall k
          ensures FirstScope(entries[..i + 1], k)
                  == (if FirstScope(entries[..i], k).Some? then FirstScope(entries[..i], k)
                      else if entries[i].canonical && KeyOf(entries[i]) == k
                      then Some(ScopeFor(entries[i].sourcePaths, entries[i].route, false)) else None)
        {
          FirstScopeOfPrefix(entries, i, k);
        }
        if entries[i].canonical && KeyOf(entries[i]) !in current {
          current := current[KeyOf(entries[i]) := ScopeFor(entries[i].sourcePaths, entries[i].route, false)];
        }
        i := i + 1;
      }
      assert entries[..i] == entries;
      forall k
        ensures k in current <==> k in CanonicalKeys(entries)
      {
        FirstScopeIffCanonical(entries, k);
      }
    }

    static method CheckRetirements(seed: set<Key>, additions: seq<Key>, retirements: seq<Key>)
      returns (r: Result<(), ScopeError>)
      ensures r.Ok? <==> forall k :: k in retirements ==> k in seed && k !in additions
      ensures r.Err? ==> RetirementObjection(seed, additions, retirements, r.error)
    {
      var i := 0;
      while i < |retirements|
        invariant 0 <= i <= |retirements|
        invariant forall j :: 0 <= j < i ==> retirements[j] in seed && retirements[j] !in additions
      {
        if retirements[i] !in seed || retirements[i] in additions {
          return Err(BadRetirement(retirements[i].identity));
        }
        i := i + 1;
      }
      return Ok(());
    }

    static method CheckAdditions(seed: set<Key>, current: map<Key, Scope>, additions: seq<Key>)
      returns (r: Result<(), ScopeError>)
      ensures r.Ok? <==> forall k :: k in additions ==> k !in seed && k in current && current[k] == Deferred
      ensures r.Err? ==> AdditionObjection(seed, current.Keys, DeferredIn(current), additions, r.error)
    {
      var i := 0;
      while i < |additions|
        invariant 0 <= i <= |additions|
        invariant forall j :: 0 <= j < i ==>
                    additions[j] !in seed && additions[j] in current && current[additions[j]] == Deferred
      {
        if additions[i] in seed {
          return Err(AlreadyAccepted(additions[i].identity));
        } else if additions[i] !in current {
          return Err(NotInInventory(additions[i].identity));
        } else if current[additions[i]] != Deferred {
          return Err(NotDeferred(additions[i].identity));
        }
        i := i + 1;
      }
      return Ok(());
    }

    /** The checks on the keys, in the source's order. */
    static method CheckKeys(seed: set<Key>, current: map<Key, Scope>, additions: seq<Key>, retirements: seq<Key>)
      returns (r: Result<(), ScopeError>)
      ensures r.Ok? <==>
              && (forall k :: k in retirements ==> k in seed && k !in additions)
              && (forall k :: k in seed && k !in retirements ==> k in current)
              && (forall k :: k in additions ==> k !in seed && k in current && current[k] == Deferred)
      ensures r.Err? ==> KeyObjection(seed, current.Keys, DeferredIn(current), additions, retirements, r.error)
    {
      r := CheckRetirements(seed, additions, retirements);
      if r.Err? {
        return;
      }
      var missing := set k | k in seed && k !in retirements && k !in current;
      MissingKeys(seed, retirements, current.Keys, missing);
      if missing != {} {
        return Err(Disappeared(missing));
      }
      r := CheckAdditions(seed, current, additions);
    }

    /** Every check of `apply_accepted_source_scope`, in the source's order, before any mutation. */
    method CheckDelta(accepted: Contract, additions: seq<Key>, retirements: seq<Key>)
      returns (r: Result<set<Key>, ScopeError>)
      ensures r.Ok? <==> Admissible(entries, protocolVersion, accepted, additions, retirements)
      ensures r.Ok? ==> r.value == Keys(accepted.entries)
      ensures r.Err? ==> IsObjection(entries, protocolVersion, accepted, additions, retirements, r.error)
    {
      if accepted.schemaVersion != 1 || accepted.protocolVersion != protocolVersion {
        return Err(IncompatibleSeed);
      }
      var collected := CollectSeed(accepted);
      if collected.Err? {
        return Err(collected.error);
      }
      var seed := collected.value;
      var current := CollectCurrent();
      CurrentIsOffered(entries, current);
      var checked := CheckKeys(seed, current, additions, retirements);
      return if checked.Ok? then Ok(seed) else Err(checked.error);
    }

    /** `apply_accepted_source_scope`: either the whole delta is admissible and every entry is
        rescoped, or the manifest is left as it was. */
    method ApplyAcceptedSourceScope(accepted: Contract, additions: seq<Key>, retirements: seq<Key>)
      returns (r: Result<(), ScopeError>)
      modifies this`entries
      ensures r.Ok? <==> Admissible(old(entries), protocolVersion, accepted, additions, retirements)
      ensures r.Err? ==> entries == old(entries)
                         && IsObjection(entries, protocolVersion, accepted, additions, retirements, r.error)
      ensures r.Ok? ==> entries == RescopeAll(old(entries), AcceptedKeys(accepted, additions, retirements))
    {
      var checked := CheckDelta(accepted, additions, retirements);
      if checked.Err? {
        return Err(checked.error);
      }
      Rescoping(checked.value, additions, retirements);
      return Ok(());
    }

    /** The loop that writes the scopes, after every check has passed. */
    method Rescoping(seed: set<Key>, additions: seq<Key>, retirements: seq<Key>)
      modifies this`entries
      ensures entries == RescopeAll(old(entries), seed - Elements(retirements) + Elements(additions))
    {
      ghost var before, accepted := entries, seed - Elements(retirements) + Elements(additions);
      var i := 0;
      while i < |entries|
        invariant 0 <= i <= |before| && entries == RescopeAll(before[..i], accepted) + before[i..]
      {
        var entry := entries[i];
        var key := KeyOf(entry);
        var scope := ExternalContract;
        if !((key in seed && key !in retirements) || key in additions) {
          scope := ScopeFor(entry.sourcePaths, entry.route, false);
        }
        RescopeOneMore(before, accepted, i);
        entries := entries[i := entry.(scope := scope)];
        i := i + 1;
      }
      assert before[..i] == before;
    }
  }

  // ----- What acceptance means -----

  /** Distinctness of keys, one entry at a time. */
  lemma KeysDistinctByHead(entries: seq<Entry>)
    requires entries != []
    ensures KeysDistinct(entries) <==> KeyOf(entries[0]) !in Keys(entries[1..]) && KeysDistinct(entries[1..])
  {
    DistinctByHead(entries, KeyOf);
    assert KeyOf(entries[0]) in Keys(entries[1..]) <==> exists e :: e in entries[1..] && KeyOf(e) == KeyOf(entries[0]);
  }

  lemma {:induction false} DistinctKeysCount(entries: seq<Entry>)
    ensures |Keys(entries)| <= |entries|
    ensures KeysDistinct(entries) <==> |Keys(entries)| == |entries|
  {
    if entries != [] {
      DistinctKeysCount(entries[1..]);
      KeysDistinctByHead(entries);
      assert entries == [entries[0]] + entries[1..];
      assert Keys(entries) == Keys(entries[1..]) + {KeyOf(entries[0])};
    }
  }

  /** The contract read back off a rescoped manifest names exactly the accepted keys. */
  lemma ContractNames(entries: seq<Entry>, protocol: nat, accepted: set<Key>)
    requires accepted <= CanonicalKeys(entries)
    ensures Keys(ContractOf(protocol, RescopeAll(entries, accepted)).entries) == accepted
  {
    var after := RescopeAll(entries, accepted);
    forall k | k in accepted
      ensures k in Keys(AcceptedEntries(after))
    {
      var e :| e in entries && e.canonical && KeyOf(e) == k;
      var i :| 0 <= i < |entries| && entries[i] == e;
      assert after[i] in after && IsAccepted(after[i]) && KeyOf(after[i]) == k;
    }
    forall k | k in Keys(AcceptedEntries(after))
      ensures k in accepted
    {
      var e :| e in AcceptedEntries(after) && KeyOf(e) == k;
      var i :| 0 <= i < |after| && after[i] == e;
      assert after[i] == Rescope(entries[i], accepted);
    }
  }

  lemma AdmissibleIsCanonical(entries: seq<Entry>, protocol: nat, seed: Contract,
                              additions: seq<Key>, retirements: seq<Key>)
    requires Admissible(entries, protocol, seed, additions, retirements)
    ensures AcceptedKeys(seed, additions, retirements) <= CanonicalKeys(entries)
  {
    forall k | k in additions
      ensures k in CanonicalKeys(entries)
    {
      DeferredByPosition(entries, k);
      FirstScopeIffCanonical(entries, k);
    }
  }

  /** The contract read back off the rescoped manifest accepts exactly the seed, less what was
      retired, plus what was added, and the number of keys adds up. */
  lemma AcceptanceIsExact(entries: seq<Entry>, protocol: nat, seed: Contract,
                          additions: seq<Key>, retirements: seq<Key>)
    requires Admissible(entries, protocol, seed, additions, retirements)
    ensures Keys(ContractOf(protocol, RescopeAll(entries, AcceptedKeys(seed, additions, retirements))).entries)
            == Keys(seed.entries) - Elements(retirements) + Elements(additions)
    ensures |Keys(seed.entries) - Elements(retirements) + Elements(additions)|
            == |seed.entries| - |Elements(retirements)| + |Elements(additions)|
  {
    AdmissibleIsCanonical(entries, protocol, seed, additions, retirements);
    ContractNames(entries, protocol, AcceptedKeys(seed, additions, retirements));
    DistinctKeysCount(seed.entries);
    assert Elements(retirements) <= Keys(seed.entries) && Elements(additions) !! Keys(seed.entries);
    assert |Keys(seed.entries) - Elements(retirements)| == |Keys(seed.entries)| - |Elements(retirements)|;
    assert (Keys(seed.entries) - Elements(retirements)) !! Elements(additions);
  }

  /** No two canonical entries of the manifest share an accepted key. */
  predicate AcceptedKeysUnshared(entries: seq<Entry>, accepted: set<Key>) {
    forall i, j :: 0 <= i < j < |entries| ==>
      entries[i].canonical && entries[j].canonical && KeyOf(entries[i]) in accepted ==>
        KeyOf(entries[i]) != KeyOf(entries[j])
  }

  lemma UnsharedByHead(entries: seq<Entry>, accepted: set<Key>)
    requires entries != []
    ensures AcceptedKeysUnshared(entries, accepted) <==>
              && (entries[0].canonical && KeyOf(entries[0]) in accepted ==>
                    KeyOf(entries[0]) !in CanonicalKeys(entries[1..]))
              && AcceptedKeysUnshared(entries[1..], accepted)
  {
    var rest := entries[1..];
    assert forall i :: 0 <= i < |rest| ==> rest[i] == entries[i + 1];
    if AcceptedKeysUnshared(entries, accepted) && entries[0].canonical && KeyOf(entries[0]) in accepted {
      forall e | e in rest && e.canonical
        ensures KeyOf(e) != KeyOf(entries[0])
      {
        var j :| 0 <= j < |rest| && rest[j] == e;
        assert entries[j + 1] == e;
      }
    }
    if && (entries[0].canonical && KeyOf(entries[0]) in accepted ==> KeyOf(entries[0]) !in CanonicalKeys(rest))
       && AcceptedKeysUnshared(rest, accepted)
    {
      forall i, j | && 0 <= i < j < |entries| && entries[i].canonical && entries[j].canonical
                    && KeyOf(entries[i]) in accepted
        ensures KeyOf(entries[i]) != KeyOf(entries[j])
      {
        assert entries[j] == rest[j - 1] && entries[j] in rest;
        assert i > 0 ==> entries[i] == rest[i - 1];
      }
    }
  }

  lemma AcceptedKeyIsCanonical(entries: seq<Entry>, accepted: set<Key>, k: Key)
    requires forall e :: e in entries ==> (e.scope == ExternalContract <==> KeyOf(e) in accepted)
    requires k in accepted
    ensures k in Keys(AcceptedEntries(entries)) <==> k in CanonicalKeys(entries)
  {
    if k in CanonicalKeys(entries) {
      var e :| e in entries && e.canonical && KeyOf(e) == k;
      assert e in AcceptedEntries(entries);
    }
  }

  lemma AcceptedByHead(entries: seq<Entry>)
    requires entries != []
    ensures KeysDistinct(AcceptedEntries(entries)) <==>
            && (IsAccepted(entries[0]) ==> KeyOf(entries[0]) !in Keys(AcceptedEntries(entries[1..])))
            && KeysDistinct(AcceptedEntries(entries[1..]))
  {
    if IsAccepted(entries[0]) {
      KeysDistinctByHead(AcceptedEntries(entries));
      assert AcceptedEntries(entries)[1..] == AcceptedEntries(entries[1..]);
    } else {
      assert AcceptedEntries(entries) == AcceptedEntries(entries[1..]);
    }
  }

  lemma {:induction false} UnsharedKeysAreDistinct(entries: seq<Entry>, accepted: set<Key>)
    requires forall e :: e in entries ==> (e.scope == ExternalContract <==> KeyOf(e) in accepted)
    ensures KeysDistinct(AcceptedEntries(entries)) <==> AcceptedKeysUnshared(entries, accepted)
  {
    if entries != [] {
      var rest := entries[1..];
      assert entries[0] in entries && forall e :: e in rest ==> e in entries;
      UnsharedKeysAreDistinct(rest, accepted);
      UnsharedByHead(entries, accepted);
      AcceptedByHead(entries);
      if IsAccepted(entries[0]) {
        AcceptedKeyIsCanonical(rest, accepted, KeyOf(entries[0]));
      }
    }
  }

  /** A rescoped manifest admits its own contract with no delta, unless a key repeats in it. */
  lemma OwnContractIsAdmissible(after: seq<Entry>, protocol: nat)
    ensures Admissible(after, protocol, ContractOf(protocol, after), [], []) <==> KeysDistinct(AcceptedEntries(after))
  {
    forall k | k in Keys(AcceptedEntries(after))
      ensures k in CanonicalKeys(after)
    {
      var e :| e in AcceptedEntries(after) && KeyOf(e) == k;
      assert e in after && e.canonical;
    }
  }

  lemma RescopingTwice(entries: seq<Entry>, accepted: set<Key>)
    ensures RescopeAll(RescopeAll(entries, accepted), accepted) == RescopeAll(entries, accepted)
    ensures AcceptedKeysUnshared(RescopeAll(entries, accepted), accepted) <==> AcceptedKeysUnshared(entries, accepted)
    ensures forall e :: e in RescopeAll(entries, accepted) ==> (e.scope == ExternalContract <==> KeyOf(e) in accepted)
  {
    var after := RescopeAll(entries, accepted);
    assert forall i :: 0 <= i < |entries| ==>
             KeyOf(after[i]) == KeyOf(entries[i]) && after[i].canonical == entries[i].canonical;
    assert RescopeAll(after, accepted) == after;
  }

  /** Feeding the produced contract back with no delta is accepted if and only if no two canonical
      entries share an accepted key. */
  lemma FeedBackIsAccepted(entries: seq<Entry>, protocol: nat, accepted: set<Key>)
    ensures var after := RescopeAll(entries, accepted);
            Admissible(after, protocol, ContractOf(protocol, after), [], [])
            <==> AcceptedKeysUnshared(entries, accepted)
  {
    var after := RescopeAll(entries, accepted);
    calc {
      Admissible(after, protocol, ContractOf(protocol, after), [], []);
    ==  { OwnContractIsAdmissible(after, protocol); }
      KeysDistinct(AcceptedEntries(after));
    ==  { RescopingTwice(entries, accepted); UnsharedKeysAreDistinct(after, accepted); }
      AcceptedKeysUnshared(after, accepted);
    ==  { RescopingTwice(entries, accepted); }
      AcceptedKeysUnshared(entries, accepted);
    }
  }

  /** And it changes nothing. The accepted keys of an admissible delta are canonical
      (`AdmissibleIsCanonical`). */
  lemma FeedBackChangesNothing(entries: seq<Entry>, protocol: nat, accepted: set<Key>)
    requires accepted <= CanonicalKeys(entries)
    ensures var after := RescopeAll(entries, accepted);
            RescopeAll(after, AcceptedKeys(ContractOf(protocol, after), [], [])) == after
  {
    var after := RescopeAll(entries, accepted);
    ContractNames(entries, protocol, accepted);
    assert AcceptedKeys(ContractOf(protocol, after), [], []) == accepted;
    RescopingTwice(entries, accepted);
  }

  /** Two implementations of one trait, say: canonical, deferred, and of one source identity. */
  function TwoOfOneKey(): seq<Entry> {
    [Entry("facade::a", InventoryWalk.TraitImpl, ["core::a"], ["1"], "value", true, Deferred),
     Entry("facade::b", InventoryWalk.TraitImpl, ["core::a"], ["2"], "value", true, Deferred)]
  }

  lemma OneKey(protocol: nat)
    ensures var key := Key("core::a", InventoryWalk.TraitImpl);
            && KeyOf(TwoOfOneKey()[0]) == key == KeyOf(TwoOfOneKey()[1])
            && IsDeferred(TwoOfOneKey(), key)
  {
    var entries, key := TwoOfOneKey(), Key("core::a", InventoryWalk.TraitImpl);
    assert entries[0].sourcePaths[0] == "core::a";
    assert "core::a"[0] != "echo_agent::testing::"[0] && "core::a"[0] != "echo_agent::acp::"[0];
    assert "value"[0] != "intrinsic:"[0];
    assert ScopeFor(["core::a"], "value", false) == Deferred;
    assert IsFirst(entries, key, 0);
  }

  lemma OneKeyIsAdmissible(entries: seq<Entry>, protocol: nat, key: Key)
    requires IsDeferred(entries, key)
    ensures Admissible(entries, protocol, Contract(1, protocol, []), [key], [])
  {
  }

  /** An input on which feeding back fails: accepting that one key is admissible, and the contract it
      produces is refused. */
  lemma SharedKeyIsRefused(protocol: nat)
    ensures var key := Key("core::a", InventoryWalk.TraitImpl);
            var after := RescopeAll(TwoOfOneKey(), {key});
            && Admissible(TwoOfOneKey(), protocol, Contract(1, protocol, []), [key], [])
            && !Admissible(after, protocol, ContractOf(protocol, after), [], [])
  {
    var key := Key("core::a", InventoryWalk.TraitImpl);
    OneKey(protocol);
    OneKeyIsAdmissible(TwoOfOneKey(), protocol, key);
    FeedBackIsAccepted(TwoOfOneKey(), protocol, {key});
    assert !AcceptedKeysUnshared(TwoOfOneKey(), {key}) by {
      SharedBy(TwoOfOneKey(), key);
    }
  }

  lemma SharedBy(entries: seq<Entry>, key: Key)
    requires |entries| == 2 && entries[0].canonical && entries[1].canonical
    requires KeyOf(entries[0]) == key == KeyOf(entries[1])
    ensures !AcceptedKeysUnshared(entries, {key})
  {
  }
}
