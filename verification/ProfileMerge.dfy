/**
 Merging the public items of several feature profiles into one inventory
 (echo-sdk-protocol/src/inventory.rs, `merge_profiles`).
 */
module ProfileMerge {
  import opened Prelude
  import InventoryWalk

  type ItemKind = InventoryWalk.ItemKind

  datatype PublicItem = PublicItem(
    path: string,
    kind: ItemKind,
    shape: string,
    digest: string,
    sourcePath: Option<string>,
    features: set<string>,
    derived: bool)

  datatype Signature = Signature(shape: string, profiles: set<string>)

  datatype InventoryEntry = InventoryEntry(
    path: string,
    kind: ItemKind,
    sourcePaths: set<string>,
    signatures: map<string, Signature>,
    profiles: set<string>,
    features: set<string>,
    derived: bool)

  /** One item of one profile. */
  datatype Occurrence = Occurrence(profile: string, item: PublicItem)

  function Flatten(perProfile: seq<(string, seq<PublicItem>)>): seq<Occurrence> {
    if perProfile == [] then []
    else
      var last := perProfile[|perProfile| - 1];
      Flatten(perProfile[..|perProfile| - 1]) + OccurrencesOf(last.0, last.1)
  }

  function OccurrencesOf(profile: string, items: seq<PublicItem>): (occurrences: seq<Occurrence>)
    ensures |occurrences| == |items|
    ensures forall i :: 0 <= i < |items| ==> occurrences[i] == Occurrence(profile, items[i])
  {
    seq(|items|, i requires 0 <= i < |items| => Occurrence(profile, items[i]))
  }

  // ----- What the merge means: the pointwise union -----

  /** The occurrences of one path, without order or multiplicity. */
  function AtPath(occurrences: seq<Occurrence>, path: string): set<Occurrence> {
    set o | o in occurrences && o.item.path == path
  }

  function Profiles(at: set<Occurrence>): set<string> {
    set o | o in at :: o.profile
  }

  function Sources(at: set<Occurrence>): set<string> {
    set o | o in at && o.item.sourcePath.Some? :: o.item.sourcePath.value
  }

  function Features(at: set<Occurrence>): set<string> {
    set o, f | o in at && f in o.item.features :: f
  }

  function WithDigest(at: set<Occurrence>, digest: string): set<Occurrence> {
    set o | o in at && o.item.digest == digest
  }

  /** The signatures that occur, each with the profiles it occurs in and a shape it occurs with. */
  ghost predicate SignaturesMerged(at: set<Occurrence>, signatures: map<string, Signature>) {
    && signatures.Keys == (set o | o in at :: o.item.digest)
    && (forall d :: d in signatures ==>
          && signatures[d].profiles == Profiles(WithDigest(at, d))
          && exists o :: o in WithDigest(at, d) && o.item.shape == signatures[d].shape)
  }

  /** The entry is the union of the occurrences of its path. */
  ghost predicate IsUnion(at: set<Occurrence>, path: string, e: InventoryEntry) {
    && e.path == path && at != {}
    && (forall o :: o in at ==> o.item.kind == e.kind)
    && e.sourcePaths == Sources(at) && e.profiles == Profiles(at) && e.features == Features(at)
    && (e.derived <==> forall o :: o in at ==> o.item.derived)
    && SignaturesMerged(at, e.signatures)
  }

  /** Exactly the paths that occur have an entry, and each entry is their union. */
  ghost predicate IsMerged(occurrences: seq<Occurrence>, merged: map<string, InventoryEntry>) {
    forall path :: IsMergedAt(AtPath(occurrences, path), merged, path)
  }

  ghost predicate IsMergedAt(at: set<Occurrence>, merged: map<string, InventoryEntry>, path: string) {
    if path in merged then IsUnion(at, path, merged[path]) else at == {}
  }

  /** The path occurs with two kinds. */
  ghost predicate KindsConflict(occurrences: seq<Occurrence>, path: string) {
    exists a, b :: a in AtPath(occurrences, path) && b in AtPath(occurrences, path) && a.item.kind != b.item.kind
  }

  /** A signature's digest tells its shape, as the hash of the shape does. */
  ghost predicate DigestsTellShapes(occurrences: seq<Occurrence>) {
    forall a, b :: a in occurrences && b in occurrences && a.item.digest == b.item.digest ==>
      a.item.shape == b.item.shape
  }

  // ----- One occurrence more -----

  function AddSignature(signatures: map<string, Signature>, o: Occurrence): map<string, Signature> {
    var found := if o.item.digest in signatures then signatures[o.item.digest] else Signature(o.item.shape, {});
    signatures[o.item.digest := found.(profiles := found.profiles + {o.profile})]
  }

  function NewEntry(o: Occurrence): InventoryEntry {
    InventoryEntry(o.item.path, o.item.kind, {}, map[], {}, {}, o.item.derived)
  }

  function AddTo(e: InventoryEntry, o: Occurrence): InventoryEntry {
    e.(derived := e.derived && o.item.derived,
       sourcePaths := if o.item.sourcePath.Some? then e.sourcePaths + {o.item.sourcePath.value} else e.sourcePaths,
       profiles := e.profiles + {o.profile},
       features := e.features + o.item.features,
       signatures := AddSignature(e.signatures, o))
  }

  lemma AddSignatureMerges(at: set<Occurrence>, signatures: map<string, Signature>, o: Occurrence)
    requires SignaturesMerged(at, signatures)
    ensures SignaturesMerged(at + {o}, AddSignature(signatures, o))
  {
    var after := AddSignature(signatures, o);
    forall d | d in after
      ensures after[d].profiles == Profiles(WithDigest(at + {o}, d))
      ensures exists w :: w in WithDigest(at + {o}, d) && w.item.shape == after[d].shape
    {
      if d in signatures {
        var w :| w in WithDigest(at, d) && w.item.shape == signatures[d].shape;
        assert w in WithDigest(at + {o}, d);
      } else {
        assert o in WithDigest(at + {o}, d);
        assert WithDigest(at, d) == {};
      }
      if d == o.item.digest {
        assert WithDigest(at + {o}, d) == WithDigest(at, d) + {o};
      } else {
        assert WithDigest(at + {o}, d) == WithDigest(at, d);
      }
    }
    assert after.Keys == signatures.Keys + {o.item.digest};
  }

  /** Adding an occurrence of the same kind extends the union by it. */
  lemma AddMerges(at: set<Occurrence>, path: string, e: InventoryEntry, o: Occurrence)
    requires o.item.path == path && o.item.kind == e.kind
    requires IsUnion(at, path, e) || (at == {} && e == NewEntry(o))
    ensures IsUnion(at + {o}, path, AddTo(e, o))
  {
    AddSignatureMerges(at, e.signatures, o);
  }

  lemma OneMoreAtPath(done: seq<Occurrence>, o: Occurrence, path: string)
    ensures AtPath(done + [o], path) == (if path == o.item.path then AtPath(done, path) + {o} else AtPath(done, path))
  {
  }

  lemma OneMoreMerges(done: seq<Occurrence>, merged: map<string, InventoryEntry>, entry: InventoryEntry, o: Occurrence)
    requires IsMerged(done, merged)
    requires entry == if o.item.path in merged then merged[o.item.path] else NewEntry(o)
    requires entry.kind == o.item.kind
    ensures IsMerged(done + [o], merged[o.item.path := AddTo(entry, o)])
  {
    var after := merged[o.item.path := AddTo(entry, o)];
    forall path
      ensures IsMergedAt(AtPath(done + [o], path), after, path)
    {
      assert IsMergedAt(AtPath(done, path), merged, path);
      OneMoreAtPath(done, o, path);
      if path == o.item.path {
        AddMerges(AtPath(done, path), path, entry, o);
      }
    }
  }

  lemma MergedHasNoConflict(occurrences: seq<Occurrence>, merged: map<string, InventoryEntry>, path: string)
    requires IsMerged(occurrences, merged)
    ensures !KindsConflict(occurrences, path)
  {
    assert path in merged ==> IsUnion(AtPath(occurrences, path), path, merged[path]);
  }

  /** `merge_profiles`: refuses exactly the inputs in which a path changes kind, naming such a path,
      and otherwise yields the pointwise union. */
  method MergeProfiles(perProfile: seq<(string, seq<PublicItem>)>)
    returns (r: Result<map<string, InventoryEntry>, string>)
    ensures r.Err? ==> KindsConflict(Flatten(perProfile), r.error)
    ensures r.Ok? ==> forall path :: !KindsConflict(Flatten(perProfile), path)
    ensures r.Ok? ==> IsMerged(Flatten(perProfile), r.value)
  {
    var merged: map<string, InventoryEntry> := map[];
    ghost var done: seq<Occurrence> := [];
    var i := 0;
    while i < |perProfile|
      invariant 0 <= i <= |perProfile|
      invariant done == Flatten(perProfile[..i]) && IsMerged(done, merged)
    {
      var profile, items := perProfile[i].0, perProfile[i].1;
      assert perProfile[..i + 1][..i] == perProfile[..i];
      ghost var before := done;
      var j := 0;
      while j < |items|
        invariant 0 <= j <= |items|
        invariant done == before + OccurrencesOf(profile, items[..j]) && IsMerged(done, merged)
      {
        ghost var o := Occurrence(profile, items[j]);
        assert OccurrencesOf(profile, items[..j + 1]) == OccurrencesOf(profile, items[..j]) + [o];
        var item := items[j];
        var entry := if item.path in merged then merged[item.path] else NewEntry(Occurrence(profile, item));
        if entry.kind != item.kind {
          ConflictHere(perProfile, i, j, done, entry);
          return Err(item.path);
        }
        OneMoreMerges(done, merged, entry, o);
        merged := merged[item.path := AddTo(entry, Occurrence(profile, item))];
        done := done + [o];
        j := j + 1;
      }
      assert items[..j] == items;
      assert done == before + OccurrencesOf(profile, items);
      i := i + 1;
    }
    assert perProfile[..i] == perProfile;
    forall path
      ensures !KindsConflict(done, path)
    {
      MergedHasNoConflict(done, merged, path);
    }
    return Ok(merged);
  }

  /** Merging does not depend on the order of profiles and items, nor on repetitions: the occurrences
      determine the merged entries, provided that digests tell shapes. */
  lemma MergeIgnoresOrder(a: seq<Occurrence>, b: seq<Occurrence>,
                          merged: map<string, InventoryEntry>, other: map<string, InventoryEntry>)
    requires forall o :: o in a <==> o in b
    requires IsMerged(a, merged) && IsMerged(b, other) && DigestsTellShapes(a)
    ensures merged == other
  {
    forall path
      ensures path in merged <==> path in other
      ensures path in merged ==> merged[path] == other[path]
    {
      assert AtPath(a, path) == AtPath(b, path);
      if path in merged {
        UnionIsUnique(AtPath(a, path), path, merged[path], other[path]);
      }
    }
  }

  lemma UnionIsUnique(at: set<Occurrence>, path: string, e: InventoryEntry, f: InventoryEntry)
    requires IsUnion(at, path, e) && IsUnion(at, path, f)
    requires forall a, b :: a in at && b in at && a.item.digest == b.item.digest ==> a.item.shape == b.item.shape
    ensures e == f
  {
    var o :| o in at;
    assert o.item.kind == e.kind == f.kind;
    forall d | d in e.signatures
      ensures e.signatures[d] == f.signatures[d]
    {
      var v :| v in WithDigest(at, d) && v.item.shape == e.signatures[d].shape;
      var w :| w in WithDigest(at, d) && w.item.shape == f.signatures[d].shape;
      assert v.item.digest == w.item.digest;
    }
    assert e.signatures.Keys == f.signatures.Keys;
    assert e.signatures == f.signatures;
  }

  lemma {:induction false} OccursInFlatten(perProfile: seq<(string, seq<PublicItem>)>, i: nat, o: Occurrence)
    requires i <= |perProfile|
    requires o in Flatten(perProfile[..i]) || (i < |perProfile| && o in OccurrencesOf(perProfile[i].0, perProfile[i].1))
    ensures o in Flatten(perProfile)
    decreases |perProfile| - i
  {
    if i == |perProfile| {
      assert perProfile[..i] == perProfile;
    } else {
      assert perProfile[..i + 1][..i] == perProfile[..i];
      OccursInFlatten(perProfile, i + 1, o);
    }
  }

  /** The item at hand and an earlier one of the same path have two kinds. */
  lemma ConflictHere(perProfile: seq<(string, seq<PublicItem>)>, i: nat, j: nat,
                     done: seq<Occurrence>, entry: InventoryEntry)
    requires i < |perProfile| && j < |perProfile[i].1|
    requires done == Flatten(perProfile[..i]) + OccurrencesOf(perProfile[i].0, perProfile[i].1[..j])
    requires IsUnion(AtPath(done, perProfile[i].1[j].path), perProfile[i].1[j].path, entry)
    requires entry.kind != perProfile[i].1[j].kind
    ensures KindsConflict(Flatten(perProfile), perProfile[i].1[j].path)
  {
    var profile, items := perProfile[i].0, perProfile[i].1;
    var o := Occurrence(profile, items[j]);
    var all := OccurrencesOf(profile, items);
    assert all[j] == o && o in all;
    var earlier :| earlier in AtPath(done, items[j].path);
    if earlier !in Flatten(perProfile[..i]) {
      var m :| 0 <= m < j && OccurrencesOf(profile, items[..j])[m] == earlier;
      assert all[m] == earlier && earlier in all;
    }
    OccursInFlatten(perProfile, i, o);
    OccursInFlatten(perProfile, i, earlier);
  }
}
