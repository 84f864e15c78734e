/**
 The first-launch install protocol of internal/app/first_launch_seed.go: two atomic name
 transitions (rename without replacing, swap) publish a staged data tree and its marker while
 a foreign writer may act between any two steps.
 */
module SeedInstall {
  import opened Ordering
  import opened Fingerprint
  import opened SeedTarget

  /** The names the protocol moves trees between: two in the target root, two in staging. */
  datatype Slot = TargetData | TargetMarker | StagedData | StagedMarker

  predicate InTarget(slot: Slot) { slot.TargetData? || slot.TargetMarker? }

  /** Which tree each name leads to. */
  datatype Names = Names(data: Option<Identity>, marker: Option<Identity>,
                         stagedData: Option<Identity>, stagedMarker: Option<Identity>)
  {
    function At(slot: Slot): Option<Identity>
    {
      match slot
      case TargetData => data
      case TargetMarker => marker
      case StagedData => stagedData
      case StagedMarker => stagedMarker
    }

    function With(slot: Slot, tree: Option<Identity>): Names
    {
      match slot
      case TargetData => this.(data := tree)
      case TargetMarker => this.(marker := tree)
      case StagedData => this.(stagedData := tree)
      case StagedMarker => this.(stagedMarker := tree)
    }

    function Renamed(source: Slot, destination: Slot): Names
    {
      With(source, None).With(destination, At(source))
    }

    function Swapped(left: Slot, right: Slot): Names
    {
      With(left, At(right)).With(right, At(left))
    }

    /** The trees under the two staged names. */
    function Staged(): set<Identity>
    {
      (if stagedData.Some? then {stagedData.value} else {}) + (if stagedMarker.Some? then {stagedMarker.value} else {})
    }

    /** The trees under the two target names. */
    function Shown(): set<Identity>
    {
      (if data.Some? then {data.value} else {}) + (if marker.Some? then {marker.value} else {})
    }
  }

  const UNUSED := Names(None, None, None, None)

  datatype Transition = Done | AlreadyExists | NotFound | SystemFailure

  datatype Failure = TargetChanged | SystemError | InvalidSeed

  /** The state at one moment of a run; `siblings` are the other entries of the target root. */
  datatype Moment = Moment(names: Names, trees: map<Identity, Node>, siblings: map<string, Node>)
  {
    /** The tree a name led to. */
    function At(slot: Slot): Option<Node>
    {
      if names.At(slot).Some? && names.At(slot).value in trees then Some(trees[names.At(slot).value]) else None
    }

    /** The tree under this name had this fingerprint. */
    ghost predicate Shows(slot: Slot, fingerprint: seq<Entry>)
    {
      At(slot).Some? && FingerprintOf(At(slot).value) == Some(fingerprint)
    }

    /** Each name in use leads to a tree, no two to the same one, and a tree knows its own identity. */
    predicate WellNamed()
    {
      && (forall s: Slot :: names.At(s).Some? ==> names.At(s).value in trees)
      && (forall s: Slot, t: Slot :: s != t && names.At(s).Some? ==> names.At(s) != names.At(t))
      && (forall id | id in trees :: trees[id].meta.id == id)
    }

    /** The staged name holds a tree that no target name has ever held. */
    predicate Private(slot: Slot, exposed: set<Identity>)
    {
      names.At(slot).Some? ==> names.At(slot).value !in exposed
    }

    /** The private tree under a staged name is the same, with the same contents, in a later moment. */
    predicate KeepsPrivate(slot: Slot, exposed: set<Identity>, later: Moment, exposed': set<Identity>)
    {
      names.At(slot).Some? && Private(slot, exposed) ==>
        later.Private(slot, exposed') && later.At(slot) == At(slot)
    }
  }

  /** Whatever a target name holds has been exposed, and no name leads to a deleted tree. */
  predicate Accounted(names: Names, exposed: set<Identity>, removed: set<Identity>)
  {
    && names.Shown() <= exposed
    && exposed !! removed
    && forall s: Slot :: names.At(s).Some? ==> names.At(s).value !in removed
  }

  /**
   Everything another process may do in one go: bind or clear the two target names in any way and rewrite
   any tree, except that it reaches trees only by target names or by descriptors opened through them. So
   staged names stay put, and a staged tree that was never exposed is neither rewritten nor exposed.
   */
  predicate ForeignAction(before: Moment, exposed: set<Identity>, removed: set<Identity>,
                          after: Moment, exposed': set<Identity>)
  {
    && after.WellNamed() && exposed <= exposed' <= after.trees.Keys && Accounted(after.names, exposed', removed)
    && before.trees.Keys <= after.trees.Keys && "data" !in after.siblings && MARKER !in after.siblings
    && after.names.stagedData == before.names.stagedData
    && after.names.stagedMarker == before.names.stagedMarker
    && before.KeepsPrivate(StagedData, exposed, after, exposed')
    && before.KeepsPrivate(StagedMarker, exposed, after, exposed')
  }

  /**
   The foreign writer is no straw man: between any two steps it may put any tree whatsoever under a target name, take
   both names away, and rewrite the other entries of the root.
   */
  lemma ForeignMayAct(before: Moment, exposed: set<Identity>, removed: set<Identity>, tree: Node,
                      siblings: map<string, Node>)
    requires before.WellNamed() && Accounted(before.names, exposed, removed) && exposed <= before.trees.Keys
    requires "data" !in siblings && MARKER !in siblings
    requires var id := tree.meta.id;
             && id !in removed && before.names.stagedData != Some(id) && before.names.stagedMarker != Some(id)
             && before.names.marker != Some(id)
    ensures var id := tree.meta.id;
            var after := Moment(before.names.(data := Some(id)), before.trees[id := tree], siblings);
            ForeignAction(before, exposed, removed, after, exposed + {tree.meta.id})
    ensures var after := Moment(before.names.(data := None, marker := None), before.trees, siblings);
            ForeignAction(before, exposed, removed, after, exposed)
  {
    hide ForeignAction;
    ForeignMayBind(before, exposed, removed, tree, siblings);
    ForeignMayClear(before, exposed, removed, siblings);
  }

  lemma ForeignMayBind(before: Moment, exposed: set<Identity>, removed: set<Identity>, tree: Node,
                       siblings: map<string, Node>)
    requires before.WellNamed() && Accounted(before.names, exposed, removed) && exposed <= before.trees.Keys
    requires "data" !in siblings && MARKER !in siblings
    requires var id := tree.meta.id;
             && id !in removed && before.names.stagedData != Some(id) && before.names.stagedMarker != Some(id)
             && before.names.marker != Some(id)
    ensures var id := tree.meta.id;
            var after := Moment(before.names.(data := Some(id)), before.trees[id := tree], siblings);
            ForeignAction(before, exposed, removed, after, exposed + {id})
  {
    var id := tree.meta.id;
    var bound := Moment(before.names.(data := Some(id)), before.trees[id := tree], siblings);
    forall s: Slot ensures bound.names.At(s) == if s == TargetData then Some(id) else before.names.At(s) {}
    assert before.names.At(StagedData) == before.names.stagedData;
    assert before.names.At(StagedMarker) == before.names.stagedMarker;
    assert before.names.At(TargetMarker) == before.names.marker;
  }

  lemma ForeignMayClear(before: Moment, exposed: set<Identity>, removed: set<Identity>, siblings: map<string, Node>)
    requires before.WellNamed() && Accounted(before.names, exposed, removed) && exposed <= before.trees.Keys
    requires "data" !in siblings && MARKER !in siblings
    ensures var after := Moment(before.names.(data := None, marker := None), before.trees, siblings);
            ForeignAction(before, exposed, removed, after, exposed)
  {
    var cleared := Moment(before.names.(data := None, marker := None), before.trees, siblings);
    forall s: Slot ensures cleared.names.At(s) == if InTarget(s) then None else before.names.At(s) {}
  }

  lemma SwappedAt(names: Names, left: Slot, right: Slot, s: Slot)
    ensures left != right ==>
      names.Swapped(left, right).At(s) == names.At(if s == left then right else if s == right then left else s)
  {
  }

  lemma SwapKeepsNamed(before: Moment, left: Slot, right: Slot)
    requires before.WellNamed() && left != right
    ensures before.(names := before.names.Swapped(left, right)).WellNamed()
  {
    var after := before.names.Swapped(left, right);
    forall s: Slot ensures after.At(s).Some? ==> after.At(s).value in before.trees {
      SwappedAt(before.names, left, right, s);
    }
    forall s: Slot, t: Slot | s != t && after.At(s).Some? ensures after.At(s) != after.At(t) {
      SwappedAt(before.names, left, right, s);
      SwappedAt(before.names, left, right, t);
    }
  }

  lemma SwapKeepsOrder(before: Moment, removed: set<Identity>, exposed: set<Identity>, left: Slot, right: Slot)
    requires before.WellNamed() && Accounted(before.names, exposed, removed) && left != right
    ensures var after := before.(names := before.names.Swapped(left, right));
      after.WellNamed() && Accounted(after.names, exposed + after.names.Shown(), removed)
  {
    SwapKeepsNamed(before, left, right);
    var after := before.names.Swapped(left, right);
    forall s: Slot ensures after.At(s).Some? ==> after.At(s).value !in removed {
      SwappedAt(before.names, left, right, s);
    }
    assert after.data == after.At(TargetData) && after.marker == after.At(TargetMarker);
  }

  lemma RenameKeepsOrder(before: Moment, removed: set<Identity>, exposed: set<Identity>, source: Slot,
                         destination: Slot)
    requires before.WellNamed() && Accounted(before.names, exposed, removed) && source != destination
    requires before.names.At(destination).None?
    ensures var after := before.(names := before.names.Renamed(source, destination));
      after.WellNamed() && Accounted(after.names, exposed + after.names.Shown(), removed)
  {
    SwapKeepsOrder(before, removed, exposed, source, destination);
    assert before.names.Renamed(source, destination) == before.names.Swapped(source, destination);
  }

  /** The entries of the target root. */
  function RootOf(now: Moment): map<string, Node>
  {
    now.siblings
    + (if now.At(TargetData).Some? then map["data" := now.At(TargetData).value] else map[])
    + (if now.At(TargetMarker).Some? then map[MARKER := now.At(TargetMarker).value] else map[])
  }

  /** The other entries of the root would pass the inspection of a published target. */
  predicate SiblingsPublished(now: Moment)
  {
    && "data" !in now.siblings && MARKER !in now.siblings
    && forall n | n in now.siblings :: PublishedEntry(n, now.siblings[n])
  }

  lemma PublishedRoot(now: Moment)
    requires SiblingsPublished(now)
    requires now.At(TargetData).Some? && now.At(TargetData).value.Directory?
    requires now.At(TargetMarker).Some? && now.At(TargetMarker).value.Directory?
    ensures PublishedState(RootOf(now)) == ExistingProfile
  {
    hide RuntimeFiles, LicenseFile;
  }

  /** The history remembers every tree a target name has led to. */
  predicate Recorded(log: seq<Moment>, exposed: set<Identity>)
  {
    forall i | 0 <= i < |log| :: log[i].names.Shown() <= exposed
  }

  /** A rename or a swap that was asked for. */
  datatype Attempt = Attempt(swap: bool, source: Slot, destination: Slot, done: bool)

  /** A transition that takes something back out of the target, or a swap, was refused. */
  predicate RefusedUndo(a: Attempt)
  {
    !a.done && (a.swap || (InTarget(a.source) && !InTarget(a.destination)))
  }

  predicate UndoRefused(attempts: seq<Attempt>, from: nat)
  {
    exists k | from <= k < |attempts| :: RefusedUndo(attempts[k])
  }

  /** No transition was made. */
  predicate NothingMoved(attempts: seq<Attempt>, from: nat)
  {
    forall k | from <= k < |attempts| :: !attempts[k].done
  }

  predicate Sound(now: Moment, exposed: set<Identity>, removed: set<Identity>, log: seq<Moment>)
  {
    && now.WellNamed() && Accounted(now.names, exposed, removed)
    && Recorded(log, exposed) && exposed <= now.trees.Keys
    && "data" !in now.siblings && MARKER !in now.siblings
  }

  lemma NoAction(now: Moment, exposed: set<Identity>, removed: set<Identity>, log: seq<Moment>)
    requires Sound(now, exposed, removed, log)
    ensures ForeignAction(now, exposed, removed, now, exposed)
  {
  }

  lemma ActionSound(before: Moment, exposed: set<Identity>, removed: set<Identity>, after: Moment,
                    exposed': set<Identity>, log: seq<Moment>)
    requires Sound(before, exposed, removed, log)
    requires ForeignAction(before, exposed, removed, after, exposed')
    ensures Sound(after, exposed', removed, log) && exposed <= exposed'
  {
    hide Accounted, Moment.WellNamed, Moment.KeepsPrivate;
  }

  lemma LogSound(now: Moment, exposed: set<Identity>, removed: set<Identity>, log: seq<Moment>)
    requires Sound(now, exposed, removed, log)
    ensures Sound(now, exposed, removed, log + [now])
  {
    hide Moment.WellNamed;
  }

  lemma RenameSound(now: Moment, exposed: set<Identity>, removed: set<Identity>, log: seq<Moment>, source: Slot,
                    destination: Slot)
    requires Sound(now, exposed, removed, log) && source != destination && now.names.At(destination).None?
    ensures var after := now.(names := now.names.Renamed(source, destination));
            Sound(after, exposed + after.names.Shown(), removed, log + [after])
  {
    RenameKeepsOrder(now, removed, exposed, source, destination);
    var after := now.(names := now.names.Renamed(source, destination));
    ShownExists(after);
    hide Accounted, Moment.WellNamed, Names.Renamed, Names.Shown;
  }

  lemma SwapSound(now: Moment, exposed: set<Identity>, removed: set<Identity>, log: seq<Moment>, left: Slot,
                  right: Slot)
    requires Sound(now, exposed, removed, log) && left != right
    ensures var after := now.(names := now.names.Swapped(left, right));
            Sound(after, exposed + after.names.Shown(), removed, log + [after])
  {
    SwapKeepsOrder(now, removed, exposed, left, right);
    var after := now.(names := now.names.Swapped(left, right));
    ShownExists(after);
    hide Accounted, Moment.WellNamed, Names.Swapped, Names.Shown;
  }

  lemma ShownExists(m: Moment)
    requires m.WellNamed()
    ensures m.names.Shown() <= m.trees.Keys
  {
    assert m.names.At(TargetData) == m.names.data && m.names.At(TargetMarker) == m.names.marker;
  }

  class Volume {
    /** System calls fail only for reasons that lie in the names themselves. */
    const reliable: bool
    var names: Names
    var trees: map<Identity, Node>
    /** The other entries of the target root. */
    var siblings: map<string, Node>

    // History: what has happened to trees and names so far. No step of the program reads it.

    /** Every tree that was ever reachable under a target name. */
    var exposed: set<Identity>
    /** Every tree this protocol has deleted. */
    var removed: set<Identity>
    /** The state after every step of the run, foreign or own; the last one is the present. */
    ghost var log: seq<Moment>
    /** A foreign writer has acted. */
    var disturbed: bool
    /** A foreign writer has taken a marker away. */
    var markerTaken: bool
    /** The name transitions asked for so far, and whether they were made. */
    ghost var attempts: seq<Attempt>

    function Now(): Moment reads this { Moment(names, trees, siblings) }

    /**
     The invariant of every run. Part of it is the safety property itself: every tree that a target name has led to
     at any moment of the log still exists, and none of them is among the deleted ones.
     */
    ghost predicate Valid()
      reads this
    {
      && Sound(Now(), exposed, removed, log)
      && log != [] && log[|log| - 1] == Now()
    }

    /** From the old state to this one the history only grew and nothing was deleted. */
    twostate predicate Continues()
      reads this
    {
      && old(log) <= log && old(exposed) <= exposed && removed == old(removed)
      && (old(disturbed) ==> disturbed)
      && (old(markerTaken) ==> markerTaken)
      && old(attempts) <= attempts
    }

    /** What staging holds has never been reachable from outside. */
    ghost predicate StagingPrivate()
      reads this
    {
      Now().Private(StagedData, exposed) && Now().Private(StagedMarker, exposed)
    }

    function Root(): map<string, Node>
      reads this
    {
      RootOf(Now())
    }

    /** Identities that are in use or have been. */
    function Taken(): set<Identity>
      reads this
    {
      trees.Keys + removed
    }

    /** Nothing has come from outside: no foreign action so far, and system calls do not fail by themselves. */
    predicate Calm()
      reads this
    {
      reliable && !disturbed
    }

    constructor (siblings: map<string, Node>, reliable: bool)
      requires "data" !in siblings && MARKER !in siblings
      ensures Valid() && names == UNUSED && this.siblings == siblings && removed == {} && this.reliable == reliable
      ensures !disturbed && !markerTaken && attempts == []
    {
      this.reliable := reliable;
      names, trees, this.siblings := UNUSED, map[], siblings;
      exposed, removed := {}, {};
      disturbed, markerTaken, attempts := false, false, [];
      log := [Moment(UNUSED, map[], siblings)];
    }

    /** An arbitrary foreign action, or none. */
    method Foreign()
      requires Valid()
      modifies this
      ensures Valid() && Continues() && attempts == old(attempts)
      ensures ForeignAction(old(Now()), old(exposed), removed, Now(), exposed)
      ensures !disturbed ==> Now() == old(Now())
      ensures !markerTaken && old(names).marker.Some? ==> names.marker.Some?
      ensures |log| == |old(log)| + 1
    {
      hide ForeignAction, Sound;
      var after: Moment, newExposed: set<Identity> := *, *;
      NoAction(Now(), exposed, removed, log);
      if ForeignAction(Now(), exposed, removed, after, newExposed) {
        ActionSound(Now(), exposed, removed, after, newExposed, log);
        disturbed := true;
        markerTaken := markerTaken || (names.marker.Some? && after.names.marker.None?);
        names, trees, siblings, exposed := after.names, after.trees, after.siblings, newExposed;
      }
      LogSound(Now(), exposed, removed, log);
      log := log + [Now()];
    }

    /** `renameFirstLaunchNoReplace`: atomic, and it may fail for reasons of its own. */
    method RenameNoReplace(source: Slot, destination: Slot) returns (outcome: Transition)
      requires Valid() && source != destination
      modifies this`names, this`exposed, this`log, this`attempts
      ensures Valid() && Continues()
      ensures attempts == old(attempts) + [Attempt(false, source, destination, outcome.Done?)]
      ensures outcome.Done? ==>
        && old(names).At(source).Some? && old(names).At(destination).None?
        && names == old(names).Renamed(source, destination) && exposed == old(exposed) + names.Shown()
      ensures !outcome.Done? ==> names == old(names) && exposed == old(exposed)
      ensures reliable ==>
        (outcome.Done? <==> old(names).At(source).Some? && old(names).At(destination).None?)
      ensures outcome.NotFound? ==> old(names).At(source).None?
      ensures outcome.AlreadyExists? ==> old(names).At(destination).Some?
      ensures outcome.SystemFailure? ==> !reliable
    {
      hide Sound, Names.Swapped, Names.Renamed, Names.Shown, Names.At;
      ghost var asked := attempts;
      attempts := asked + [Attempt(false, source, destination, false)];
      var fails: bool := *;
      if fails && !reliable { return SystemFailure; }
      if names.At(source).None? { return NotFound; }
      if names.At(destination).Some? { return AlreadyExists; }
      RenameSound(Now(), exposed, removed, log, source, destination);
      names := names.Renamed(source, destination);
      exposed := exposed + names.Shown();
      log := log + [Now()];
      attempts := asked + [Attempt(false, source, destination, true)];
      return Done;
    }

    /** `exchangeFirstLaunchPaths`. */
    method Exchange(left: Slot, right: Slot) returns (outcome: Transition)
      requires Valid() && left != right
      modifies this`names, this`exposed, this`log, this`attempts
      ensures Valid() && Continues()
      ensures attempts == old(attempts) + [Attempt(true, left, right, outcome.Done?)]
      ensures outcome.Done? ==>
        && old(names).At(left).Some? && old(names).At(right).Some?
        && names == old(names).Swapped(left, right) && exposed == old(exposed) + names.Shown()
      ensures !outcome.Done? ==> names == old(names) && exposed == old(exposed)
      ensures reliable ==> (outcome.Done? <==> old(names).At(left).Some? && old(names).At(right).Some?)
      ensures outcome.NotFound? ==> old(names).At(left).None? || old(names).At(right).None?
      ensures outcome.SystemFailure? ==> !reliable
      ensures !outcome.AlreadyExists?
    {
      hide Sound, Names.Swapped, Names.Renamed, Names.Shown, Names.At;
      ghost var asked := attempts;
      attempts := asked + [Attempt(true, left, right, false)];
      var fails: bool := *;
      if fails && !reliable { return SystemFailure; }
      if names.At(left).None? || names.At(right).None? { return NotFound; }
      SwapSound(Now(), exposed, removed, log, left, right);
      names := names.Swapped(left, right);
      exposed := exposed + names.Shown();
      log := log + [Now()];
      attempts := asked + [Attempt(true, left, right, true)];
      return Done;
    }
  }

  /** The fingerprint of the tree under a name, if there is one. */
  ghost function Fingerprinted(m: Moment, slot: Slot): Option<seq<Entry>>
  {
    if m.At(slot).None? then None else FingerprintOf(m.At(slot).value)
  }

  /** `fingerprintFirstLaunchTree` on a name: fails on a missing name, an unreadable or an unsuitable tree. */
  method ReadFingerprint(v: Volume, slot: Slot) returns (entries: Option<seq<Entry>>)
    ensures entries.Some? ==> v.Now().Shows(slot, entries.value)
    ensures v.reliable ==> entries == Fingerprinted(v.Now(), slot)
  {
    var fails: bool := *;
    if fails && !v.reliable { return None; }
    var found := v.Now().At(slot);
    if found.None? || !found.value.Directory? { return None; }
    var list, ok := AppendEntry(found.value, ".", []);
    if !ok { return None; }
    assert list == WalkChild(found.value, ".").value;
    return Some(list);
  }

  /** What `observeFirstLaunchSeedTarget` remembers of the data directory about to be displaced. */
  datatype Observation = NoData | Observed(id: Identity, fingerprint: seq<Entry>)

  /** The fingerprints of both staged trees, taken before anything is published. */
  datatype Published = Published(data: seq<Entry>, marker: seq<Entry>)

  /** `firstLaunchFingerprintMatches`, a foreign writer acting first. */
  method Look(v: Volume, slot: Slot, want: seq<Entry>) returns (same: bool, ghost at: nat)
    requires v.Valid()
    modifies v
    ensures v.Valid() && v.Continues() && v.attempts == old(v.attempts)
    ensures !v.disturbed ==> v.Now() == old(v.Now())
    ensures !v.markerTaken && old(v.names).marker.Some? ==> v.names.marker.Some?
    ensures v.names.stagedData == old(v.names).stagedData && v.names.stagedMarker == old(v.names).stagedMarker
    ensures same ==> |old(v.log)| <= at < |v.log| && v.log[at].Shows(slot, want)
    ensures v.Calm() ==> same == old(v.Now()).Shows(slot, want)
  {
    hide Sound, FingerprintOf;
    v.Foreign();
    at := |v.log| - 1;
    var got := ReadFingerprint(v, slot);
    same := got == Some(want);
  }

  /** Moments of a run at which a successful install made its checks. */
  datatype Trail = Trail(displaced: nat, emptied: nat, root: nat, data: nat, marker: nat)

  const NO_TRAIL := Trail(0, 0, 0, 0, 0)

  /**
   At the moments on the trail, one after the other: the root held data and marker and nothing unknown, the data had
   the staged fingerprint, and so had the marker.
   */
  ghost predicate Validated(log: seq<Moment>, from: nat, t: Trail, published: Published)
  {
    && from <= t.root <= t.data <= t.marker < |log|
    && PublishedState(RootOf(log[t.root])) == ExistingProfile
    && log[t.data].Shows(TargetData, published.data)
    && log[t.marker].Shows(TargetMarker, published.marker)
  }

  /** `validateFirstLaunchPublishedState`: three reads of the target, none of them atomic with another. */
  method ValidatePublished(v: Volume, published: Published)
    returns (err: Option<Failure>, ghost t: Trail)
    requires v.Valid()
    modifies v
    ensures v.reliable && err.Some? ==> err == Some(TargetChanged)
    ensures v.Valid() && v.Continues() && v.attempts == old(v.attempts)
    ensures !v.disturbed ==> v.names == old(v.names) && v.trees == old(v.trees)
    ensures !v.markerTaken && old(v.names).marker.Some? ==> v.names.marker.Some?
    ensures v.names.stagedData == old(v.names).stagedData && v.names.stagedMarker == old(v.names).stagedMarker
    ensures err.None? ==> Validated(v.log, |old(v.log)|, t, published)
    ensures v.Calm() && PublishedState(old(v.Root())) == ExistingProfile
            && old(v.Now()).Shows(TargetData, published.data) && old(v.Now()).Shows(TargetMarker, published.marker)
            ==> err.None?
  {
    hide PublishedState, Sound, FingerprintOf, RootOf, ForeignAction, Moment.Shows;
    t := NO_TRAIL;
    v.Foreign();
    t := t.(root := |v.log| - 1);
    KeptStaging(old(v.Now()), old(v.exposed), v.removed, v.Now(), v.exposed);
    var unreadable: bool := *;
    if unreadable && !v.reliable { return Some(TargetChanged), t; }
    var state := InspectPublished(Directory(Meta(0, 0, Identity(0, 0), 0), v.Root()));
    if state != ExistingProfile { return Some(TargetChanged), t; }
    var same; ghost var at;
    same, at := Look(v, TargetData, published.data);
    if !same { return Some(TargetChanged), t; }
    t := t.(data := at);
    same, at := Look(v, TargetMarker, published.marker);
    if !same { return Some(TargetChanged), t; }
    t := t.(marker := at);
    err := None;
  }

  lemma KeptStaging(before: Moment, exposed: set<Identity>, removed: set<Identity>, after: Moment,
                    exposed': set<Identity>)
    requires ForeignAction(before, exposed, removed, after, exposed')
    ensures after.names.stagedData == before.names.stagedData && after.names.stagedMarker == before.names.stagedMarker
  {
  }

  /** `classifyFirstLaunchAtomicTransitionError`. */
  function Classify(outcome: Transition): Failure
  {
    if outcome.SystemFailure? then SystemError else TargetChanged
  }

  /** Where the names end up when the data transition is taken back. */
  function DataUndone(names: Names, restorePristineData: bool): Names
  {
    if restorePristineData then names.Swapped(StagedData, TargetData) else names.Renamed(TargetData, StagedData)
  }

  /** The data transition can be taken back. */
  predicate Undoable(names: Names, restorePristineData: bool)
  {
    names.data.Some? && names.stagedData.Some? == restorePristineData
  }

  /** Take the published data back out of the target; a failure here is a failed rollback. */
  method UndoData(v: Volume, restorePristineData: bool)
    requires v.Valid()
    modifies v
    ensures v.Valid() && v.Continues()
    ensures !v.disturbed && !UndoRefused(v.attempts, |old(v.attempts)|) ==>
      v.names == DataUndone(old(v.names), restorePristineData) && v.trees == old(v.trees)
    ensures v.Calm() && Undoable(old(v.names), restorePristineData) ==> !UndoRefused(v.attempts, |old(v.attempts)|)
  {
    hide Sound, FingerprintOf, ForeignAction;
    v.Foreign();
    var outcome;
    if restorePristineData {
      outcome := v.Exchange(StagedData, TargetData);
    } else {
      outcome := v.RenameNoReplace(TargetData, StagedData);
    }
    assert !outcome.Done? ==> RefusedUndo(v.attempts[|v.attempts| - 1]);
  }

  /** `rollbackFirstLaunchPublishedState`: take the marker back, then the data. */
  method RollbackPublished(v: Volume, restorePristineData: bool)
    requires v.Valid()
    modifies v
    ensures v.Valid() && v.Continues()
    ensures !v.disturbed && !UndoRefused(v.attempts, |old(v.attempts)|) ==>
      && v.names == DataUndone(old(v.names).Renamed(TargetMarker, StagedMarker), restorePristineData)
      && v.trees == old(v.trees)
    ensures v.Calm() && Undoable(old(v.names), restorePristineData)
            && old(v.names).marker.Some? && old(v.names).stagedMarker.None?
            ==> !UndoRefused(v.attempts, |old(v.attempts)|)
  {
    hide Sound, FingerprintOf, ForeignAction;
    v.Foreign();
    var outcome := v.RenameNoReplace(TargetMarker, StagedMarker);
    ghost var first := |v.attempts| - 1;
    assert !outcome.Done? ==> RefusedUndo(v.attempts[first]);
    UndoData(v, restorePristineData);
    assert !outcome.Done? ==> RefusedUndo(v.attempts[first]);
  }

  /** The named data and the staged marker are what is to be published, and nothing else is in the way. */
  ghost predicate Ready(m: Moment, slot: Slot, published: Published)
  {
    && m.Shows(slot, published.data) && m.Shows(StagedMarker, published.marker)
    && m.names.marker.None? && SiblingsPublished(m)
  }

  lemma ReadyBound(m: Moment, slot: Slot, published: Published)
    requires Ready(m, slot, published)
    ensures m.names.stagedMarker.Some? && m.names.marker.None? && m.names.At(slot).Some?
  {
  }

  lemma ReadyPublished(m: Moment, after: Moment, published: Published)
    requires Ready(m, TargetData, published)
    requires after == m.(names := m.names.Renamed(StagedMarker, TargetMarker))
    ensures after.Shows(TargetData, published.data) && after.Shows(TargetMarker, published.marker)
    ensures PublishedState(RootOf(after)) == ExistingProfile
  {
    PublishedRoot(after);
  }

  /** Validate what has been published, or take it back. */
  method ValidateOrUndo(v: Volume, published: Published, restorePristineData: bool)
    returns (err: Option<Failure>, ghost t: Trail)
    requires v.Valid()
    modifies v
    ensures v.reliable && err.Some? ==> err == Some(TargetChanged)
    ensures v.Valid() && v.Continues()
    ensures err.None? ==> Validated(v.log, |old(v.log)|, t, published)
    ensures err.None? && !v.markerTaken && old(v.names).marker.Some? ==> v.names.marker.Some?
    ensures err.None? ==>
      v.names.stagedData == old(v.names).stagedData && v.names.stagedMarker == old(v.names).stagedMarker
    ensures err.None? && !v.disturbed ==> v.names == old(v.names) && v.trees == old(v.trees)
    ensures err.Some? && !v.disturbed && !UndoRefused(v.attempts, |old(v.attempts)|) ==>
      && v.names == DataUndone(old(v.names).Renamed(TargetMarker, StagedMarker), restorePristineData)
      && v.trees == old(v.trees)
    ensures v.Calm() && Undoable(old(v.names), restorePristineData)
            && old(v.names).marker.Some? && old(v.names).stagedMarker.None?
            ==> !UndoRefused(v.attempts, |old(v.attempts)|)
    ensures v.Calm() && PublishedState(old(v.Root())) == ExistingProfile
            && old(v.Now()).Shows(TargetData, published.data) && old(v.Now()).Shows(TargetMarker, published.marker)
            ==> err.None?
  {
    hide Sound, FingerprintOf, PublishedState, RootOf, Moment.Shows, ForeignAction, DataUndone, Undoable,
      Names.Renamed;
    err, t := ValidatePublished(v, published);
    if err.Some? { RollbackPublished(v, restorePristineData); }
  }

  /** The second half of both installs: publish the marker, validate, or undo everything. */
  method PublishMarker(v: Volume, published: Published, restorePristineData: bool)
    returns (err: Option<Failure>, ghost t: Trail)
    requires v.Valid()
    modifies v
    ensures v.reliable && err.Some? ==> err == Some(TargetChanged)
    ensures v.Valid() && v.Continues()
    ensures err.None? ==> Validated(v.log, |old(v.log)|, t, published)
    ensures err.None? && !v.markerTaken ==> v.names.marker.Some?
    ensures err.None? ==> v.names.stagedData == old(v.names).stagedData && v.names.stagedMarker.None?
    ensures err.None? && !v.disturbed ==>
      && old(v.names).stagedMarker.Some? && v.trees == old(v.trees)
      && v.names == old(v.names).Renamed(StagedMarker, TargetMarker)
    ensures err.Some? && !v.disturbed && !UndoRefused(v.attempts, |old(v.attempts)|) ==>
      && v.names == DataUndone(old(v.names), restorePristineData) && v.trees == old(v.trees)
    ensures v.Calm() && Undoable(old(v.names), restorePristineData) ==>
      && !UndoRefused(v.attempts, |old(v.attempts)|)
      && (Ready(old(v.Now()), TargetData, published) ==> err.None?)
  {
    hide Sound, FingerprintOf, PublishedState, RootOf, Ready, Moment.Shows, ForeignAction, DataUndone, Moment.At;
    t := NO_TRAIL;
    v.Foreign();
    KeptStaging(old(v.Now()), old(v.exposed), v.removed, v.Now(), v.exposed);
    ghost var before, start := v.names, v.Now();
    if Ready(start, TargetData, published) { ReadyBound(start, TargetData, published); }
    var outcome := v.RenameNoReplace(StagedMarker, TargetMarker);
    if Ready(start, TargetData, published) && outcome.Done? {
      ReadyPublished(start, v.Now(), published);
    }
    if outcome.Done? {
      assert before.Renamed(StagedMarker, TargetMarker).Renamed(TargetMarker, StagedMarker) == before;
      err, t := ValidateOrUndo(v, published, restorePristineData);
    } else {
      err := Some(Classify(outcome));
      UndoData(v, restorePristineData);
    }
  }

  /**
   The install passed validation, and before that a displaced tree was the observed one and then passed the test for
   holding nothing of value.
   */
  ghost predicate Checked(log: seq<Moment>, t: Trail, observation: Observation, published: Published, probe: Probe)
  {
    && Validated(log, 0, t, published)
    && (observation.Observed? ==> t.displaced < t.emptied < t.root && Displaced(log, t, observation, probe))
  }

  ghost predicate Displaced(log: seq<Moment>, t: Trail, observation: Observation, probe: Probe)
    requires t.displaced < |log| && t.emptied < |log| && observation.Observed?
  {
    && log[t.displaced].names.stagedData == Some(observation.id)
    && log[t.displaced].Shows(StagedData, observation.fingerprint)
    && log[t.emptied].At(StagedData).Some? && log[t.emptied].At(StagedData).value.Directory?
    && DataReplaceable(log[t.emptied].At(StagedData).value.children, probe)
  }

  /** Both target names lead where they led, to the same contents. */
  predicate TargetsAsBefore(before: Moment, after: Moment)
  {
    after.names.data == before.names.data && after.names.marker == before.names.marker && after.trees == before.trees
  }

  /** The target names lead to the two trees that were staged. */
  predicate TargetsInstalled(before: Moment, after: Moment)
  {
    && before.names.stagedData.Some? && before.names.stagedMarker.Some?
    && after.names.data == before.names.stagedData && after.names.marker == before.names.stagedMarker
    && after.trees == before.trees
  }

  /** The name leads to the observed tree, unchanged. */
  ghost predicate Holds(m: Moment, slot: Slot, observation: Observation)
    requires observation.Observed?
  {
    m.names.At(slot) == Some(observation.id) && m.Shows(slot, observation.fingerprint)
  }

  /** The name leads to a directory that may be displaced. */
  ghost predicate HoldsNothing(m: Moment, slot: Slot, probe: Probe)
  {
    m.At(slot).Some? && m.At(slot).value.Directory? && DataReplaceable(m.At(slot).value.children, probe)
  }

  /** Look at the displaced tree twice: it must be the observed one, and then hold nothing of value. */
  method InspectDisplaced(v: Volume, observation: Observation, probe: Probe)
    returns (matches: bool, ghost t: Trail)
    requires v.Valid() && observation.Observed?
    modifies v
    ensures v.Valid() && v.Continues() && v.attempts == old(v.attempts)
    ensures !v.disturbed ==> v.Now() == old(v.Now())
    ensures matches ==> t.displaced < t.emptied < |v.log| && Displaced(v.log, t, observation, probe)
    ensures v.Calm() && Holds(old(v.Now()), StagedData, observation) ==>
      matches == HoldsNothing(old(v.Now()), StagedData, probe)
  {
    hide Sound, FingerprintOf, DataReplaceable;
    v.Foreign();
    t := Trail(|v.log| - 1, |v.log|, 0, 0, 0);
    var got := ReadFingerprint(v, StagedData);
    if v.names.stagedData != Some(observation.id) || got != Some(observation.fingerprint) { return false, t; }
    v.Foreign();
    var unreadable: bool := *;
    var found := v.Now().At(StagedData);
    if (unreadable && !v.reliable) || found.None? || !found.value.Directory? { return false, t; }
    matches := IsDataReplaceable(found.value, probe);
  }

  lemma SwapReady(m: Moment, published: Published, observation: Observation, probe: Probe)
    requires observation.Observed? && Ready(m, StagedData, published) && Holds(m, TargetData, observation)
    ensures m.names.stagedData.Some? && m.names.data.Some?
    ensures var after := m.(names := m.names.Swapped(StagedData, TargetData));
      && Ready(after, TargetData, published) && Holds(after, StagedData, observation)
      && HoldsNothing(after, StagedData, probe) == HoldsNothing(m, TargetData, probe)
  {
    hide FingerprintOf, DataReplaceable;
  }

  /** `installFirstLaunchSeedOverPristineData`: swap, look at what was displaced, publish the marker. */
  method InstallOverPristine(v: Volume, observation: Observation, published: Published, probe: Probe)
    returns (preserve: bool, err: Option<Failure>, ghost t: Trail)
    requires v.Valid() && v.StagingPrivate() && observation.Observed?
    modifies v
    ensures v.reliable && err.Some? ==> err == Some(TargetChanged)
    ensures v.Valid() && v.Continues()
    ensures !preserve ==> v.StagingPrivate()
    ensures |v.attempts| > |old(v.attempts)| && preserve == v.attempts[|old(v.attempts)|].done
    ensures !preserve && !v.disturbed ==> v.Now() == old(v.Now())
    ensures err.None? ==> Checked(v.log, t, observation, published, probe)
    ensures err.None? ==> |old(v.log)| <= t.root
    ensures err.None? && !v.markerTaken ==> v.names.marker.Some?
    ensures err.None? && !v.disturbed ==> TargetsInstalled(old(v.Now()), v.Now())
    ensures err.Some? && !v.disturbed && !UndoRefused(v.attempts, |old(v.attempts)| + 1) ==>
      TargetsAsBefore(old(v.Now()), v.Now())
    ensures v.Calm() ==> !UndoRefused(v.attempts, |old(v.attempts)| + 1)
    ensures v.Calm() && Ready(old(v.Now()), StagedData, published)
            && Holds(old(v.Now()), TargetData, observation)
            ==> (err.None? <==> HoldsNothing(old(v.Now()), TargetData, probe))
  {
    hide Sound, FingerprintOf, DataReplaceable, Moment.Shows, Ready, Holds, HoldsNothing, ForeignAction, Checked;
    t := NO_TRAIL;
    ghost var start := v.Now();
    if Ready(start, StagedData, published) && Holds(start, TargetData, observation) {
      SwapReady(start, published, observation, probe);
    }
    var outcome := v.Exchange(StagedData, TargetData);
    if !outcome.Done? { return false, Some(Classify(outcome)), t; }
    assert v.names.Swapped(StagedData, TargetData) == old(v.names);
    err, t := ProveAndPublish(v, observation, published, probe);
    preserve := true;
  }

  /** What follows the swap: look at what was displaced and publish the marker, or swap back. */
  method ProveAndPublish(v: Volume, observation: Observation, published: Published, probe: Probe)
    returns (err: Option<Failure>, ghost t: Trail)
    requires v.Valid() && observation.Observed?
    modifies v
    ensures v.reliable && err.Some? ==> err == Some(TargetChanged)
    ensures v.Valid() && v.Continues()
    ensures err.None? ==> Checked(v.log, t, observation, published, probe) && |old(v.log)| <= t.root
    ensures err.None? && !v.markerTaken ==> v.names.marker.Some?
    ensures err.None? && !v.disturbed ==>
      && old(v.names).stagedMarker.Some? && v.trees == old(v.trees)
      && v.names == old(v.names).Renamed(StagedMarker, TargetMarker)
    ensures err.Some? && !v.disturbed && !UndoRefused(v.attempts, |old(v.attempts)|) ==>
      v.names == old(v.names).Swapped(StagedData, TargetData) && v.trees == old(v.trees)
    ensures v.Calm() && Undoable(old(v.names), true) ==>
      && !UndoRefused(v.attempts, |old(v.attempts)|)
      && (Ready(old(v.Now()), TargetData, published) && Holds(old(v.Now()), StagedData, observation)
          ==> (err.None? <==> HoldsNothing(old(v.Now()), StagedData, probe)))
  {
    hide Sound, FingerprintOf, DataReplaceable, Moment.Shows, Ready, Holds, HoldsNothing, ForeignAction;
    var matches;
    matches, t := InspectDisplaced(v, observation, probe);
    if !matches {
      UndoData(v, true);
      return Some(TargetChanged), t;
    }
    ghost var later;
    err, later := PublishMarker(v, published, true);
    t := later.(displaced := t.displaced, emptied := t.emptied);
  }

  lemma RenameReady(m: Moment, published: Published)
    requires Ready(m, StagedData, published)
    ensures m.names.stagedData.Some?
    ensures Ready(m.(names := m.names.Renamed(StagedData, TargetData)), TargetData, published)
  {
    hide FingerprintOf;
  }

  /** The new-data path of `installFirstLaunchSeedData` with `publishFirstLaunchMarkerAfterNewData`. */
  method InstallNewData(v: Volume, published: Published)
    returns (preserve: bool, err: Option<Failure>, ghost t: Trail)
    requires v.Valid() && v.StagingPrivate()
    modifies v
    ensures v.reliable && err.Some? ==> err == Some(TargetChanged)
    ensures v.Valid() && v.Continues()
    ensures !preserve ==> v.StagingPrivate()
    ensures |v.attempts| > |old(v.attempts)| && preserve == (v.attempts[|old(v.attempts)|].done && err.Some?)
    ensures !v.attempts[|old(v.attempts)|].done && !v.disturbed ==> v.Now() == old(v.Now())
    ensures forall probe :: err.None? ==> Checked(v.log, t, NoData, published, probe)
    ensures err.None? ==> |old(v.log)| <= t.root
    ensures err.None? && !v.markerTaken ==> v.names.marker.Some?
    ensures err.None? && !v.disturbed ==> TargetsInstalled(old(v.Now()), v.Now())
    ensures err.Some? && !v.disturbed && !UndoRefused(v.attempts, |old(v.attempts)| + 1) ==>
      TargetsAsBefore(old(v.Now()), v.Now())
    ensures v.Calm() ==> !UndoRefused(v.attempts, |old(v.attempts)| + 1)
    ensures v.Calm() && Ready(old(v.Now()), StagedData, published) && old(v.names).data.None?
            ==> err.None?
  {
    hide Sound, FingerprintOf, Moment.Shows, Ready;
    ghost var start := v.Now();
    if Ready(start, StagedData, published) { RenameReady(start, published); }
    t := NO_TRAIL;
    var outcome := v.RenameNoReplace(StagedData, TargetData);
    if !outcome.Done? { return false, Some(Classify(outcome)), t; }
    assert v.names.Renamed(TargetData, StagedData) == old(v.names);
    err, t := PublishMarker(v, published, false);
    preserve := err.Some?;
  }

  ghost predicate StagedReadable(m: Moment)
  {
    Fingerprinted(m, StagedData).Some? && Fingerprinted(m, StagedMarker).Some?
  }

  /** The observation describes what the target data is. */
  ghost predicate Describes(m: Moment, observation: Observation)
  {
    if observation.Observed? then Holds(m, TargetData, observation) else m.names.data.None?
  }

  /** Staging holds the same trees with the same contents. */
  predicate StagingKept(before: Moment, after: Moment)
  {
    && after.names.stagedData == before.names.stagedData && after.At(StagedData) == before.At(StagedData)
    && after.names.stagedMarker == before.names.stagedMarker && after.At(StagedMarker) == before.At(StagedMarker)
  }

  /** A foreign action while the seed lies in staging: it cannot touch what is there. */
  method LetOthersAct(v: Volume)
    requires v.Valid() && v.StagingPrivate()
    modifies v
    ensures v.Valid() && v.Continues() && v.StagingPrivate() && v.attempts == old(v.attempts)
    ensures !v.disturbed ==> v.Now() == old(v.Now())
    ensures StagingKept(old(v.Now()), v.Now())
  {
    hide Sound;
    v.Foreign();
  }

  /** `observeFirstLaunchPublishedState`: fingerprint both staged trees while they are still private. */
  method ObservePublished(v: Volume) returns (published: Option<Published>)
    requires v.Valid() && v.StagingPrivate()
    modifies v
    ensures v.Valid() && v.Continues() && v.StagingPrivate() && v.attempts == old(v.attempts)
    ensures StagingKept(old(v.Now()), v.Now())
    ensures !v.disturbed ==> v.Now() == old(v.Now())
    ensures published.Some? ==>
      && old(v.Now()).Shows(StagedData, published.value.data)
      && old(v.Now()).Shows(StagedMarker, published.value.marker)
    ensures v.Calm() ==> (published.Some? <==> StagedReadable(old(v.Now())))
  {
    hide Sound, FingerprintOf, ForeignAction, Moment.Private;
    var data := ReadFingerprint(v, StagedData);
    if data.None? { return None; }
    LetOthersAct(v);
    var marker := ReadFingerprint(v, StagedMarker);
    if marker.None? { return None; }
    LetOthersAct(v);
    return Some(Published(data.value, marker.value));
  }

  /** `installFirstLaunchSeedData`. `preserve` tells the caller to keep staging as quarantine. */
  method Install(v: Volume, observation: Observation, probe: Probe)
    returns (preserve: bool, err: Option<Failure>, ghost t: Trail, ghost seed: Published)
    requires v.Valid() && v.StagingPrivate()
    modifies v
    ensures v.reliable && err.Some? ==> err == Some(TargetChanged)
    ensures v.Valid() && v.Continues()
    ensures !preserve ==> v.StagingPrivate()
    ensures preserve <==>
      && |v.attempts| > |old(v.attempts)| && v.attempts[|old(v.attempts)|].done
      && (observation.Observed? || err.Some?)
    ensures !v.disturbed && NothingMoved(v.attempts, |old(v.attempts)|) ==> v.Now() == old(v.Now())
    ensures err.None? ==>
      && old(v.Now()).Shows(StagedData, seed.data) && old(v.Now()).Shows(StagedMarker, seed.marker)
      && Checked(v.log, t, observation, seed, probe) && |old(v.log)| <= t.root
    ensures err.None? && !v.markerTaken ==> v.names.marker.Some?
    ensures err.None? && !v.disturbed ==> TargetsInstalled(old(v.Now()), v.Now())
    ensures err.Some? && !v.disturbed && !UndoRefused(v.attempts, |old(v.attempts)| + 1) ==>
      TargetsAsBefore(old(v.Now()), v.Now())
    ensures v.Calm() ==> !UndoRefused(v.attempts, |old(v.attempts)| + 1)
    ensures v.Calm() && err.None? ==> StagedReadable(old(v.Now()))
    ensures v.Calm() && StagedReadable(old(v.Now())) && Describes(old(v.Now()), observation)
            && old(v.names).marker.None? && SiblingsPublished(old(v.Now()))
            ==> (err.None? <==> (observation.Observed? ==> HoldsNothing(old(v.Now()), TargetData, probe)))
  {
    hide Sound, FingerprintOf, DataReplaceable, SiblingsPublished, Checked, HoldsNothing, StagedReadable;
    t, seed := NO_TRAIL, Published([], []);
    var published := ObservePublished(v);
    if published.None? { return false, Some(TargetChanged), t, seed; }
    seed := published.value;
    if observation.Observed? {
      preserve, err, t := InstallOverPristine(v, observation, published.value, probe);
    } else {
      preserve, err, t := InstallNewData(v, published.value);
    }
  }

  /** There is no target data, or it can be fingerprinted. */
  ghost predicate DataReadable(m: Moment)
  {
    m.At(TargetData).None? || Fingerprinted(m, TargetData).Some?
  }

  lemma NamedTree(m: Moment, slot: Slot, exposed: set<Identity>, removed: set<Identity>, log: seq<Moment>)
    requires Sound(m, exposed, removed, log)
    ensures m.At(slot).None? <==> m.names.At(slot).None?
    ensures m.At(slot).Some? ==> m.names.At(slot) == Some(m.At(slot).value.meta.id)
  {
  }

  /** `observeFirstLaunchSeedTarget`: the target must still require a seed; remember its data directory. */
  method Observe(v: Volume, probe: Probe) returns (err: Option<Failure>, observation: Observation, ghost seen: nat)
    requires v.Valid() && v.StagingPrivate()
    modifies v
    ensures v.reliable && err.Some? ==> err == Some(TargetChanged)
    ensures v.Valid() && v.Continues() && v.StagingPrivate() && v.attempts == old(v.attempts)
    ensures !v.disturbed ==> v.Now() == old(v.Now())
    ensures StagingKept(old(v.Now()), v.Now())
    ensures seen < |v.log|
    ensures err.None? && observation.Observed? ==> v.log[seen].Shows(TargetData, observation.fingerprint)
    ensures v.Calm() ==>
      (err.None? <==> RootState(old(v.Root()), false, probe) == RequiresSeed && DataReadable(old(v.Now())))
    ensures v.Calm() && err.None? ==> Describes(old(v.Now()), observation)
  {
    hide Sound, FingerprintOf, RootState, RootOf, Describes, DataReadable;
    var state := InspectRoot(v, probe);
    if state != Some(RequiresSeed) { return Some(TargetChanged), NoData, |v.log| - 1; }
    v.Foreign();
    err, observation, seen := ObserveData(v);
  }

  method ObserveData(v: Volume) returns (err: Option<Failure>, observation: Observation, ghost seen: nat)
    requires v.Valid() && v.StagingPrivate()
    modifies v
    ensures v.reliable && err.Some? ==> err == Some(TargetChanged)
    ensures v.Valid() && v.Continues() && v.StagingPrivate() && v.attempts == old(v.attempts)
    ensures !v.disturbed ==> v.Now() == old(v.Now())
    ensures StagingKept(old(v.Now()), v.Now())
    ensures seen < |v.log|
    ensures err.None? && observation.Observed? ==> v.log[seen].Shows(TargetData, observation.fingerprint)
    ensures v.Calm() ==> (err.None? <==> DataReadable(old(v.Now())))
    ensures v.Calm() && err.None? ==> Describes(old(v.Now()), observation)
  {
    seen := |v.log| - 1;
    NamedTree(v.Now(), TargetData, v.exposed, v.removed, v.log);
    hide Sound, FingerprintOf, ForeignAction, Moment.Private;
    var found := v.Now().At(TargetData);
    if found.None? { return None, NoData, seen; }
    if !found.value.Directory? { return Some(TargetChanged), NoData, seen; }
    LetOthersAct(v);
    seen := |v.log| - 1;
    var fingerprint := ReadFingerprint(v, TargetData);
    if fingerprint.None? { return Some(TargetChanged), NoData, seen; }
    LetOthersAct(v);
    return None, Observed(found.value.meta.id, fingerprint.value), seen;
  }

  /** `InspectFirstLaunchSeedTarget` on the present target root; None is a read error. */
  method InspectRoot(v: Volume, probe: Probe) returns (state: Option<TargetState>)
    requires v.Valid()
    ensures state.Some? ==> state.value == RootState(v.Root(), false, probe)
    ensures v.names.marker.Some? ==> state != Some(RequiresSeed)
    ensures v.reliable ==> state.Some?
  {
    var fails: bool := *;
    if fails && !v.reliable { return None; }
    var root := Directory(Meta(0, 0, Identity(0, 0), 0), v.Root());
    var verdict := InspectTarget(Some(root), false, probe);
    if v.names.marker.Some? { MarkerEndsSeeding(v.Root(), false, probe); }
    return Some(verdict);
  }

  /** What unpacking the bundle yields, with the identities the file system gives the two trees. */
  datatype Bundle = Bundle(data: Node, marker: Node)

  /** Both trees can be fingerprinted, and nobody has seen their identities. */
  ghost predicate Usable(bundle: Bundle, taken: set<Identity>)
  {
    && FingerprintOf(bundle.data).Some? && FingerprintOf(bundle.marker).Some?
    && UnseenIn(bundle, taken)
  }

  predicate UnseenIn(bundle: Bundle, taken: set<Identity>)
  {
    && bundle.data.meta.id != bundle.marker.meta.id
    && bundle.data.meta.id !in taken && bundle.marker.meta.id !in taken
  }

  /** Unpack the bundle into a fresh staging directory: two new trees nobody else has seen. Or fail. */
  method Stage(v: Volume, bundle: Bundle) returns (ok: bool)
    requires v.Valid() && v.names.stagedData.None? && v.names.stagedMarker.None?
    modifies v
    ensures v.Valid() && v.Continues() && v.attempts == old(v.attempts) && v.disturbed == old(v.disturbed)
    ensures v.names.data == old(v.names).data && v.names.marker == old(v.names).marker
    ensures v.markerTaken == old(v.markerTaken) && v.siblings == old(v.siblings)
    ensures v.Now().At(TargetData) == old(v.Now()).At(TargetData)
    ensures v.Now().At(TargetMarker) == old(v.Now()).At(TargetMarker)
    ensures v.StagingPrivate()
    ensures if ok
            then v.Now().At(StagedData) == Some(bundle.data) && v.Now().At(StagedMarker) == Some(bundle.marker)
            else v.names == old(v.names)
    ensures v.trees - v.names.Staged() == old(v.trees)
    ensures v.reliable ==> (ok <==> UnseenIn(bundle, old(v.Taken())))
  {
    hide ForeignAction, FingerprintOf, Sound;
    var fails: bool := *;
    var d, m := bundle.data.meta.id, bundle.marker.meta.id;
    if (fails && !v.reliable) || !UnseenIn(bundle, v.Taken()) { return false; }
    StagedSound(v.Now(), v.exposed, v.removed, v.log, bundle);
    v.trees := v.trees[d := bundle.data][m := bundle.marker];
    v.names := v.names.(stagedData := Some(d), stagedMarker := Some(m));
    LogSound(v.Now(), v.exposed, v.removed, v.log);
    v.log := v.log + [v.Now()];
    return true;
  }

  lemma StagedSound(before: Moment, exposed: set<Identity>, removed: set<Identity>, log: seq<Moment>, bundle: Bundle)
    requires Sound(before, exposed, removed, log) && UnseenIn(bundle, before.trees.Keys + removed)
    requires before.names.stagedData.None? && before.names.stagedMarker.None?
    ensures var d, m := bundle.data.meta.id, bundle.marker.meta.id;
            var after := before.(names := before.names.(stagedData := Some(d), stagedMarker := Some(m)),
                                 trees := before.trees[d := bundle.data][m := bundle.marker]);
            && Sound(after, exposed, removed, log)
            && after.At(TargetData) == before.At(TargetData) && after.At(TargetMarker) == before.At(TargetMarker)
            && after.Private(StagedData, exposed) && after.Private(StagedMarker, exposed)
            && after.trees - after.names.Staged() == before.trees
  {
    var d, m := bundle.data.meta.id, bundle.marker.meta.id;
    var after := before.(names := before.names.(stagedData := Some(d), stagedMarker := Some(m)),
                         trees := before.trees[d := bundle.data][m := bundle.marker]);
    assert after.trees - {d, m} == before.trees;
    StagedApart(before, after, d, m);
    StagedAccounted(before, after.names, d, m, exposed, removed);
    hide Moment.WellNamed;
  }

  lemma StagedAccounted(before: Moment, after: Names, d: Identity, m: Identity, exposed: set<Identity>,
                        removed: set<Identity>)
    requires Accounted(before.names, exposed, removed) && d !in removed && m !in removed
    requires after == before.names.(stagedData := Some(d), stagedMarker := Some(m))
    ensures Accounted(after, exposed, removed)
  {
    forall s: Slot | after.At(s).Some? ensures after.At(s).value !in removed {
      assert InTarget(s) ==> after.At(s) == before.names.At(s);
    }
  }

  lemma StagedApart(before: Moment, after: Moment, d: Identity, m: Identity)
    requires before.WellNamed() && d != m && d !in before.trees && m !in before.trees
    requires before.names.stagedData.None? && before.names.stagedMarker.None?
    requires after.names == before.names.(stagedData := Some(d), stagedMarker := Some(m))
    requires d in after.trees && m in after.trees && after.trees - {d, m} == before.trees
    requires after.trees[d].meta.id == d && after.trees[m].meta.id == m
    ensures after.WellNamed()
  {
    forall s: Slot | after.names.At(s).Some? ensures after.names.At(s).value in after.trees {
      assert s.TargetData? || s.TargetMarker? ==> before.names.At(s).value in before.trees;
    }
    forall s: Slot, t: Slot | s != t && after.names.At(s).Some? ensures after.names.At(s) != after.names.At(t) {
      assert InTarget(s) ==> before.names.At(s) == after.names.At(s) && before.names.At(s).value in before.trees;
      assert InTarget(t) ==> before.names.At(t) == after.names.At(t);
      assert InTarget(t) && after.names.At(t).Some? ==> after.names.At(t).value in before.trees;
    }
    forall id | id in after.trees ensures after.trees[id].meta.id == id {
      if id != d && id != m { assert id in before.trees && after.trees[id] == before.trees[id]; }
    }
  }

  /** The deferred clean-up: delete staging, unless it has to be kept as quarantine. */
  method LeaveStaging(v: Volume, cleanup: bool)
    requires v.Valid() && (cleanup ==> v.StagingPrivate())
    modifies v
    ensures v.Valid() && v.names == old(v.names).(stagedData := None, stagedMarker := None)
    ensures old(v.log) <= v.log && v.exposed == old(v.exposed)
    ensures v.trees == old(v.trees) - if cleanup then old(v.names).Staged() else {}
    ensures v.disturbed == old(v.disturbed) && v.markerTaken == old(v.markerTaken)
    ensures v.attempts == old(v.attempts)
    ensures v.removed == old(v.removed) + if cleanup then old(v.names).Staged() else {}
  {
    if cleanup {
      v.removed := v.removed + v.names.Staged();
      v.trees := v.trees - v.names.Staged();
    }
    ClearedStaging(old(v.Now()), v.trees, old(v.removed), v.removed, v.exposed);
    v.names := v.names.(stagedData := None, stagedMarker := None);
    v.log := v.log + [v.Now()];
  }

  lemma ClearedStaging(before: Moment, trees': map<Identity, Node>, removed: set<Identity>, removed': set<Identity>,
                       exposed: set<Identity>)
    requires before.WellNamed() && Accounted(before.names, exposed, removed) && exposed !! removed'
    requires trees' == before.trees - (removed' - removed)
    ensures var cleared := before.names.(stagedData := None, stagedMarker := None);
      before.(names := cleared, trees := trees').WellNamed() && Accounted(cleared, exposed, removed')
  {
    var cleared := before.names.(stagedData := None, stagedMarker := None);
    assert forall s: Slot :: cleared.At(s) == if InTarget(s) then before.names.At(s) else None;
    assert forall s: Slot :: cleared.At(s).Some? ==> cleared.At(s).value in cleared.Shown();
  }

  /** Everything a successful import leaves behind for a reader of the run. */
  datatype Receipt = Receipt(staged: nat, seen: nat, observation: Observation, seed: Published, trail: Trail)

  /** The receipt of a successful import: what was staged, what was observed, and the checks that passed. */
  ghost predicate Proven(log: seq<Moment>, r: Receipt, probe: Probe)
  {
    && r.seen <= r.staged < r.trail.root <= r.trail.data < |log|
    && log[r.staged].Shows(StagedData, r.seed.data) && log[r.staged].Shows(StagedMarker, r.seed.marker)
    && (r.observation.Observed? ==> log[r.seen].Shows(TargetData, r.observation.fingerprint))
    && Checked(log, r.trail, r.observation, r.seed, probe)
  }

  /** The target requires a seed, and its data, if any, holds none of the drive-account directories. */
  ghost predicate Seedable(m: Moment, probe: Probe)
  {
    && RootState(RootOf(m), false, probe) == RequiresSeed
    && DataReadable(m)
    && (m.At(TargetData).Some? ==> forall n | n in m.At(TargetData).value.children :: n !in DRIVE_DIRECTORIES)
  }

  lemma SeedRoot(m: Moment, probe: Probe)
    requires "data" !in m.siblings && MARKER !in m.siblings
    requires RootState(RootOf(m), false, probe) == RequiresSeed
    ensures SiblingsPublished(m) && m.At(TargetMarker).None?
    ensures m.At(TargetData).Some? ==>
      m.At(TargetData).value.Directory? && DataState(m.At(TargetData).value.children, probe) == RequiresSeed
  {
    hide DataState, RuntimeFiles, MarkerIntact, ProxyIntact;
    var root := RootOf(m);
    assert forall n | n in m.siblings :: n in root && root[n] == m.siblings[n];
    assert forall n | n in root :: EntryAccepted(n, root[n], probe);
    if m.At(TargetData).Some? { assert root["data"] == m.At(TargetData).value; }
  }

  /** On a target that requires a seed only the drive-account directories stand in the way. */
  lemma SeedableMeans(m: Moment, exposed: set<Identity>, removed: set<Identity>, log: seq<Moment>, probe: Probe)
    requires Sound(m, exposed, removed, log)
    requires RootState(RootOf(m), false, probe) == RequiresSeed && DataReadable(m)
    ensures SiblingsPublished(m) && m.names.marker.None?
    ensures Seedable(m, probe) <==> (m.names.data.Some? ==> HoldsNothing(m, TargetData, probe))
  {
    SeedRoot(m, probe);
    NamedTree(m, TargetData, exposed, removed, log);
    NamedTree(m, TargetMarker, exposed, removed, log);
    hide RootState, RootOf, FingerprintOf, Sound, SiblingsPublished, DataState, DataReplaceable;
    if m.At(TargetData).Some? { RequiresSeedReplaceable(m.At(TargetData).value.children, probe); }
  }

  lemma SeedableExact(m: Moment, exposed: set<Identity>, removed: set<Identity>, log: seq<Moment>, probe: Probe)
    requires Sound(m, exposed, removed, log)
    ensures Seedable(m, probe) <==>
            && RootState(RootOf(m), false, probe) == RequiresSeed && DataReadable(m)
            && (m.names.data.Some? ==> HoldsNothing(m, TargetData, probe))
    ensures RootState(RootOf(m), false, probe) == RequiresSeed && DataReadable(m) ==>
      SiblingsPublished(m) && m.names.marker.None?
    ensures forall observation :: Describes(m, observation) ==> (observation.Observed? <==> m.names.data.Some?)
  {
    hide Sound, RootState, RootOf, HoldsNothing, SiblingsPublished;
    if RootState(RootOf(m), false, probe) == RequiresSeed && DataReadable(m) {
      SeedableMeans(m, exposed, removed, log, probe);
    }
  }

  /** The commit callback of the secret batch: observe the target, then install. */
  method Commit(v: Volume, probe: Probe)
    returns (preserve: bool, err: Option<Failure>, ghost r: Receipt)
    requires v.Valid() && v.StagingPrivate()
    modifies v
    ensures v.reliable && err.Some? ==> err == Some(TargetChanged)
    ensures v.Valid() && v.Continues()
    ensures !preserve ==> v.StagingPrivate()
    ensures !v.disturbed && NothingMoved(v.attempts, |old(v.attempts)|) ==> !preserve && v.Now() == old(v.Now())
    ensures err.None? ==> Proven(v.log, r, probe)
    ensures err.None? ==>
      old(v.Now()).Shows(StagedData, r.seed.data) && old(v.Now()).Shows(StagedMarker, r.seed.marker)
    ensures err.None? && !v.markerTaken ==> v.names.marker.Some?
    ensures err.None? && !v.disturbed ==> TargetIs(v.Now(), r.seed)
    ensures err.Some? && !v.disturbed && !UndoRefused(v.attempts, |old(v.attempts)| + 1) ==>
      TargetsAsBefore(old(v.Now()), v.Now())
    ensures v.Calm() ==> !UndoRefused(v.attempts, |old(v.attempts)| + 1)
    ensures v.Calm() ==>
      (err.None? <==> StagedReadable(old(v.Now())) && Seedable(old(v.Now()), probe))
  {
    hide Sound, FingerprintOf, DataReplaceable, RootState, RootOf, SiblingsPublished, StagedReadable, Seedable,
      HoldsNothing, Describes, DataReadable;
    SeedableExact(v.Now(), v.exposed, v.removed, v.log, probe);
    r := Receipt(0, 0, NoData, Published([], []), NO_TRAIL);
    var observation; ghost var seen;
    err, observation, seen := Observe(v, probe);
    if err.Some? { return false, err, r; }
    ghost var staged, trail, seed := |v.log| - 1, NO_TRAIL, Published([], []);
    preserve, err, trail, seed := Install(v, observation, probe);
    r := Receipt(staged, seen, observation, seed, trail);
  }

  /** The target data and marker are what they were. */
  predicate TargetKept(before: Moment, after: Moment)
  {
    after.At(TargetData) == before.At(TargetData) && after.At(TargetMarker) == before.At(TargetMarker)
  }

  /** The target data and marker are the trees whose fingerprints these are. */
  ghost predicate TargetIs(now: Moment, seed: Published)
  {
    now.Shows(TargetData, seed.data) && now.Shows(TargetMarker, seed.marker)
  }

  lemma SameSeedable(before: Moment, after: Moment, probe: Probe)
    requires after.At(TargetData) == before.At(TargetData) && after.At(TargetMarker) == before.At(TargetMarker)
    requires after.siblings == before.siblings
    ensures Seedable(after, probe) == Seedable(before, probe)
  {
    hide RootState, FingerprintOf;
  }

  /** The receipt's fingerprints are those of the bundle's data and of its marker. */
  ghost predicate Carried(bundle: Bundle, seed: Published)
  {
    FingerprintOf(bundle.data) == Some(seed.data) && FingerprintOf(bundle.marker) == Some(seed.marker)
  }

  /** The part of an import between staging and clean-up. */
  method StageAndCommit(v: Volume, bundle: Bundle, probe: Probe)
    returns (preserve: bool, err: Option<Failure>, ghost r: Receipt)
    requires v.Valid() && v.names.stagedData.None? && v.names.stagedMarker.None?
    modifies v
    ensures v.reliable && err.Some? ==>
      err == Some(if UnseenIn(bundle, old(v.Taken())) then TargetChanged else InvalidSeed)
    ensures v.Valid() && v.Continues()
    ensures !preserve ==> v.StagingPrivate()
    ensures !v.disturbed && NothingMoved(v.attempts, |old(v.attempts)|) ==>
      !preserve && v.trees - v.names.Staged() == old(v.trees)
    ensures err.None? ==> Proven(v.log, r, probe) && Carried(bundle, r.seed)
    ensures err.None? && !v.markerTaken ==> v.names.marker.Some?
    ensures err.None? && !v.disturbed ==> TargetIs(v.Now(), r.seed)
    ensures err.Some? && !v.disturbed && !UndoRefused(v.attempts, |old(v.attempts)| + 1) ==>
      TargetKept(old(v.Now()), v.Now())
    ensures v.Calm() ==> !UndoRefused(v.attempts, |old(v.attempts)| + 1)
    ensures v.Calm() ==>
      (err.None? <==> Usable(bundle, old(v.Taken())) && Seedable(old(v.Now()), probe))
  {
    hide Sound, FingerprintOf, DataReplaceable, Proven, Seedable, UnseenIn, ForeignAction, Moment.Private;
    r := Receipt(0, 0, NoData, Published([], []), NO_TRAIL);
    var ok := Stage(v, bundle);
    if !ok { return false, Some(InvalidSeed), r; }
    SameSeedable(old(v.Now()), v.Now(), probe);
    LetOthersAct(v);
    var secretsRejected: bool := *;
    if secretsRejected && !v.reliable { return false, Some(InvalidSeed), r; }
    preserve, err, r := Commit(v, probe);
  }

  lemma ProvenLater(log: seq<Moment>, log': seq<Moment>, r: Receipt, probe: Probe)
    requires log <= log' && Proven(log, r, probe)
    ensures Proven(log', r, probe)
  {
  }

  /** `FirstLaunchSeedRequired` at the start of the import, other processes running. */
  method SeedRequired(v: Volume, probe: Probe) returns (state: Option<TargetState>)
    requires v.Valid()
    modifies v
    ensures v.Valid() && v.Continues()
    ensures v.names.stagedData == old(v.names).stagedData && v.names.stagedMarker == old(v.names).stagedMarker
    ensures !v.disturbed ==> v.Now() == old(v.Now())
    ensures old(v.names).marker.Some? && !v.markerTaken ==> v.names.marker.Some? && state != Some(RequiresSeed)
    ensures v.attempts == old(v.attempts)
    ensures v.reliable ==> state.Some?
    ensures v.Calm() ==> state == Some(RootState(old(v.Root()), false, probe))
  {
    hide RootState, RootOf, Sound;
    v.Foreign();
    state := InspectRoot(v, probe);
    v.Foreign();
  }

  method FinishStaging(v: Volume, cleanup: bool)
    requires v.Valid() && (cleanup ==> v.StagingPrivate())
    modifies v
    ensures v.Valid() && v.names.stagedData.None? && v.names.stagedMarker.None?
    ensures old(v.log) <= v.log && (old(v.disturbed) ==> v.disturbed) && (old(v.markerTaken) ==> v.markerTaken)
    ensures old(v.exposed) <= v.exposed && old(v.removed) <= v.removed
    ensures v.attempts == old(v.attempts)
    ensures !v.disturbed && cleanup ==> v.trees == old(v.trees) - old(v.names).Staged()
    ensures !v.disturbed ==> TargetKept(old(v.Now()), v.Now())
    ensures !v.markerTaken && old(v.names).marker.Some? ==> v.names.marker.Some?
  {
    v.Foreign();
    LeaveStaging(v, cleanup);
  }

  /**
   `ImportFirstLaunchSeed`, holding the import lock. Whatever the foreign writer does, every tree that a target name
   has led to at any moment still exists. Without a foreign writer and with working system calls the import succeeds
   exactly on a target that requires a seed and whose data has no drive-account directory.
   */
  method Import(v: Volume, bundle: Bundle, probe: Probe)
    returns (imported: bool, err: Option<Failure>, ghost r: Receipt)
    requires v.Valid() && v.names.stagedData.None? && v.names.stagedMarker.None?
    modifies v
    ensures v.Valid() && v.names.stagedData.None? && v.names.stagedMarker.None? && old(v.log) <= v.log
    ensures old(v.exposed) <= v.exposed && old(v.removed) <= v.removed
    ensures forall i | 0 <= i < |v.log| :: v.log[i].names.Shown() <= v.trees.Keys
    ensures (old(v.markerTaken) ==> v.markerTaken) && (old(v.disturbed) ==> v.disturbed)
    ensures imported ==> err.None? && Proven(v.log, r, probe) && Carried(bundle, r.seed)
    ensures imported && !v.disturbed ==> TargetIs(v.Now(), r.seed)
    ensures !imported && !v.disturbed && !UndoRefused(v.attempts, |old(v.attempts)| + 1) ==>
      TargetKept(old(v.Now()), v.Now())
    ensures !imported && !v.disturbed && NothingMoved(v.attempts, |old(v.attempts)|) ==> v.trees == old(v.trees)
    ensures v.reliable ==> err != Some(SystemError)
    ensures v.Calm() && err.Some? ==>
      err == Some(if UnseenIn(bundle, old(v.Taken())) then TargetChanged else InvalidSeed)
    ensures v.Calm() ==>
      (!imported && err.None? <==> RootState(old(v.Root()), false, probe) != RequiresSeed)
    ensures imported && !v.markerTaken ==> v.names.marker.Some?
    ensures old(v.names).marker.Some? && !v.markerTaken ==> !imported && v.names.marker.Some?
    ensures v.Calm() ==> !UndoRefused(v.attempts, |old(v.attempts)| + 1)
    ensures v.Calm() ==>
      (imported <==> Usable(bundle, old(v.Taken())) && Seedable(old(v.Now()), probe))
  {
    hide Accounted, Moment.WellNamed, FingerprintOf, DataReplaceable, Proven, RootState, Carried,
      ForeignAction, RootOf;
    r := Receipt(0, 0, NoData, Published([], []), NO_TRAIL);
    var state := SeedRequired(v, probe);
    if state.None? { return false, Some(SystemError), r; }
    if state.value != RequiresSeed { return false, None, r; }
    var preserve;
    preserve, err, r := StageAndCommit(v, bundle, probe);
    ghost var log := v.log;
    FinishStaging(v, !preserve);
    if err.None? { ProvenLater(log, v.log, r, probe); }
    imported := err.None?;
  }

  /**
   Any number of importers take the lock one after the other: unless a marker is taken away, one succeeds at most. Left
   alone, the first one succeeds exactly if its bundle is usable and the target can be seeded.
   */
  method RunImporters(v: Volume, bundles: seq<Bundle>, probe: Probe)
    returns (results: seq<bool>, ghost receipts: seq<Receipt>)
    requires v.Valid() && v.names.stagedData.None? && v.names.stagedMarker.None?
    modifies v
    ensures v.Valid() && old(v.log) <= v.log && old(v.exposed) <= v.exposed && old(v.removed) <= v.removed
    ensures forall i | 0 <= i < |v.log| :: v.log[i].names.Shown() <= v.trees.Keys
    ensures |results| == |receipts| == |bundles|
    ensures forall i | 0 <= i < |results| && results[i] ::
              Proven(v.log, receipts[i], probe) && Carried(bundles[i], receipts[i].seed)
    ensures !v.markerTaken ==> forall i, j | 0 <= i < j < |results| :: !(results[i] && results[j])
    ensures !v.markerTaken && old(v.names).marker.Some? ==> forall i | 0 <= i < |results| :: !results[i]
    ensures !v.markerTaken && (exists i | 0 <= i < |results| :: results[i]) ==> v.names.marker.Some?
    ensures v.Calm() && bundles != [] ==>
      (results[0] <==> Usable(bundles[0], old(v.Taken())) && Seedable(old(v.Now()), probe))
  {
    hide Sound, Proven, Usable, Seedable, FingerprintOf, Carried;
    results, receipts := [], [];
    for i := 0 to |bundles|
      invariant v.Valid() && v.names.stagedData.None? && v.names.stagedMarker.None?
      invariant old(v.log) <= v.log && old(v.exposed) <= v.exposed && old(v.removed) <= v.removed
      invariant |results| == |receipts| == i
      invariant forall j | 0 <= j < i && results[j] ::
        Proven(v.log, receipts[j], probe) && Carried(bundles[j], receipts[j].seed)
      invariant i == 0 && !v.disturbed ==>
        v.Now() == old(v.Now()) && v.Taken() == old(v.Taken())
      invariant !v.markerTaken ==> forall j | 0 <= j < i && results[j] ::
        v.names.marker.Some? && old(v.names).marker.None? && forall k | 0 <= k < j :: !results[k]
      invariant !v.markerTaken && old(v.names).marker.Some? ==> v.names.marker.Some?
      invariant v.Calm() && i > 0 ==>
        (results[0] <==> Usable(bundles[0], old(v.Taken())) && Seedable(old(v.Now()), probe))
    {
      ghost var before := v.log;
      v.Foreign();
      var imported, err; ghost var r;
      imported, err, r := Import(v, bundles[i], probe);
      forall j | 0 <= j < i && results[j] ensures Proven(v.log, receipts[j], probe) {
        ProvenLater(before, v.log, receipts[j], probe);
      }
      results, receipts := results + [imported], receipts + [r];
    }
    NothingLost(v);
  }

  lemma NothingLost(v: Volume)
    requires v.Valid()
    ensures forall i | 0 <= i < |v.log| :: v.log[i].names.Shown() <= v.trees.Keys
  {
    hide Accounted, Moment.WellNamed, Names.Shown;
  }

  /**
   What a receipt is worth: at the moments of validation the target held trees that agree with the staged ones, and
   so with the bundle's, in shape, names, modes, sizes, identities and contents; and the tree that gave way agreed
   with the one observed and held no file but an empty bolt file or a replaceable database.
   */
  lemma ReceiptMeaning(log: seq<Moment>, r: Receipt, bundle: Bundle, probe: Probe, path: seq<string>)
    requires Proven(log, r, probe) && Carried(bundle, r.seed)
    ensures Agree(log[r.trail.data].At(TargetData).value, bundle.data)
    ensures Agree(log[r.trail.marker].At(TargetMarker).value, bundle.marker)
    ensures Agree(log[r.trail.data].At(TargetData).value, log[r.staged].At(StagedData).value)
    ensures Agree(log[r.trail.marker].At(TargetMarker).value, log[r.staged].At(StagedMarker).value)
    ensures r.observation.Observed? ==>
      && Agree(log[r.trail.displaced].At(StagedData).value, log[r.seen].At(TargetData).value)
      && var gone := log[r.trail.emptied].At(StagedData).value;
         Lookup(gone, path).Some? && Lookup(gone, path).value.Regular? ==>
           || (path == [BOLT] && Lookup(gone, path).value.meta.size <= 0)
           || (path == [DATABASE] && probe.database(Lookup(gone, path).value.content).Replaceable?)
  {
    FingerprintExact(log[r.trail.data].At(TargetData).value, log[r.staged].At(StagedData).value);
    FingerprintExact(log[r.trail.marker].At(TargetMarker).value, log[r.staged].At(StagedMarker).value);
    FingerprintExact(log[r.trail.data].At(TargetData).value, bundle.data);
    FingerprintExact(log[r.trail.marker].At(TargetMarker).value, bundle.marker);
    if r.observation.Observed? {
      FingerprintExact(log[r.trail.displaced].At(StagedData).value, log[r.seen].At(TargetData).value);
      var gone := log[r.trail.emptied].At(StagedData).value;
      if Lookup(gone, path).Some? && Lookup(gone, path).value.Regular? { ReplaceableHoldsNothing(gone, path, probe); }
    }
  }
}