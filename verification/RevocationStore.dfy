/**
 The registry in the program's own shape: a repository that loads and saves the shared file under the process
 lock, and a service that updates its copy (cmd/license-generator/revocation_state_windows.go,
 revocation_registry.go). Each method is tied to the functions the runs are built from.
 */
module RevocationStore {
  import opened Ordering
  import opened Revocation
  import opened RevocationRuns

  /** The shared file; reading and writing a reliable one never fails. */
  class StateFile {
    const reliable: bool
    var image: Option<Image>

    constructor (image: Option<Image>, reliable: bool)
      ensures this.image == image && this.reliable == reliable
    { this.image, this.reliable := image, reliable; }

    /** Any other process may replace the file between two critical sections of this one. */
    method OthersRun()
      modifies this`image
    { image := *; }
  }

  datatype Loaded = NotFound | Unreadable | Found(state: State)

  /** `revocationStateRepository`. Each method body is one critical section. */
  class Repository {
    const file: StateFile
    var baseline: Baseline

    constructor (file: StateFile)
      ensures this.file == file && baseline == Baseline(false, false, Zero)
    {
      this.file := file;
      baseline := Baseline(false, false, Zero);
    }

    method Load(rules: Rules) returns (loaded: Loaded)
      modifies this`baseline
      ensures baseline == old(baseline) || baseline == Observed(file.image)
      ensures loaded == NotFound ==> file.image.None?
      ensures loaded != Unreadable ==> baseline == Observed(file.image)
      ensures loaded.Found? ==> file.image.Some? && Decode(file.image.value, rules) == Some(loaded.state)
      ensures file.reliable ==>
        && (loaded == NotFound <==> file.image.None?)
        && (loaded.Found? <==> file.image.Some? && Decode(file.image.value, rules).Some?)
    {
      var readFails: bool := *;
      if readFails && !file.reliable { return Unreadable; }
      baseline := Observed(file.image);
      if file.image.None? { return NotFound; }
      var decoded := Decode(file.image.value, rules);
      return if decoded.None? then Unreadable else Found(decoded.value);
    }

    /** Replaces the file exactly when it is still the one last observed; never observed means it must be absent. */
    method Save(state: State, rules: Rules) returns (saved: bool)
      modifies this`baseline, file`image
      ensures saved ==>
        && Matches(if old(baseline).initialized then old(baseline) else Observed(None), old(file.image))
        && file.image.Some? && file.image.value.Image? && file.image.value.state == state
        && rules.Valid(state) && baseline == Observed(file.image)
      ensures !saved ==> file.image == old(file.image)
      ensures file.reliable ==>
        (saved <==> rules.Valid(state)
                    && Matches(if old(baseline).initialized then old(baseline) else Observed(None), old(file.image)))
      ensures !saved && old(baseline).initialized ==> baseline == old(baseline)
    {
      var valid := rules.CheckState(state);
      if !valid { return false; }
      if !baseline.initialized {
        if file.image.Some? { return false; }
        baseline := Observed(None);
      }
      if !Matches(baseline, file.image) { return false; }
      var salt: nat, writeFails: bool := *, *;
      if writeFails && !file.reliable { return false; }
      file.image := Some(Image(state, salt));
      baseline := Observed(file.image);
      saved := true;
    }
  }

  /** `revocation.PreparedRevocation`, as far as the records determine it. */
  datatype Prepared = Prepared(target: Record, minimumSequence: nat, publishedHandles: seq<string>)

  /** The handles of the published records, in order. */
  function PublishedHandles(records: seq<Record>): seq<string>
  {
    if records == [] then []
    else
      var last := records[|records| - 1];
      PublishedHandles(records[..|records| - 1]) + if last.state.Published? then [last.handle] else []
  }

  /** Just the handles of published records are listed. */
  lemma {:induction false} PublishedHandlesExact(records: seq<Record>, h: string)
    ensures h in PublishedHandles(records) <==>
            exists i | 0 <= i < |records| :: records[i].state.Published? && records[i].handle == h
  {
    if records != [] {
      var init, n := records[..|records| - 1], |records| - 1;
      PublishedHandlesExact(init, h);
      assert forall i | 0 <= i < n :: init[i] == records[i];
    }
  }

  /** A published record's handle comes right after those of the published records before it. */
  lemma {:induction false} PublishedHandlesOrder(records: seq<Record>, i: nat)
    requires i < |records| && records[i].state.Published?
    ensures |PublishedHandles(records[..i])| < |PublishedHandles(records)|
    ensures PublishedHandles(records)[|PublishedHandles(records[..i])|] == records[i].handle
  {
    var init, n := records[..|records| - 1], |records| - 1;
    if i < n {
      PublishedHandlesOrder(init, i);
      assert init[..i] == records[..i];
    }
  }

  /** The floor for the next manifest's sequence: no record has seen a higher one, and some record has seen it. */
  predicate IsHighestSequence(records: seq<Record>, n: nat)
  {
    && (forall i | 0 <= i < |records| :: records[i].sequence <= n)
    && (n == 0 || exists i | 0 <= i < |records| :: records[i].sequence == n)
  }

  /** `preparedRevocation`: one pass collects the target, the highest sequence and the published handles. */
  method PrepareRevocation(records: seq<Record>, target: nat) returns (p: Prepared)
    requires target < |records|
    ensures p.target == records[target]
    ensures IsHighestSequence(records, p.minimumSequence)
    ensures p.publishedHandles == PublishedHandles(records)
  {
    var minimum: nat, handles: seq<string> := 0, [];
    for i := 0 to |records|
      invariant IsHighestSequence(records[..i], minimum)
      invariant handles == PublishedHandles(records[..i])
    {
      assert records[..i + 1][..i] == records[..i] && records[..i + 1][i] == records[i];
      assert forall j | 0 <= j < i :: records[..i + 1][j] == records[..i][j];
      if records[i].sequence > minimum { minimum := records[i].sequence; }
      if records[i].state.Published? { handles := handles + [records[i].handle]; }
      assert IsHighestSequence(records[..i + 1], minimum);
    }
    assert records[..|records|] == records;
    p := Prepared(records[target], minimum, handles);
  }

  /** `generatorService`, the revocation half. */
  class Registry {
    const repository: Repository
    var memory: Option<State>
    var restore: bool

    constructor (repository: Repository)
      ensures this.repository == repository && memory.None? && restore
    {
      this.repository := repository;
      memory, restore := None, true;
    }

    function View(): Service
      reads this, repository
    {
      Service(repository.baseline, memory, restore, Idle)
    }

    ghost predicate Valid(rules: Rules)
      reads this, repository
    {
      Sound(View(), rules)
    }

    /**
     `newGeneratorServiceWithRevocation`: load; without a file wait for a restore or provision fresh keys. Another
     process may act before the provisioning save; `disk` is the file right before it. With working reads and writes
     opening fails only on a file that does not decode or that another process has put there in between.
     */
    method Open(remoteAbsent: bool, seed: nat, rules: Rules)
      returns (ok: bool, ghost seen: Option<Image>, ghost disk: Option<Image>)
      modifies this`memory, this`restore, repository`baseline, repository.file`image
      ensures ok ==> Valid(rules)
      ensures ok && seen.Some? ==> !restore && memory == Decode(seen.value, rules) && repository.file.image == seen
      ensures ok && seen.None? && remoteAbsent ==>
        && !restore && memory == Some(Fresh(seed)) && memory.value.records == [] && !memory.value.confirmed
        && memory.value.publicKey == memory.value.privateKey.suffix == PublicOf(seed)
        && repository.file.image.Some? && Decode(repository.file.image.value, rules) == memory
      ensures ok && seen.None? && !remoteAbsent ==> restore && memory == None && repository.file.image == None
      ensures repository.file.reliable && seen.Some? ==> (ok <==> Decode(seen.value, rules).Some?)
      ensures repository.file.reliable && seen.None? ==> (ok <==> !remoteAbsent || disk == None)
      ensures ok && seen.None? && remoteAbsent ==> disk == None
      ensures !ok || seen.Some? || !remoteAbsent ==> repository.file.image == disk
    {
      seen, disk := repository.file.image, repository.file.image;
      var loaded := repository.Load(rules);
      match loaded
      case Unreadable => ok := false;
      case Found(state) =>
        memory, restore := Some(state), false;
        ok := true;
      case NotFound =>
        memory, restore := None, !remoteAbsent;
        if !remoteAbsent { return true, seen, disk; }
        repository.file.OthersRun();
        disk := repository.file.image;
        ok := repository.Save(Fresh(seed), rules);
        if ok { memory := Some(Fresh(seed)); }
    }

    /** The restore a program without a revocation state waits for: what the manifest yields becomes the first state. */
    method RestoreFirst(op: Operation, rules: Rules) returns (ok: bool, ghost disk: Option<Image>)
      requires Valid(rules) && restore && op.RestoreV3?
      modifies this`memory, this`restore, repository`baseline, repository.file`image
      ensures Valid(rules)
      ensures ok ==>
        && disk == None && !restore && memory == PlanFirst(op, rules)
        && repository.file.image.Some? && Decode(repository.file.image.value, rules) == memory
      ensures !ok ==> restore && memory == old(memory) && repository.file.image == disk
      ensures repository.file.reliable ==> (ok <==> FirstRestorable(op.key, op.evidence, rules) && disk == None)
    {
      FirstRestoreExact(op.key, op.evidence, rules);
      hide FirstRestorable;
      repository.file.OthersRun();
      disk := repository.file.image;
      var first := PlanFirst(op, rules);
      if first.None? { return false, disk; }
      PlanFirstValid(op, rules);
      ok := repository.Save(first.value, rules);
      if ok { memory, restore := first, false; }
    }

    /** `refreshRevocationStateLocked`. */
    method Refresh(rules: Rules) returns (ok: bool)
      requires Valid(rules) && !restore && memory.Some?
      modifies this`memory, repository`baseline
      ensures Valid(rules) && memory.Some?
      ensures ok ==> (View(), true) == RevocationRuns.Refresh(old(View()), repository.file.image, rules)
      ensures !ok ==> memory == old(memory)
      ensures repository.file.reliable ==> ok == RevocationRuns.Refresh(old(View()), repository.file.image, rules).1
    {
      var loaded := repository.Load(rules);
      if !loaded.Found? || loaded.state.publicKey != memory.value.publicKey { return false; }
      memory := Some(memory.value.(confirmed := loaded.state.confirmed, records := loaded.state.records));
      ok := true;
    }

    /**
     Carry out one operation that reads, decides and saves. `seen` is the file when it was read, `disk` the file right
     before the save. With working reads and writes it fails only on a file that does not fit or has changed between.
     */
    method Execute(op: Operation, rules: Rules)
      returns (ok: bool, ghost wrote: bool, ghost seen: Option<Image>, ghost disk: Option<Image>)
      requires Valid(rules) && !restore && memory.Some?
      modifies this`memory, repository`baseline, repository.file`image
      ensures Valid(rules) && memory.Some?
      ensures ok ==> repository.file.image.Some? && Decode(repository.file.image.value, rules) == memory
      ensures wrote ==>
        && ok && disk == seen && disk.Some? && Decode(disk.value, rules).Some?
        && Plan(Decode(disk.value, rules).value, op, rules) == memory
      ensures !wrote ==> repository.file.image == disk
      ensures ok && !wrote ==> disk == seen && Plan(memory.value, op, rules).None?
      ensures repository.file.reliable ==>
        (ok <==> Fits(seen, old(memory).value.publicKey, rules)
                 && (Plan(Decode(seen.value, rules).value, op, rules).Some? ==> disk == seen))
    {
      wrote := false;
      repository.file.OthersRun();
      seen := repository.file.image;
      ok := Refresh(rules);
      if !ok { disk := seen; return; }
      RefreshExact(old(View()), seen, rules);
      var next := Plan(memory.value, op, rules);
      if next.None? { disk := seen; return; }
      PlanAdvances(memory.value, op, rules);
      repository.file.OthersRun();
      disk := repository.file.image;
      ok := repository.Save(next.value, rules);
      if !ok { return; }
      memory := next;
      wrote := true;
    }

    /**
     `Prepare`: an unknown handle is stored as a pending record first. The result describes the handle's record among
     those of the file on disk. With working reads and writes it comes back exactly for a valid request, a file that
     fits, and a handle that is on file or whose new record is valid and saved before the file changes again.
     */
    method Prepare(handle: string, eventID: string, requestedAt: string, rules: Rules)
      returns (result: Option<Prepared>, ghost wrote: bool, ghost seen: Option<Image>, ghost disk: Option<Image>)
      requires Valid(rules) && !restore && memory.Some?
      modifies this`memory, repository`baseline, repository.file`image
      ensures Valid(rules) && memory.Some?
      ensures result.Some? ==>
        && repository.file.image.Some? && Decode(repository.file.image.value, rules) == memory
        && result.value.target in memory.value.records && result.value.target.handle == handle
        && IsHighestSequence(memory.value.records, result.value.minimumSequence)
        && result.value.publishedHandles == PublishedHandles(memory.value.records)
      ensures wrote ==>
        && result.Some? && disk == seen && disk.Some? && Decode(disk.value, rules).Some?
        && Plan(Decode(disk.value, rules).value, Operation.Prepare(handle, eventID, requestedAt), rules) == memory
      ensures !wrote ==> repository.file.image == disk
      ensures repository.file.reliable ==>
        (result.Some? <==>
          && rules.handle(handle) && rules.time(requestedAt) && Fits(seen, old(memory).value.publicKey, rules)
          && var s := Decode(seen.value, rules).value;
             Knows(s.records, handle)
             || (disk == seen && Plan(s, Operation.Prepare(handle, eventID, requestedAt), rules).Some?))
    {
      wrote, seen, disk, result := false, repository.file.image, repository.file.image, None;
      if !rules.handle(handle) || !rules.time(requestedAt) { return; }
      var ok;
      ok, wrote, seen, disk := Execute(Operation.Prepare(handle, eventID, requestedAt), rules);
      PlannedForUnknown(seen, handle, eventID, requestedAt, rules);
      if !ok { return; }
      var index := FindHandle(memory.value.records, handle);
      if index.None? { return; }
      var p := PrepareRevocation(memory.value.records, index.value);
      result := Some(p);
    }

    /**
     `RecordOutcome`. On success the event's record on file bears the outcome. With working reads and writes it succeeds
     exactly if the file fits and the record bears it already, or awaits it and the file stays until the save.
     */
    method RecordOutcome(event: string, outcome: Outcome, rules: Rules)
      returns (ok: bool, ghost wrote: bool, ghost seen: Option<Image>, ghost disk: Option<Image>)
      requires Valid(rules) && !restore && memory.Some?
      modifies this`memory, repository`baseline, repository.file`image
      ensures Valid(rules) && memory.Some?
      ensures ok ==>
        && repository.file.image.Some? && Decode(repository.file.image.value, rules) == memory
        && Recorded(memory.value, event, outcome)
      ensures wrote ==>
        && ok && disk == seen && disk.Some? && Decode(disk.value, rules).Some?
        && Plan(Decode(disk.value, rules).value, Operation.RecordOutcome(event, outcome), rules) == memory
      ensures !wrote ==> repository.file.image == disk
      ensures repository.file.reliable ==>
        (ok <==>
          && Fits(seen, old(memory).value.publicKey, rules)
          && var s := Decode(seen.value, rules).value;
             Recorded(s, event, outcome) || (disk == seen && Awaited(s, event, outcome, rules)))
    {
      hide Judge, Plan, Awaited, Bears;
      ok, wrote, seen, disk := Execute(Operation.RecordOutcome(event, outcome), rules);
      OutcomeRecorded(seen, event, outcome, rules);
      if !ok { return; }
      UnchangedExact(memory.value, event, outcome, rules);
      var verdict := Judge(memory.value.records, event, outcome, rules);
      ok := !verdict.Rejected?;
    }
  }

  /** The record of this event bears the outcome. */
  ghost predicate Recorded(s: State, event: string, outcome: Outcome)
  {
    exists i | 0 <= i < |s.records| :: s.records[i].eventID == event && Bears(s.records[i], outcome)
  }

  ghost predicate Awaited(s: State, event: string, outcome: Outcome, rules: Rules)
  {
    exists i | 0 <= i < |s.records| :: s.records[i].eventID == event && Awaits(s.records[i], outcome, rules)
  }

  /** What an outcome that was planned leaves behind. */
  lemma OutcomeRecorded(file: Option<Image>, event: string, outcome: Outcome, rules: Rules)
    ensures file.Some? && Decode(file.value, rules).Some? ==>
      var s := Decode(file.value, rules).value;
      var next := Plan(s, Operation.RecordOutcome(event, outcome), rules);
      && (next.Some? <==> Awaited(s, event, outcome, rules))
      && (next.Some? ==> Recorded(next.value, event, outcome))
      && (Judge(s.records, event, outcome, rules).Unchanged? <==> Recorded(s, event, outcome))
      && (Judge(s.records, event, outcome, rules).Rejected? ==> next.None? && !Recorded(s, event, outcome))
      && (Judge(s.records, event, outcome, rules).Save? <==> next.Some?)
      && (next.Some? ==> !Recorded(s, event, outcome))
  {
    if file.Some? && Decode(file.value, rules).Some? {
      var s := Decode(file.value, rules).value;
      OutcomeExact(s, event, outcome, rules);
      UnchangedExact(s, event, outcome, rules);
      JudgedPlanned(s, event, outcome, rules);
      hide Awaits, Judge, Plan, rules.Valid;
      var next := Plan(s, Operation.RecordOutcome(event, outcome), rules);
      if next.Some? {
        var i :| 0 <= i < |s.records| && s.records[i].eventID == event && Awaits(s.records[i], outcome, rules);
        assert Carries(next.value.records[i], s.records[i], outcome);
      }
    }
  }

  lemma JudgedPlanned(s: State, event: string, outcome: Outcome, rules: Rules)
    requires rules.Valid(s)
    ensures Judge(s.records, event, outcome, rules).Save? <==>
            Plan(s, Operation.RecordOutcome(event, outcome), rules).Some?
  {
    hide rules.Text;
    var verdict := Judge(s.records, event, outcome, rules);
    if verdict.Save? {
      var next := s.records[verdict.index := verdict.record];
      assert forall r | r in next :: r == verdict.record || r in s.records;
      assert verdict.record.eventID == s.records[verdict.index].eventID;
      assert rules.ValidRecords(next);
    }
  }

  /** A preparation plans a save only for a handle not on file, and on file it is from then on. */
  lemma PlannedForUnknown(file: Option<Image>, handle: string, eventID: string, requestedAt: string, rules: Rules)
    ensures file.Some? && Decode(file.value, rules).Some? ==>
      var s := Decode(file.value, rules).value;
      var next := Plan(s, Operation.Prepare(handle, eventID, requestedAt), rules);
      next.Some? ==> !Knows(s.records, handle) && Knows(next.value.records, handle)
  {
    if file.Some? && Decode(file.value, rules).Some? {
      var s := Decode(file.value, rules).value;
      PrepareExact(s, handle, eventID, requestedAt, rules);
      var next := Plan(s, Operation.Prepare(handle, eventID, requestedAt), rules);
      if next.Some? { assert next.value.records[|s.records|].handle == handle; }
    }
  }

  /** The file holds a state with this public key. */
  predicate Fits(file: Option<Image>, publicKey: PublicKey, rules: Rules)
  {
    && file.Some? && Decode(file.value, rules).Some? && Decode(file.value, rules).value.publicKey == publicKey
  }
}
