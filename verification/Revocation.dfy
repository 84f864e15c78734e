/**
 The revocation registry of the license generator: records, validity, the updates each operation makes,
 and reconciliation with a signed remote manifest (cmd/license-generator/revocation_*.go).
 */
module Revocation {
  import opened Ordering

  /** An Ed25519 public key is a function of its seed; two seeds never share one. */
  datatype PublicKey = PublicOf(seed: nat)

  /** The 64 stored bytes: the seed and, behind it, what claims to be its public half. */
  datatype PrivateKey = PrivateKey(seed: nat, suffix: PublicKey)

  predicate KeyPair(privateKey: PrivateKey, publicKey: PublicKey)
  {
    privateKey.suffix == PublicOf(privateKey.seed) && publicKey == privateKey.suffix
  }

  datatype PublicationState = Pending | Failed | Published

  datatype Record = Record(eventID: string, handle: string, requestedAt: string,
                           sequence: nat, blobID: string, state: PublicationState)

  datatype State = State(privateKey: PrivateKey, publicKey: PublicKey, confirmed: bool, records: seq<Record>)

  /**
   The text formats of the protocol: canonical handles, canonical UTC times, and text without surrounding
   space or control characters. A text is written byte by byte, the unit its length limit counts.
   */
  datatype Rules = Rules(handle: string -> bool, time: string -> bool, plain: string -> bool)
  {
    predicate Text(s: string) { s != "" && |s| <= 128 && plain(s) }

    /** `validRevocationPublicationRecord`. */
    predicate Admits(r: Record)
    {
      && Text(r.eventID) && handle(r.handle) && time(r.requestedAt)
      && match r.state
         case Pending => if r.sequence == 0 then r.blobID == "" else Text(r.blobID)
         case Failed => r.sequence == 0 && r.blobID == ""
         case Published => r.sequence > 0 && Text(r.blobID)
    }

    predicate ValidRecords(records: seq<Record>)
    {
      && (forall r | r in records :: Admits(r))
      && (forall i, j | 0 <= i < j < |records| ::
            records[i].eventID != records[j].eventID && records[i].handle != records[j].handle)
    }

    /** `validGeneratorRevocationState`. */
    predicate Valid(s: State)
    {
      KeyPair(s.privateKey, s.publicKey) && ValidRecords(s.records)
    }

    /** The test of one record, in the program's order. */
    method CheckRecord(r: Record) returns (valid: bool)
      ensures valid == Admits(r)
    {
      if r.eventID == "" || |r.eventID| > 128 || !plain(r.eventID) { return false; }
      if !handle(r.handle) || !time(r.requestedAt) { return false; }
      var blobValid := r.blobID != "" && |r.blobID| <= 128 && plain(r.blobID);
      match r.state
      case Pending => return if r.sequence == 0 then r.blobID == "" else blobValid;
      case Failed => return r.sequence == 0 && r.blobID == "";
      case Published => return r.sequence > 0 && blobValid;
    }

    /** The same test as the program runs it, with two sets of what has been seen. */
    method CheckState(s: State) returns (valid: bool)
      ensures valid == Valid(s)
    {
      if !KeyPair(s.privateKey, s.publicKey) { return false; }
      var eventIDs: set<string>, handles: set<string> := {}, {};
      for i := 0 to |s.records|
        invariant ValidRecords(s.records[..i])
        invariant forall x :: x in eventIDs <==> exists j | 0 <= j < i :: s.records[j].eventID == x
        invariant forall x :: x in handles <==> exists j | 0 <= j < i :: s.records[j].handle == x
      {
        var r := s.records[i];
        var admitted := CheckRecord(r);
        if !admitted || r.eventID in eventIDs || r.handle in handles { return false; }
        eventIDs, handles := eventIDs + {r.eventID}, handles + {r.handle};
        assert s.records[..i + 1] == s.records[..i] + [r];
      }
      assert s.records[..|s.records|] == s.records;
      return true;
    }
  }

  function FindHandle(records: seq<Record>, handle: string): (r: Option<nat>)
    ensures r.None? ==> forall i | 0 <= i < |records| :: records[i].handle != handle
    ensures r.Some? ==> r.value < |records| && records[r.value].handle == handle
  {
    if records == [] then None
    else if records[0].handle == handle then Some(0)
    else var rest := FindHandle(records[1..], handle); if rest.None? then None else Some(rest.value + 1)
  }

  function FindEvent(records: seq<Record>, eventID: string): (r: Option<nat>)
    ensures r.None? ==> forall i | 0 <= i < |records| :: records[i].eventID != eventID
    ensures r.Some? ==> r.value < |records| && records[r.value].eventID == eventID
  {
    if records == [] then None
    else if records[0].eventID == eventID then Some(0)
    else var rest := FindEvent(records[1..], eventID); if rest.None? then None else Some(rest.value + 1)
  }

  // ----- Prepare and RecordOutcome -----

  /** The state `Prepare` saves for a handle it does not know yet. */
  function WithPending(s: State, eventID: string, handle: string, requestedAt: string): State
  {
    s.(records := s.records + [Record(eventID, handle, requestedAt, 0, "", Pending)])
  }

  /** `revocation.PublicationResult`; a state outside the three known ones is None. */
  datatype Outcome = Outcome(state: Option<PublicationState>, sequence: nat, blobID: string)

  /** `publicationRecordWithOutcome`. */
  function WithOutcome(r: Record, outcome: Outcome, rules: Rules): Option<Record>
  {
    if outcome.state.None? then None
    else
      var next := r.(state := outcome.state.value, sequence := outcome.sequence, blobID := outcome.blobID);
      if rules.Admits(next) then Some(next) else None
  }

  datatype Verdict = Rejected | Unchanged | Save(index: nat, record: Record)

  /** What `RecordOutcome` decides once it has the current records. */
  function Judge(records: seq<Record>, eventID: string, outcome: Outcome, rules: Rules): Verdict
  {
    var found := FindEvent(records, eventID);
    if found.None? then Rejected
    else
      var current := records[found.value];
      var next := WithOutcome(current, outcome, rules);
      if next.None? then Rejected
      else if next.value == current then Unchanged
      else if current.state.Published? || outcome.sequence < current.sequence then Rejected
      else Save(found.value, next.value)
  }

  // ----- Reconciliation -----

  datatype Entry = Entry(ofLicense: bool, value: string, revokedAt: string)

  /** A remote manifest, verified; the digest in hexadecimal, None for the zero digest. */
  datatype Evidence = Evidence(present: bool, sequence: nat, digest: Option<string>, entries: seq<Entry>)
  {
    function Blob(): string { if digest.None? then "" else "manifest-sha256-" + digest.value }

    predicate Lists(handle: string) { exists i | 0 <= i < |entries| :: entries[i].value == handle }
  }

  const MAX_ENTRIES: nat := 10_000

  /** `validRevocationRestoreEvidence`. */
  predicate ValidEvidence(e: Evidence, rules: Rules)
  {
    if !e.present then e.sequence == 0 && e.digest.None? && e.entries == []
    else
      && e.digest.Some? && |e.entries| <= MAX_ENTRIES && (e.entries != [] ==> e.sequence > 0)
      && (forall i | 0 <= i < |e.entries| ::
            e.entries[i].ofLicense && rules.handle(e.entries[i].value) && rules.time(e.entries[i].revokedAt))
      && (forall i, j | 0 <= i < j < |e.entries| :: e.entries[i].value != e.entries[j].value)
  }

  /** The same test as the program runs it, with a set of the handles seen. */
  method CheckEvidence(e: Evidence, rules: Rules) returns (valid: bool)
    ensures valid == ValidEvidence(e, rules)
  {
    if !e.present { return e.sequence == 0 && e.digest.None? && e.entries == []; }
    if e.digest.None? || |e.entries| > MAX_ENTRIES || (|e.entries| > 0 && e.sequence == 0) { return false; }
    var handles: set<string> := {};
    for i := 0 to |e.entries|
      invariant forall j | 0 <= j < i ::
        e.entries[j].ofLicense && rules.handle(e.entries[j].value) && rules.time(e.entries[j].revokedAt)
      invariant forall j, k | 0 <= j < k < i :: e.entries[j].value != e.entries[k].value
      invariant forall x :: x in handles <==> exists j | 0 <= j < i :: e.entries[j].value == x
    {
      var entry := e.entries[i];
      if !entry.ofLicense || !rules.handle(entry.value) || !rules.time(entry.revokedAt) { return false; }
      if entry.value in handles { return false; }
      handles := handles + {entry.value};
    }
    return true;
  }

  /** The entry of a listed handle. */
  function EntryFor(entries: seq<Entry>, handle: string): (r: Entry)
    requires exists i | 0 <= i < |entries| :: entries[i].value == handle
    ensures r in entries && r.value == handle
  {
    if entries[0].value == handle then entries[0] else EntryFor(entries[1..], handle)
  }

  /** A local record after reconciliation: published as the manifest says, or untouched. */
  function Restamp(r: Record, e: Evidence): Record
  {
    if e.Lists(r.handle) then
      r.(state := Published, sequence := e.sequence, blobID := e.Blob(),
         requestedAt := EntryFor(e.entries, r.handle).revokedAt)
    else r
  }

  function Restamped(records: seq<Record>, e: Evidence): (out: seq<Record>)
    ensures |out| == |records| && forall i | 0 <= i < |out| :: out[i] == Restamp(records[i], e)
  {
    if records == [] then [] else [Restamp(records[0], e)] + Restamped(records[1..], e)
  }

  /** The record made for a handle only the manifest knows. */
  function Imported(entry: Entry, e: Evidence): Record
  {
    Record("remote-restore-" + entry.value, entry.value, entry.revokedAt, e.sequence, e.Blob(), Published)
  }

  predicate Knows(records: seq<Record>, handle: string)
  {
    exists i | 0 <= i < |records| :: records[i].handle == handle
  }

  /** The records for listed handles that `local` lacks, in manifest order. */
  function Missing(entries: seq<Entry>, local: seq<Record>, e: Evidence): seq<Record>
  {
    if entries == [] then []
    else (if Knows(local, entries[0].value) then [] else [Imported(entries[0], e)]) + Missing(entries[1..], local, e)
  }

  function Merged(local: seq<Record>, e: Evidence): seq<Record>
  {
    Restamped(local, e) + Missing(e.entries, local, e)
  }

  /** The manifest denies something this store has published. */
  predicate Contradicts(r: Record, e: Evidence)
  {
    r.state.Published? && (!e.Lists(r.handle) || r.sequence > e.sequence)
  }

  datatype Reconciled = Unavailable | KeyMismatch | Next(state: State)

  function LocalRecords(current: Option<State>, rules: Rules): seq<Record>
  {
    if current.Some? && rules.Valid(current.value) then current.value.records else []
  }

  /** What `reconcileRevocationRestoreState` returns; `current` is None for an empty store. */
  function Reconcile(privateKey: PrivateKey, publicKey: PublicKey, current: Option<State>, e: Evidence, rules: Rules)
    : Reconciled
  {
    var local := LocalRecords(current, rules);
    if publicKey != privateKey.suffix || !ValidEvidence(e, rules) then Unavailable
    else if current.Some? && rules.Valid(current.value) && current.value.publicKey != publicKey then KeyMismatch
    else if exists i | 0 <= i < |local| :: Contradicts(local[i], e) then Unavailable
    else
      var next := State(privateKey, publicKey, true, Merged(local, e));
      if rules.Valid(next) then Next(next) else Unavailable
  }

  /** The same result as the program computes it, record by record, then entry by entry. */
  method ReconcileStates(privateKey: PrivateKey, publicKey: PublicKey, current: Option<State>, e: Evidence,
                         rules: Rules)
    returns (result: Reconciled)
    ensures result == Reconcile(privateKey, publicKey, current, e, rules)
  {
    var evidenceValid := CheckEvidence(e, rules);
    if publicKey != privateKey.suffix || !evidenceValid { return Unavailable; }
    var currentValid := current.Some?;
    if currentValid { currentValid := rules.CheckState(current.value); }
    if currentValid && current.value.publicKey != publicKey { return KeyMismatch; }
    var local := if currentValid then current.value.records else [];
    var agreed, records, known := RestampLocal(local, e);
    if !agreed { return Unavailable; }
    records := AddMissing(records, local, known, e);
    var next := State(privateKey, publicKey, true, records);
    var valid := rules.CheckState(next);
    return if valid then Next(next) else Unavailable;
  }

  method RestampLocal(local: seq<Record>, e: Evidence)
    returns (agreed: bool, records: seq<Record>, known: set<string>)
    ensures agreed <==> forall i | 0 <= i < |local| :: !Contradicts(local[i], e)
    ensures agreed ==> records == Restamped(local, e)
    ensures agreed ==> forall h :: h in known <==> Knows(local, h)
  {
    records, known := [], {};
    for i := 0 to |local|
      invariant |records| == i && forall j | 0 <= j < i :: records[j] == Restamp(local[j], e)
      invariant forall j | 0 <= j < i :: !Contradicts(local[j], e)
      invariant forall h :: h in known <==> Knows(local[..i], h)
    {
      if Contradicts(local[i], e) { return false, records, known; }
      records := records + [Restamp(local[i], e)];
      KnowsMore(local, i);
      known := known + {local[i].handle};
    }
    assert local[..|local|] == local;
    agreed := true;
  }

  lemma KnowsMore(local: seq<Record>, i: nat)
    requires i < |local|
    ensures forall h :: Knows(local[..i + 1], h) <==> Knows(local[..i], h) || h == local[i].handle
  {
    forall h ensures Knows(local[..i + 1], h) <==> Knows(local[..i], h) || h == local[i].handle {
      assert local[..i + 1][i] == local[i];
      assert forall j | 0 <= j < i :: local[..i + 1][j] == local[..i][j];
    }
  }

  method AddMissing(start: seq<Record>, local: seq<Record>, known: set<string>, e: Evidence)
    returns (records: seq<Record>)
    requires forall h :: h in known <==> Knows(local, h)
    ensures records == start + Missing(e.entries, local, e)
  {
    records := start;
    assert e.entries[0..] == e.entries;
    for i := 0 to |e.entries|
      invariant records + Missing(e.entries[i..], local, e) == start + Missing(e.entries, local, e)
    {
      var entry := e.entries[i];
      assert e.entries[i..][1..] == e.entries[i + 1..];
      if entry.value !in known {
        Assoc(records, [Imported(entry, e)], Missing(e.entries[i + 1..], local, e));
        records := records + [Imported(entry, e)];
      } else {
        assert [] + Missing(e.entries[i + 1..], local, e) == Missing(e.entries[i + 1..], local, e);
      }
    }
    assert records + [] == records;
  }
}
