/**
 Several generator processes and one revocation state file: what every save does to the state on disk, and
 what therefore holds along every run (cmd/license-generator/revocation_registry.go,
 revocation_state_windows.go, revocation_persistence_guard.go, service.go).
 */
module RevocationRuns {
  import opened Ordering
  import opened Revocation

  // ----- What reconciliation yields -----

  lemma {:induction false} MissingContents(entries: seq<Entry>, local: seq<Record>, e: Evidence)
    ensures forall r | r in Missing(entries, local, e) ::
      exists i | 0 <= i < |entries| :: r == Imported(entries[i], e) && !Knows(local, entries[i].value)
    ensures forall i | 0 <= i < |entries| && !Knows(local, entries[i].value) ::
      Imported(entries[i], e) in Missing(entries, local, e)
  {
    if entries != [] {
      MissingContents(entries[1..], local, e);
      forall r | r in Missing(entries, local, e)
        ensures exists i | 0 <= i < |entries| :: r == Imported(entries[i], e) && !Knows(local, entries[i].value)
      {
        if r in Missing(entries[1..], local, e) {
          var i :| 0 <= i < |entries[1..]| && r == Imported(entries[1..][i], e) && !Knows(local, entries[1..][i].value);
          assert entries[i + 1] == entries[1..][i];
        } else {
          assert r == Imported(entries[0], e);
        }
      }
      forall i | 0 <= i < |entries| && !Knows(local, entries[i].value)
        ensures Imported(entries[i], e) in Missing(entries, local, e)
      {
        if i > 0 { assert entries[i] == entries[1..][i - 1]; }
      }
    }
  }

  /** The record's handle is published at the manifest's sequence and digest, since the time its entry names. */
  predicate PublishedBy(r: Record, e: Evidence)
  {
    && r.state.Published? && r.sequence == e.sequence && r.blobID == e.Blob()
    && exists entry | entry in e.entries :: entry.value == r.handle && entry.revokedAt == r.requestedAt
  }

  lemma MergedHandles(local: seq<Record>, e: Evidence, h: string)
    ensures Knows(Merged(local, e), h) <==> Knows(local, h) || e.Lists(h)
  {
    hide Missing, Contradicts;
    var stamped, missing, merged := Restamped(local, e), Missing(e.entries, local, e), Merged(local, e);
    MissingContents(e.entries, local, e);
    if Knows(local, h) {
      var i :| 0 <= i < |local| && local[i].handle == h;
      assert merged[i] == stamped[i] && stamped[i].handle == h;
    } else if e.Lists(h) {
      var i :| 0 <= i < |e.entries| && e.entries[i].value == h;
      var k :| 0 <= k < |missing| && missing[k] == Imported(e.entries[i], e);
      assert merged[|stamped| + k] == missing[k];
    }
    if Knows(merged, h) {
      var i :| 0 <= i < |merged| && merged[i].handle == h;
      if i < |stamped| { assert local[i].handle == h; } else { assert merged[i] in missing; }
    }
  }

  lemma MergedRecords(local: seq<Record>, e: Evidence)
    ensures forall i | 0 <= i < |local| :: Merged(local, e)[i] == Restamp(local[i], e)
    ensures forall r | r in Merged(local, e) && e.Lists(r.handle) :: PublishedBy(r, e)
    ensures forall r | r in local && !e.Lists(r.handle) :: r in Merged(local, e)
  {
    MissingContents(e.entries, local, e);
    forall r | r in Merged(local, e) && e.Lists(r.handle) ensures PublishedBy(r, e) {
      if r !in Missing(e.entries, local, e) { assert r in Restamped(local, e); }
    }
    forall r | r in local && !e.Lists(r.handle) ensures r in Merged(local, e) {
      var i :| 0 <= i < |local| && local[i] == r;
      assert Merged(local, e)[i] == r;
    }
  }

  /**
   Successful reconciliation: the handles are those of both sides, each once; every listed one is published
   at the manifest's sequence; a local record the manifest does not list is kept as it was, and it was
   never published.
   */
  lemma ReconcileMeaning(privateKey: PrivateKey, publicKey: PublicKey, current: Option<State>, e: Evidence,
                         rules: Rules, next: State)
    requires Reconcile(privateKey, publicKey, current, e, rules) == Next(next)
    ensures rules.Valid(next) && next.confirmed && next.publicKey == publicKey && next.privateKey == privateKey
    ensures forall h :: Knows(next.records, h) <==> Knows(LocalRecords(current, rules), h) || e.Lists(h)
    ensures forall r | r in next.records && e.Lists(r.handle) :: PublishedBy(r, e)
    ensures forall r | r in LocalRecords(current, rules) && !e.Lists(r.handle) ::
              r in next.records && !r.state.Published?
  {
    var local := LocalRecords(current, rules);
    forall h ensures Knows(next.records, h) <==> Knows(local, h) || e.Lists(h) { MergedHandles(local, e, h); }
    MergedRecords(local, e);
    forall r | r in local && !e.Lists(r.handle) ensures !r.state.Published? {
      var i :| 0 <= i < |local| && local[i] == r;
      assert !Contradicts(local[i], e);
    }
  }

  /** What reconciliation demands of a manifest: none at all, or one that is signed, not too long and well formed. */
  ghost predicate Trustworthy(e: Evidence, rules: Rules)
  {
    if !e.present then e == Evidence(false, 0, None, [])
    else
      && e.digest.Some? && |e.entries| <= 10_000 && (e.sequence == 0 ==> e.entries == [])
      && (forall entry | entry in e.entries ::
            entry.ofLicense && rules.handle(entry.value) && rules.time(entry.revokedAt))
      && forall i, j | 0 <= i < |e.entries| && 0 <= j < |e.entries| && e.entries[i].value == e.entries[j].value ::
           i == j
  }

  /** The event id of a record the manifest brings in. */
  function RestoredID(handle: string): string { "remote-restore-" + handle }

  lemma RestoredApart(a: string, b: string)
    ensures RestoredID(a) == RestoredID(b) ==> a == b
  {
    assert RestoredID(a)[|"remote-restore-"|..] == a && RestoredID(b)[|"remote-restore-"|..] == b;
  }

  /** The records differ in handles and in event ids. */
  ghost predicate AllApart(records: seq<Record>)
  {
    forall i, j | 0 <= i < j < |records| ::
      records[i].eventID != records[j].eventID && records[i].handle != records[j].handle
  }

  lemma ApartCons(r: Record, rest: seq<Record>)
    requires AllApart(rest) && forall t | t in rest :: t.eventID != r.eventID && t.handle != r.handle
    ensures AllApart([r] + rest)
  {
  }

  lemma {:induction false} MissingDistinct(entries: seq<Entry>, local: seq<Record>, e: Evidence)
    requires forall j, k | 0 <= j < k < |entries| :: entries[j].value != entries[k].value
    ensures AllApart(Missing(entries, local, e))
  {
    if entries != [] {
      MissingDistinct(entries[1..], local, e);
      MissingContents(entries[1..], local, e);
      forall r | r in Missing(entries[1..], local, e)
        ensures r.handle != entries[0].value && r.eventID != RestoredID(entries[0].value)
      {
        var k :| 0 <= k < |entries[1..]| && r == Imported(entries[1..][k], e);
        assert entries[1..][k] == entries[k + 1];
        RestoredApart(r.handle, entries[0].value);
      }
      assert Imported(entries[0], e).eventID == RestoredID(entries[0].value);
      ApartCons(Imported(entries[0], e), Missing(entries[1..], local, e));
      assert [] + Missing(entries[1..], local, e) == Missing(entries[1..], local, e);
    }
  }

  /** The merged records are admissible, each by itself. */
  lemma MergedAdmitted(local: seq<Record>, e: Evidence, rules: Rules)
    requires (forall r | r in local :: rules.Admits(r)) && ValidEvidence(e, rules)
    ensures (forall r | r in Merged(local, e) :: rules.Admits(r)) <==>
            && (e.entries != [] ==> rules.Text(e.Blob()))
            && forall i | 0 <= i < |e.entries| && !Knows(local, e.entries[i].value) ::
                 rules.Text(RestoredID(e.entries[i].value))
  {
    hide Missing, Contradicts, rules.Text, Evidence.Blob;
    var merged, missing := Merged(local, e), Missing(e.entries, local, e);
    MissingContents(e.entries, local, e);
    assert forall r :: r in merged <==> r in Restamped(local, e) || r in missing;
    if e.entries != [] && (forall r | r in merged :: rules.Admits(r)) {
      MergedListed(local, e, 0);
      var r :| r in merged && r.state.Published? && r.blobID == e.Blob();
      assert rules.Admits(r);
    }
    forall i | 0 <= i < |e.entries| && !Knows(local, e.entries[i].value)
      ensures (forall r | r in merged :: rules.Admits(r)) ==> rules.Text(RestoredID(e.entries[i].value))
    {
      MergedListed(local, e, i);
      assert Imported(e.entries[i], e).eventID == RestoredID(e.entries[i].value);
    }
    if (e.entries != [] ==> rules.Text(e.Blob()))
       && forall i | 0 <= i < |e.entries| && !Knows(local, e.entries[i].value) ::
            rules.Text(RestoredID(e.entries[i].value))
    {
      forall r | r in merged ensures rules.Admits(r) {
        if r in missing {
          var i :| 0 <= i < |e.entries| && r == Imported(e.entries[i], e) && !Knows(local, e.entries[i].value);
        } else {
          var i :| 0 <= i < |local| && r == Restamp(local[i], e);
          assert local[i] in local && rules.Admits(local[i]);
        }
      }
    }
  }

  lemma MergedListed(local: seq<Record>, e: Evidence, i: nat)
    requires i < |e.entries|
    ensures exists r :: r in Merged(local, e) && r.state.Published? && r.blobID == e.Blob()
    ensures !Knows(local, e.entries[i].value) ==> Imported(e.entries[i], e) in Merged(local, e)
  {
    MissingContents(e.entries, local, e);
    var h := e.entries[i].value;
    assert e.Lists(h);
    if Knows(local, h) {
      var k :| 0 <= k < |local| && local[k].handle == h;
      assert Merged(local, e)[k] == Restamp(local[k], e) && Merged(local, e)[k] in Merged(local, e);
    } else {
      assert Imported(e.entries[i], e) in Missing(e.entries, local, e);
      assert Imported(e.entries[i], e) in Merged(local, e);
    }
  }

  /** Two lists, each apart in itself, are apart together when no pair across them meets. */
  lemma ApartTogether(a: seq<Record>, b: seq<Record>)
    requires AllApart(a) && AllApart(b)
    ensures AllApart(a + b) <==>
            forall r, t | r in a && t in b :: r.eventID != t.eventID && r.handle != t.handle
  {
    var all := a + b;
    if AllApart(all) {
      forall r, t | r in a && t in b ensures r.eventID != t.eventID && r.handle != t.handle {
        var i :| 0 <= i < |a| && a[i] == r;
        var k :| 0 <= k < |b| && b[k] == t;
        assert all[i] == r && all[|a| + k] == t;
      }
    }
  }

  lemma MergedApart(local: seq<Record>, e: Evidence)
    requires AllApart(local)
    requires forall j, k | 0 <= j < k < |e.entries| :: e.entries[j].value != e.entries[k].value
    ensures AllApart(Merged(local, e)) <==>
            forall i, j | 0 <= i < |e.entries| && !Knows(local, e.entries[i].value) && 0 <= j < |local| ::
              local[j].eventID != RestoredID(e.entries[i].value)
  {
    var stamped, missing := Restamped(local, e), Missing(e.entries, local, e);
    MissingContents(e.entries, local, e);
    MissingDistinct(e.entries, local, e);
    StampedNames(local, e);
    hide Missing, Contradicts, Restamped;
    ApartTogether(stamped, missing);
    if AllApart(Merged(local, e)) {
      forall i, j | 0 <= i < |e.entries| && !Knows(local, e.entries[i].value) && 0 <= j < |local|
        ensures local[j].eventID != RestoredID(e.entries[i].value)
      {
        assert stamped[j] in stamped && Imported(e.entries[i], e) in missing;
      }
    } else {
      var r, t :| r in stamped && t in missing && (r.eventID == t.eventID || r.handle == t.handle);
      var j :| 0 <= j < |stamped| && stamped[j] == r;
      var n :| 0 <= n < |e.entries| && t == Imported(e.entries[n], e) && !Knows(local, e.entries[n].value);
      assert local[j].handle != e.entries[n].value;
    }
  }

  lemma StampedNames(local: seq<Record>, e: Evidence)
    requires AllApart(local)
    ensures var stamped := Restamped(local, e);
            && AllApart(stamped)
            && forall i | 0 <= i < |local| ::
                 stamped[i].eventID == local[i].eventID && stamped[i].handle == local[i].handle
  {
  }

  /**
   Exactly when reconciliation succeeds: the key is a pair; the manifest is trustworthy; a valid store has the same key
   and has published nothing that the manifest does not list at no lower sequence; the manifest's digest makes a
   valid identifier if it lists anything; and the handles it brings in make event ids that are valid and new.
   */
  lemma ReconcileExact(privateKey: PrivateKey, publicKey: PublicKey, current: Option<State>, e: Evidence, rules: Rules)
    ensures var local := if current.Some? && rules.Valid(current.value) then current.value.records else [];
            Reconcile(privateKey, publicKey, current, e, rules).Next? <==>
            && privateKey.suffix == publicKey == PublicOf(privateKey.seed) && Trustworthy(e, rules)
            && (current.Some? && rules.Valid(current.value) ==> current.value.publicKey == publicKey)
            && (forall r | r in local && r.state.Published? ::
                  r.sequence <= e.sequence && exists i | 0 <= i < |e.entries| :: e.entries[i].value == r.handle)
            && (e.entries != [] ==> rules.Text(e.Blob()))
            && forall i | 0 <= i < |e.entries| && (forall r | r in local :: r.handle != e.entries[i].value) ::
                 && rules.Text("remote-restore-" + e.entries[i].value)
                 && forall r | r in local :: r.eventID != "remote-restore-" + e.entries[i].value
    ensures Reconcile(privateKey, publicKey, current, e, rules) == KeyMismatch <==>
            && privateKey.suffix == publicKey && Trustworthy(e, rules)
            && current.Some? && rules.Valid(current.value) && current.value.publicKey != publicKey
  {
    hide Merged, rules.Text, rules.Admits, Evidence.Blob;
    var local := LocalRecords(current, rules);
    TrustworthyValid(e, rules);
    hide Trustworthy, ValidEvidence;
    NoneContradicts(local, e);
    hide Contradicts;
    KnownHandles(local, e);
    if ValidEvidence(e, rules) {
      assert rules.ValidRecords(local);
      MergedAdmitted(local, e, rules);
      EvidenceApart(e, rules);
      MergedApart(local, e);
    }
  }

  lemma TrustworthyValid(e: Evidence, rules: Rules)
    ensures Trustworthy(e, rules) <==> ValidEvidence(e, rules)
  {
  }

  lemma EvidenceApart(e: Evidence, rules: Rules)
    requires ValidEvidence(e, rules)
    ensures forall j, k | 0 <= j < k < |e.entries| :: e.entries[j].value != e.entries[k].value
  {
  }

  lemma NoneContradicts(local: seq<Record>, e: Evidence)
    ensures (forall i | 0 <= i < |local| :: !Contradicts(local[i], e)) <==>
            forall r | r in local && r.state.Published? ::
              r.sequence <= e.sequence && exists i | 0 <= i < |e.entries| :: e.entries[i].value == r.handle
  {
    forall i | 0 <= i < |local| ensures local[i] in local {}
  }

  lemma KnownHandles(local: seq<Record>, e: Evidence)
    ensures forall i | 0 <= i < |e.entries| ::
              !Knows(local, e.entries[i].value) <==> forall r | r in local :: r.handle != e.entries[i].value
    ensures forall i | 0 <= i < |e.entries| ::
              (forall r | r in local :: r.eventID != RestoredID(e.entries[i].value)) <==>
              forall j | 0 <= j < |local| :: local[j].eventID != RestoredID(e.entries[i].value)
  {
  }

  /** The local records stay where they were under their names; those the manifest brings in follow. */
  lemma ReconcileOrder(privateKey: PrivateKey, publicKey: PublicKey, current: Option<State>, e: Evidence, rules: Rules,
                       next: State)
    requires Reconcile(privateKey, publicKey, current, e, rules) == Next(next)
    ensures var local := LocalRecords(current, rules);
            && |local| <= |next.records|
            && (forall i | 0 <= i < |local| ::
                  next.records[i].eventID == local[i].eventID && next.records[i].handle == local[i].handle)
            && (|local| < |next.records| ==> e.digest.Some?)
            && forall i | |local| <= i < |next.records| ::
                 && next.records[i].eventID == RestoredID(next.records[i].handle)
                 && next.records[i].blobID == "manifest-sha256-" + e.digest.value
  {
    var local := LocalRecords(current, rules);
    MissingContents(e.entries, local, e);
    hide rules.Valid, Contradicts, Missing, LocalRecords;
    assert |local| < |next.records| ==> next.records[|local|] in Missing(e.entries, local, e);
    forall i | |local| <= i < |next.records|
      ensures next.records[i].eventID == RestoredID(next.records[i].handle)
      ensures next.records[i].blobID == e.Blob()
    {
      assert next.records[i] in Missing(e.entries, local, e);
    }
    forall i | 0 <= i < |local|
      ensures next.records[i].eventID == local[i].eventID && next.records[i].handle == local[i].handle
    {
      assert next.records[i] == Restamp(local[i], e);
    }
  }

  lemma {:induction false} EntryForUnique(entries: seq<Entry>, i: nat)
    requires i < |entries| && forall j, k | 0 <= j < k < |entries| :: entries[j].value != entries[k].value
    ensures EntryFor(entries, entries[i].value) == entries[i]
  {
    var found := EntryFor(entries, entries[i].value);
    var j :| 0 <= j < |entries| && entries[j] == found;
  }

  lemma {:induction false} NothingMissing(entries: seq<Entry>, local: seq<Record>, e: Evidence)
    requires forall i | 0 <= i < |entries| :: Knows(local, entries[i].value)
    ensures Missing(entries, local, e) == []
  {
    if entries != [] {
      assert Knows(local, entries[0].value);
      assert forall i | 0 <= i < |entries[1..]| :: entries[1..][i] == entries[i + 1];
      NothingMissing(entries[1..], local, e);
    }
  }

  lemma MergedSettled(local: seq<Record>, e: Evidence, i: nat)
    requires i < |Merged(local, e)| && forall j | 0 <= j < |local| :: !Contradicts(local[j], e)
    requires forall j, k | 0 <= j < k < |e.entries| :: e.entries[j].value != e.entries[k].value
    ensures Restamp(Merged(local, e)[i], e) == Merged(local, e)[i] && !Contradicts(Merged(local, e)[i], e)
  {
    var r := Merged(local, e)[i];
    if i < |local| {
      assert r == Restamp(local[i], e) && !Contradicts(local[i], e);
    } else {
      MissingContents(e.entries, local, e);
      assert r in Missing(e.entries, local, e);
      var k :| 0 <= k < |e.entries| && r == Imported(e.entries[k], e);
      EntryForUnique(e.entries, k);
    }
  }

  /** Reconciling again with the same evidence changes nothing. */
  lemma ReconcileIdempotent(privateKey: PrivateKey, publicKey: PublicKey, current: Option<State>, e: Evidence,
                            rules: Rules, next: State)
    requires Reconcile(privateKey, publicKey, current, e, rules) == Next(next)
    ensures Reconcile(privateKey, publicKey, Some(next), e, rules) == Next(next)
  {
    hide Restamp, Contradicts, Missing, Imported, EntryFor, Knows;
    var local := LocalRecords(current, rules);
    forall i | 0 <= i < |next.records|
      ensures Restamp(next.records[i], e) == next.records[i] && !Contradicts(next.records[i], e)
    { MergedSettled(local, e, i); }
    assert Restamped(next.records, e) == next.records;
    forall i | 0 <= i < |e.entries| ensures Knows(next.records, e.entries[i].value) {
      MergedHandles(local, e, e.entries[i].value);
    }
    NothingMissing(e.entries, next.records, e);
    assert Merged(next.records, e) == next.records + [] == next.records;
  }

  /** One listed record is all there is: it takes on the manifest's stamp. */
  lemma OneRecordRestamped(key: PrivateKey, r: Record, e: Evidence, rules: Rules)
    requires KeyPair(key, key.suffix) && ValidEvidence(e, rules) && rules.Admits(r) && rules.Admits(Restamp(r, e))
    requires |e.entries| == 1 && e.entries[0].value == r.handle && !Contradicts(r, e)
    ensures rules.Valid(State(key, key.suffix, false, [r]))
    ensures Reconcile(key, key.suffix, Some(State(key, key.suffix, false, [r])), e, rules)
            == Next(State(key, key.suffix, true, [Restamp(r, e)]))
  {
    var records := [r];
    assert Knows(records, r.handle) by { assert records[0].handle == r.handle; }
    assert Missing(e.entries[1..], records, e) == [];
    assert Missing(e.entries, records, e) == [];
    assert Restamped(records, e) == [Restamp(r, e)];
    assert Merged(records, e) == [Restamp(r, e)] + [] == [Restamp(r, e)];
  }

  /** A pending record's sequence may go down: only published records are guarded against it. */
  lemma PendingSequenceMayDrop() returns (rules: Rules, before: State, e: Evidence, after: State)
    ensures rules.Valid(before) && ValidEvidence(e, rules)
    ensures Reconcile(before.privateKey, before.publicKey, Some(before), e, rules) == Next(after)
    ensures |before.records| == |after.records| == 1 && before.records[0].handle == after.records[0].handle
    ensures before.records[0].state.Pending? && after.records[0].sequence < before.records[0].sequence
  {
    rules := Rules(s => true, s => true, s => true);
    var key := PrivateKey(1, PublicOf(1));
    var record := Record("event", "handle", "2026-01-01T00:00:00Z", 5, "blob", Pending);
    e := Evidence(true, 3, Some("aa"), [Entry(true, "handle", "2026-01-01T00:00:00Z")]);
    assert e.entries[0].value == "handle" && e.Lists("handle");
    hide Reconcile;
    OneRecordRestamped(key, record, e, rules);
    before, after := State(key, PublicOf(1), false, [record]), State(key, PublicOf(1), true, [Restamp(record, e)]);
  }

  // ----- The state file and one process's view of it -----

  /** The bytes of the state file. Sealing the private key is randomised: `salt`. Other bytes do not decode. */
  datatype Image = Image(state: State, salt: nat) | Damaged(bytes: nat)

  function Decode(image: Image, rules: Rules): Option<State>
  {
    if image.Image? && rules.Valid(image.state) then Some(image.state) else None
  }

  /** SHA-256, taken to be free of collisions. */
  datatype Digest = Zero | Sha256(image: Image)

  /** `revocationStateBaseline`. */
  datatype Baseline = Baseline(initialized: bool, found: bool, digest: Digest)

  function Observed(file: Option<Image>): Baseline
  {
    Baseline(true, file.Some?, if file.Some? then Sha256(file.value) else Zero)
  }

  predicate Matches(b: Baseline, file: Option<Image>)
  {
    b.initialized && b.found == file.Some? && (file.Some? ==> b.digest == Sha256(file.value))
  }

  // ----- One process -----

  datatype Operation =
    | Prepare(handle: string, eventID: string, requestedAt: string)
    | RecordOutcome(event: string, outcome: Outcome)
    | ConfirmBackup
    | RestoreV3(key: PrivateKey, evidence: Evidence)
    | RestoreOlder
    | Provision(seed: nat)

  /** What an operation that has read `s` wants to save; None when it saves nothing. */
  function Plan(s: State, op: Operation, rules: Rules): Option<State>
  {
    match op
    case Prepare(handle, eventID, requestedAt) =>
      var next := WithPending(s, eventID, handle, requestedAt);
      if rules.handle(handle) && rules.time(requestedAt) && FindHandle(s.records, handle).None? && rules.Valid(next)
      then Some(next) else None
    case RecordOutcome(event, outcome) =>
      var verdict := Judge(s.records, event, outcome, rules);
      if !verdict.Save? then None
      else
        var next := s.(records := s.records[verdict.index := verdict.record]);
        if rules.Valid(next) then Some(next) else None
    case ConfirmBackup => if s.confirmed then None else Some(s.(confirmed := true))
    case RestoreV3(key, evidence) =>
      var result := Reconcile(key, key.suffix, Some(s), evidence, rules);
      if result.Next? then Some(result.state) else None
    case RestoreOlder => if s.confirmed then Some(s.(confirmed := false)) else None
    case Provision(_) => None
  }

  /** The first state of a store: keys just generated, no records. */
  function Fresh(seed: nat): State
  {
    State(PrivateKey(seed, PublicOf(seed)), PublicOf(seed), false, [])
  }

  /** What may be written where no file exists: a fresh state, or what the manifest alone yields. */
  function PlanFirst(op: Operation, rules: Rules): Option<State>
  {
    match op
    case RestoreV3(key, evidence) =>
      var result := Reconcile(key, key.suffix, None, evidence, rules);
      if result.Next? then Some(result.state) else None
    case Provision(seed) => Some(Fresh(seed))
    case _ => None
  }

  datatype Pending = Idle | Saving(op: Operation, next: State)

  /** A process: its repository's baseline, the state it holds, whether it waits to be restored, its unfinished save. */
  datatype Service = Service(baseline: Baseline, memory: Option<State>, restore: bool, pending: Pending)

  const STOPPED := Service(Baseline(false, false, Zero), None, false, Idle)

  /** `newGeneratorServiceWithRevocation`: read the file; without one wait for a restore or plan a fresh state. */
  function Boot(file: Option<Image>, remoteAbsent: bool, seed: nat, rules: Rules): Service
  {
    var baseline := Observed(file);
    if file.None? then
      if remoteAbsent then Service(baseline, None, false, Saving(Provision(seed), Fresh(seed)))
      else Service(baseline, None, true, Idle)
    else Service(baseline, Decode(file.value, rules), false, Idle)
  }

  /** `refreshRevocationStateLocked`: the read always moves the baseline; the memory follows if it fits. */
  function Refresh(s: Service, file: Option<Image>, rules: Rules): (r: (Service, bool))
    requires s.memory.Some?
  {
    var loaded := if file.None? then None else Decode(file.value, rules);
    var read := s.(baseline := Observed(file));
    if loaded.None? || loaded.value.publicKey != s.memory.value.publicKey then (read, false)
    else
      var memory := s.memory.value.(confirmed := loaded.value.confirmed, records := loaded.value.records);
      (read.(memory := Some(memory)), true)
  }

  /** The first half of an operation, up to the moment before its save. */
  function Begin(s: Service, file: Option<Image>, op: Operation, rules: Rules): Service
  {
    if s.pending.Saving? then s
    else if s.restore then
      var first := PlanFirst(op, rules);
      if first.None? then s else s.(pending := Saving(op, first.value))
    else if s.memory.None? then s
    else
      var (read, ok) := Refresh(s, file, rules);
      if !ok then read
      else
        var next := Plan(read.memory.value, op, rules);
        if next.None? then read else read.(pending := Saving(op, next.value))
  }

  /** The save: it replaces the file only if the file is still the one the baseline describes. */
  function Finish(s: Service, file: Option<Image>, salt: nat, works: bool): (r: (Service, Option<Image>))
  {
    if s.pending.Idle? then (s, file)
    else if works && Matches(s.baseline, file) then
      var image := Image(s.pending.next, salt);
      (Service(Observed(Some(image)), Some(s.pending.next), false, Idle), Some(image))
    else (s.(pending := Idle), file)
  }

  // ----- Any number of processes -----

  datatype System = System(file: Option<Image>, services: seq<Service>)

  /** A process starts (perhaps after a crash), begins an operation, or finishes one. */
  datatype Event =
    | Starts(who: nat, remoteAbsent: bool, seed: nat)
    | Begins(who: nat, op: Operation)
    | Finishes(who: nat, salt: nat, works: bool)

  function Step(sys: System, event: Event, rules: Rules): System
  {
    if event.who >= |sys.services| then sys
    else
      var s := sys.services[event.who];
      match event
      case Starts(who, remoteAbsent, seed) =>
        sys.(services := sys.services[who := Boot(sys.file, remoteAbsent, seed, rules)])
      case Begins(who, op) => sys.(services := sys.services[who := Begin(s, sys.file, op, rules)])
      case Finishes(who, salt, works) =>
        var (s', file) := Finish(s, sys.file, salt, works);
        System(file, sys.services[who := s'])
  }

  function Run(sys: System, events: seq<Event>, rules: Rules): System
    decreases |events|
  {
    if events == [] then sys else Run(Step(sys, events[0], rules), events[1..], rules)
  }

  /** The save planned is the one its operation would make of the very file the baseline describes. */
  predicate Justified(b: Baseline, op: Operation, next: State, rules: Rules)
  {
    && b.initialized
    && if !b.found then PlanFirst(op, rules) == Some(next)
       else
         && b.digest.Sha256? && Decode(b.digest.image, rules).Some?
         && Plan(Decode(b.digest.image, rules).value, op, rules) == Some(next)
  }

  predicate Sound(s: Service, rules: Rules)
  {
    && (s.memory.Some? ==> rules.Valid(s.memory.value))
    && (s.restore ==> s.baseline == Observed(None))
    && (s.pending.Saving? ==> rules.Valid(s.pending.next) && Justified(s.baseline, s.pending.op, s.pending.next, rules))
  }

  predicate Invariant(sys: System, rules: Rules)
  {
    && (sys.file.Some? ==> Decode(sys.file.value, rules).Some?)
    && forall s | s in sys.services :: Sound(s, rules)
  }

  /** Ids stay, a published record stays published, and its sequence never goes down. */
  predicate RecordAdvances(a: Record, b: Record)
  {
    && a.eventID == b.eventID && a.handle == b.handle
    && (a.state.Published? ==> b.state.Published? && a.sequence <= b.sequence)
  }

  /** Same keys, no record lost or moved, each one advanced. */
  predicate Advances(a: State, b: State)
  {
    && a.publicKey == b.publicKey && a.privateKey == b.privateKey && |a.records| <= |b.records|
    && forall i | 0 <= i < |a.records| :: RecordAdvances(a.records[i], b.records[i])
  }

  lemma PlanAdvances(s: State, op: Operation, rules: Rules)
    requires rules.Valid(s) && Plan(s, op, rules).Some?
    ensures rules.Valid(Plan(s, op, rules).value) && Advances(s, Plan(s, op, rules).value)
  {
    var next := Plan(s, op, rules).value;
    if op.RestoreV3? {
      MergedRecords(s.records, op.evidence);
      forall i | 0 <= i < |s.records| ensures RecordAdvances(s.records[i], next.records[i]) {
        assert !Contradicts(s.records[i], op.evidence);
        assert next.records[i] == Restamp(s.records[i], op.evidence);
      }
    }
  }

  /** The record an outcome asks for, whatever it held before. */
  predicate Carries(r: Record, before: Record, outcome: Outcome)
  {
    && r.eventID == before.eventID && r.handle == before.handle && r.requestedAt == before.requestedAt
    && Some(r.state) == outcome.state && r.sequence == outcome.sequence && r.blobID == outcome.blobID
  }

  /** An outcome may be recorded here: the record is unpublished, and the outcome is valid, new and not older. */
  predicate Awaits(before: Record, outcome: Outcome, rules: Rules)
  {
    && !before.state.Published? && outcome.state.Some? && before.sequence <= outcome.sequence
    && var r := before.(state := outcome.state.value, sequence := outcome.sequence, blobID := outcome.blobID);
       rules.Admits(r) && r != before
  }

  lemma {:induction false} FindEventUnique(records: seq<Record>, i: nat)
    requires i < |records| && forall j, k | 0 <= j < k < |records| :: records[j].eventID != records[k].eventID
    ensures FindEvent(records, records[i].eventID) == Some(i)
  {
    var found := FindEvent(records, records[i].eventID);
    assert found.Some? && records[found.value].eventID == records[i].eventID;
  }

  /** An outcome leads to a save exactly when its event's record awaits it; then that one record carries it. */
  lemma OutcomeExact(s: State, event: string, outcome: Outcome, rules: Rules)
    requires rules.Valid(s)
    ensures var next := Plan(s, RecordOutcome(event, outcome), rules);
      && (next.Some? <==> exists i | 0 <= i < |s.records| ::
            s.records[i].eventID == event && Awaits(s.records[i], outcome, rules))
      && (next.Some? ==> forall i | 0 <= i < |s.records| && s.records[i].eventID == event ::
            && |next.value.records| == |s.records|
            && Carries(next.value.records[i], s.records[i], outcome)
            && next.value == s.(records := s.records[i := next.value.records[i]]))
  {
    forall i | 0 <= i < |s.records| && s.records[i].eventID == event ensures FindEvent(s.records, event) == Some(i) {
      FindEventUnique(s.records, i);
    }
    var verdict := Judge(s.records, event, outcome, rules);
    if verdict.Save? {
      var next := s.(records := s.records[verdict.index := verdict.record]);
      assert s.records[verdict.index].eventID == event && Awaits(s.records[verdict.index], outcome, rules);
      assert rules.ValidRecords(next.records);
    }
  }

  /** The record is what the outcome says already. */
  predicate Bears(r: Record, outcome: Outcome)
  {
    outcome.state == Some(r.state) && outcome.sequence == r.sequence && outcome.blobID == r.blobID
  }

  lemma UnchangedExact(s: State, event: string, outcome: Outcome, rules: Rules)
    requires rules.Valid(s)
    ensures Judge(s.records, event, outcome, rules).Unchanged? <==>
            exists i | 0 <= i < |s.records| :: s.records[i].eventID == event && Bears(s.records[i], outcome)
  {
    hide rules.Text;
    forall i | 0 <= i < |s.records| && s.records[i].eventID == event ensures FindEvent(s.records, event) == Some(i) {
      FindEventUnique(s.records, i);
    }
    var found := FindEvent(s.records, event);
    if found.Some? { assert s.records[found.value] in s.records; }
  }

  /** A preparation leads to a save exactly for an unknown handle, and appends its pending record. */
  lemma PrepareExact(s: State, handle: string, eventID: string, requestedAt: string, rules: Rules)
    requires rules.Valid(s)
    ensures var next := Plan(s, Prepare(handle, eventID, requestedAt), rules);
      && (next.Some? <==>
            && !Knows(s.records, handle) && rules.handle(handle) && rules.time(requestedAt) && rules.Text(eventID)
            && forall i | 0 <= i < |s.records| :: s.records[i].eventID != eventID)
      && (next.Some? ==>
            next.value == s.(records := s.records + [Record(eventID, handle, requestedAt, 0, "", Pending)]))
  {
    var r := Record(eventID, handle, requestedAt, 0, "", Pending);
    var all := s.records + [r];
    assert all[|s.records|] == r && r in all;
    assert forall i | 0 <= i < |s.records| :: all[i] == s.records[i];
    if !Knows(s.records, handle) && rules.handle(handle) && rules.time(requestedAt) && rules.Text(eventID)
       && forall i | 0 <= i < |s.records| :: s.records[i].eventID != eventID {
      assert rules.ValidRecords(all);
    }
    if rules.ValidRecords(all) {
      forall i | 0 <= i < |s.records| ensures s.records[i].eventID != eventID {
        assert all[i].eventID != all[|s.records|].eventID;
      }
    }
  }

  /**
   Exactly when a record's sequence goes down: a restore with a revocation key lists the record's handle in a manifest
   with a lower sequence. For a published record such a manifest is refused, so only unpublished ones are affected.
   */
  lemma DropsExactly(s: State, op: Operation, rules: Rules, i: nat)
    requires rules.Valid(s) && Plan(s, op, rules).Some? && i < |s.records|
    ensures i < |Plan(s, op, rules).value.records|
    ensures Plan(s, op, rules).value.records[i].sequence < s.records[i].sequence <==>
            op.RestoreV3? && op.evidence.Lists(s.records[i].handle) && op.evidence.sequence < s.records[i].sequence
    ensures s.records[i].state.Published? ==>
      s.records[i].sequence <= Plan(s, op, rules).value.records[i].sequence
  {
    hide Plan, rules.Valid;
    PlanAdvances(s, op, rules);
    if op.RestoreV3? { RestoreStamps(s, op, rules, i); } else { OthersNeverDrop(s, op, rules, i); }
  }

  lemma RestoreStamps(s: State, op: Operation, rules: Rules, i: nat)
    requires op.RestoreV3? && rules.Valid(s) && Plan(s, op, rules).Some? && i < |s.records|
    ensures i < |Plan(s, op, rules).value.records|
    ensures Plan(s, op, rules).value.records[i] == Restamp(s.records[i], op.evidence)
  {
    hide rules.Valid, ValidEvidence, KeyPair, Contradicts, Missing, Restamp;
    MergedRecords(s.records, op.evidence);
  }

  lemma OthersNeverDrop(s: State, op: Operation, rules: Rules, i: nat)
    requires !op.RestoreV3? && rules.Valid(s) && Plan(s, op, rules).Some? && i < |s.records|
    ensures i < |Plan(s, op, rules).value.records|
    ensures s.records[i].sequence <= Plan(s, op, rules).value.records[i].sequence
  {
    hide rules.Valid;
  }

  /** The operations that are about the flag change the flag and nothing else. */
  lemma FlagPlansExact(s: State, rules: Rules)
    ensures Plan(s, ConfirmBackup, rules)
            == if s.confirmed then None else Some(State(s.privateKey, s.publicKey, true, s.records))
    ensures Plan(s, RestoreOlder, rules)
            == if s.confirmed then Some(State(s.privateKey, s.publicKey, false, s.records)) else None
  {
  }

  /** A restore into a store that has a state. */
  lemma RestorePlanExact(s: State, key: PrivateKey, e: Evidence, rules: Rules)
    requires rules.Valid(s)
    ensures Plan(s, RestoreV3(key, e), rules).Some? <==>
            && key == s.privateKey && Trustworthy(e, rules) && (e.entries != [] ==> rules.Text(e.Blob()))
            && (forall r | r in s.records && r.state.Published? ::
                  r.sequence <= e.sequence && exists i | 0 <= i < |e.entries| :: e.entries[i].value == r.handle)
            && forall i | 0 <= i < |e.entries| && (forall r | r in s.records :: r.handle != e.entries[i].value) ::
                 && rules.Text(RestoredID(e.entries[i].value))
                 && forall r | r in s.records :: r.eventID != RestoredID(e.entries[i].value)
  {
    ReconcileExact(key, key.suffix, Some(s), e, rules);
    hide Reconcile, Trustworthy, rules.Text, rules.ValidRecords, Evidence.Blob;
  }

  /** A restore into an empty store: the key is a pair, and all the manifest lists makes valid records. */
  ghost predicate FirstRestorable(key: PrivateKey, e: Evidence, rules: Rules)
  {
    && key.suffix == PublicOf(key.seed) && Trustworthy(e, rules) && (e.entries != [] ==> rules.Text(e.Blob()))
    && forall i | 0 <= i < |e.entries| :: rules.Text(RestoredID(e.entries[i].value))
  }

  lemma FirstRestoreExact(key: PrivateKey, e: Evidence, rules: Rules)
    ensures var first := PlanFirst(RestoreV3(key, e), rules);
            && (first.Some? <==> FirstRestorable(key, e, rules))
            && (first.Some? ==>
                  && first.value.privateKey == key && first.value.publicKey == key.suffix && first.value.confirmed
                  && first.value.records
                     == seq(|e.entries|, i requires 0 <= i < |e.entries| => Imported(e.entries[i], e)))
  {
    ReconcileExact(key, key.suffix, None, e, rules);
    AllMissing(e.entries, e);
    hide Trustworthy, rules.Text, rules.ValidRecords, Evidence.Blob;
  }

  lemma {:induction false} AllMissing(entries: seq<Entry>, e: Evidence)
    ensures Missing(entries, [], e) == seq(|entries|, i requires 0 <= i < |entries| => Imported(entries[i], e))
  {
    if entries != [] { AllMissing(entries[1..], e); }
  }

  /** A baseline fits just the file it was taken from. */
  lemma MatchesExact(seen: Option<Image>, file: Option<Image>)
    ensures Matches(Observed(seen), file) <==> file == seen
  {
  }

  lemma PlanFirstValid(op: Operation, rules: Rules)
    ensures PlanFirst(op, rules).Some? ==> rules.Valid(PlanFirst(op, rules).value)
  {
  }

  /** A refreshed memory is exactly the decoded file: equal public keys mean equal private keys. */
  lemma RefreshExact(s: Service, file: Option<Image>, rules: Rules)
    requires Sound(s, rules) && s.memory.Some? && Refresh(s, file, rules).1
    ensures file.Some? && Refresh(s, file, rules).0.memory == Decode(file.value, rules)
    ensures Refresh(s, file, rules).0.baseline == Observed(file)
  {
  }

  lemma BeginSound(s: Service, file: Option<Image>, op: Operation, rules: Rules)
    requires Sound(s, rules)
    ensures Sound(Begin(s, file, op, rules), rules)
  {
    if s.pending.Saving? {
    } else if s.restore {
      PlanFirstValid(op, rules);
    } else if s.memory.Some? && Refresh(s, file, rules).1 {
      RefreshExact(s, file, rules);
      var memory := Refresh(s, file, rules).0.memory.value;
      if Plan(memory, op, rules).Some? { PlanAdvances(memory, op, rules); }
    }
  }

  /**
   No update is lost. Only a finishing save changes the file, and what it writes is what its operation makes
   of the state on disk at that very moment: one record appended, one record updated, the flag
   changed, or a reconciliation. Where no file exists it is a first state.
   */
  lemma SavesBuildOnDisk(sys: System, event: Event, rules: Rules)
    requires Invariant(sys, rules) && Step(sys, event, rules).file != sys.file
    ensures event.Finishes? && event.who < |sys.services| && sys.services[event.who].pending.Saving?
    ensures Step(sys, event, rules).file.Some? && Step(sys, event, rules).file.value.Image?
    ensures var op := sys.services[event.who].pending.op;
      var written := Some(Step(sys, event, rules).file.value.state);
      written == if sys.file.None? then PlanFirst(op, rules) else Plan(Decode(sys.file.value, rules).value, op, rules)
  {
    assert Sound(sys.services[event.who], rules);
  }

  /** Left alone between its two halves, an operation takes effect: the file becomes what it makes of the file. */
  lemma UndisturbedTakesEffect(sys: System, who: nat, op: Operation, salt: nat, rules: Rules)
    requires Invariant(sys, rules) && who < |sys.services| && sys.services[who].pending.Idle?
    ensures var s := sys.services[who];
            var after := Step(Step(sys, Begins(who, op), rules), Finishes(who, salt, true), rules);
            && (!s.restore && s.memory.Some? && sys.file.Some?
                && Decode(sys.file.value, rules).value.publicKey == s.memory.value.publicKey ==>
                  var next := Plan(Decode(sys.file.value, rules).value, op, rules);
                  && after.file == (if next.None? then sys.file else Some(Image(next.value, salt)))
                  && after.services[who].memory == if next.None? then Decode(sys.file.value, rules) else next)
            && (s.restore && sys.file.None? && PlanFirst(op, rules).Some? ==>
                  && after.file == Some(Image(PlanFirst(op, rules).value, salt))
                  && after.services[who].memory == PlanFirst(op, rules) && !after.services[who].restore)
  {
    var s := sys.services[who];
    assert Sound(s, rules);
    hide Plan, PlanFirst, rules.Valid;
    if s.memory.Some? && !s.restore && Refresh(s, sys.file, rules).1 { RefreshExact(s, sys.file, rules); }
  }

  /** A file that has changed since is never overwritten. */
  lemma ConflictWritesNothing(sys: System, who: nat, op: Operation, meanwhile: Option<Image>, salt: nat, works: bool,
                              rules: Rules)
    requires Invariant(sys, rules) && who < |sys.services| && sys.services[who].pending.Idle? && meanwhile != sys.file
    requires !sys.services[who].restore && sys.services[who].memory.Some?
    ensures var begun := Step(sys, Begins(who, op), rules);
            Step(begun.(file := meanwhile), Finishes(who, salt, works), rules).file == meanwhile
  {
    hide Plan, PlanFirst, rules.Valid;
  }

  /** A process that starts where nothing is stored provisions a fresh state, or waits to be restored. */
  lemma StartExact(sys: System, who: nat, remoteAbsent: bool, seed: nat, salt: nat, rules: Rules)
    requires Invariant(sys, rules) && who < |sys.services|
    ensures var after := Step(Step(sys, Starts(who, remoteAbsent, seed), rules), Finishes(who, salt, true), rules);
            var s := after.services[who];
            if sys.file.Some? then after.file == sys.file && s.memory == Decode(sys.file.value, rules) && !s.restore
            else if !remoteAbsent then after.file == None && s.memory == None && s.restore
            else
              && s.memory == Some(State(PrivateKey(seed, PublicOf(seed)), PublicOf(seed), false, []))
              && after.file == Some(Image(s.memory.value, salt)) && !s.restore
  {
  }

  /** What one step may do to the file. */
  predicate FileAdvances(before: Option<Image>, after: Option<Image>, rules: Rules)
  {
    before.Some? && Decode(before.value, rules).Some? ==>
      && after.Some? && Decode(after.value, rules).Some?
      && Advances(Decode(before.value, rules).value, Decode(after.value, rules).value)
  }

  lemma StepAdvances(sys: System, event: Event, rules: Rules)
    requires Invariant(sys, rules)
    ensures Invariant(Step(sys, event, rules), rules)
    ensures FileAdvances(sys.file, Step(sys, event, rules).file, rules)
  {
    var after := Step(sys, event, rules);
    if event.who < |sys.services| {
      var s := sys.services[event.who];
      assert Sound(s, rules);
      match event
      case Starts(_, remoteAbsent, seed) => assert rules.Valid(Fresh(seed));
      case Begins(_, op) => BeginSound(s, sys.file, op, rules);
      case Finishes(_, salt, works) =>
        if after.file != sys.file {
          if sys.file.Some? { PlanAdvances(Decode(sys.file.value, rules).value, s.pending.op, rules); }
        }
      assert Sound(after.services[event.who], rules);
      forall t | t in after.services ensures Sound(t, rules) {
        var i :| 0 <= i < |after.services| && after.services[i] == t;
        if i != event.who { assert t == sys.services[i]; }
      }
    }
  }

  /**
   Along every run of any number of processes, with crashes, from any moment to any later one: the stored
   state stays valid, the keys stay what they were, no record disappears, and a published record stays published.
   */
  lemma {:induction false} RunAdvances(sys: System, events: seq<Event>, rules: Rules)
    requires Invariant(sys, rules)
    ensures Invariant(Run(sys, events, rules), rules)
    ensures FileAdvances(sys.file, Run(sys, events, rules).file, rules)
    decreases |events|
  {
    if events != [] {
      StepAdvances(sys, events[0], rules);
      RunAdvances(Step(sys, events[0], rules), events[1..], rules);
    }
  }

  /** The start: no file, or a valid one, and no process running. */
  lemma InitiallySound(file: Option<Image>, processes: nat, rules: Rules)
    requires file.Some? ==> Decode(file.value, rules).Some?
    ensures Invariant(System(file, seq(processes, i => STOPPED)), rules)
  {
  }
}
