/**
 Adopting and confirming a key backup across two stores (cmd/license-generator/service.go): the signing state
 and the revocation state change together or not at all, and wiping superseded secrets never
 touches a key the live state still refers to.
 */
module BackupRestore {
  import opened Ordering

  type byte = n: nat | n < 256

  /** `generatorState` as it is persisted. */
  datatype Signing = Signing(privateKey: seq<byte>, publicKey: seq<byte>, confirmed: bool, history: seq<string>,
                             seedID: string, seedKey: seq<byte>)

  /** `generatorRevocationState` as it is persisted; the records are opaque here. */
  datatype Revocation = Revocation(privateKey: seq<byte>, publicKey: seq<byte>, confirmed: bool, records: seq<string>)

  /** A store whose save either replaces the value or fails and leaves it. A reliable one never fails. */
  class Store<T> {
    const reliable: bool
    var value: Option<T>
    /** How many saves have failed. */
    ghost var refusals: nat

    constructor (value: Option<T>, reliable: bool)
      ensures this.value == value && this.reliable == reliable && refusals == 0
    { this.value, this.reliable, refusals := value, reliable, 0; }

    method Save(next: T) returns (saved: bool)
      modifies this
      ensures value == if saved then Some(next) else old(value)
      ensures refusals == old(refusals) + if saved then 0 else 1
      ensures reliable ==> saved
    {
      var fails: bool := *;
      if fails && !reliable {
        refusals := refusals + 1;
        return false;
      }
      value := Some(next);
      saved := true;
    }
  }

  /** What a crash at some moment leaves behind in the two stores. */
  datatype OnDisk = OnDisk(signing: Option<Signing>, revocation: Option<Revocation>)

  /** A history of the two stores in which every step saves to one of them at most. */
  predicate SaveBySave(points: seq<OnDisk>, start: OnDisk, end: OnDisk)
  {
    && points != [] && points[0] == start && points[|points| - 1] == end
    && forall i | 0 < i < |points| ::
         points[i - 1].signing == points[i].signing || points[i - 1].revocation == points[i].revocation
  }

  lemma OneMorePoint(points: seq<OnDisk>, start: OnDisk, end: OnDisk, next: OnDisk)
    requires SaveBySave(points, start, end) && (end.signing == next.signing || end.revocation == next.revocation)
    ensures SaveBySave(points + [next], start, next)
  {
  }

  lemma FirstPoint(start: OnDisk)
    ensures SaveBySave([start], start, start)
  {
  }

  /** `Public()`: the half of the private key behind its seed. */
  function PublicHalf(privateKey: seq<byte>): seq<byte>
  {
    if |privateKey| == 64 then privateKey[32..] else []
  }

  /** Of a private key of full length the second half is the public key. */
  predicate HalfOf(publicKey: seq<byte>, privateKey: seq<byte>)
  {
    |privateKey| == 64 ==> |publicKey| == 32 && forall i | 0 <= i < 32 :: publicKey[i] == privateKey[32 + i]
  }

  /** `wipeBytes`. */
  method Wipe(value: array<byte>)
    modifies value
    ensures forall i | 0 <= i < value.Length :: value[i] == 0
  {
    for i := 0 to value.Length
      invariant forall j | 0 <= j < i :: value[j] == 0
    {
      value[i] := 0;
    }
  }

  /** What the backup decrypts to: fresh arrays; a V1 backup has no seed, a V1 or V2 backup no revocation key. */
  class Material {
    const licenseKey: array<byte>
    const seedID: string
    const seedKey: array<byte>
    const hasRevocationKey: bool
    const revocationKey: array<byte>

    constructor (licenseKey: seq<byte>, seedID: string, seedKey: seq<byte>, hasRevocationKey: bool,
                 revocationKey: seq<byte>)
      ensures fresh(this.licenseKey) && fresh(this.seedKey) && fresh(this.revocationKey)
      ensures Apart({this.licenseKey}, this.seedKey, this.revocationKey)
      ensures this.licenseKey[..] == licenseKey && this.seedKey[..] == seedKey
              && this.revocationKey[..] == revocationKey
      ensures this.seedID == seedID && this.hasRevocationKey == hasRevocationKey
    {
      var l := FromSeq(licenseKey);
      var s := FromSeq(seedKey);
      var r := FromSeq(revocationKey);
      this.licenseKey, this.seedKey, this.revocationKey := l, s, r;
      this.seedID, this.hasRevocationKey := seedID, hasRevocationKey;
    }
  }

  predicate Apart(others: set<array<byte>>, a: array<byte>, b: array<byte>)
  {
    a != b && a !in others && b !in others
  }

  method FromSeq(s: seq<byte>) returns (a: array<byte>)
    ensures fresh(a) && a[..] == s
  {
    a := new byte[|s|](i requires 0 <= i < |s| => s[i]);
  }

  /** What the network and the reconciliation contribute to a V3 restore. */
  datatype Remote = Unavailable | Reconciled(records: seq<string>)

  /** The live state of the program. */
  class Generator {
    const signingStore: Store<Signing>
    const revocationStore: Store<Revocation>

    var licenseKey: array<byte>
    var publicKey: seq<byte>
    var confirmed: bool
    var history: seq<string>
    var seedID: string
    var seedKey: array<byte>

    /** False before a restore: there is no revocation state yet. */
    var hasRevocation: bool
    var revocationKey: array<byte>
    var revocationPublic: seq<byte>
    var revocationConfirmed: bool
    var records: seq<string>

    function LiveSigning(): Signing
      reads this, licenseKey, seedKey
    {
      Signing(licenseKey[..], publicKey, confirmed, history, seedID, seedKey[..])
    }

    function LiveRevocation(): Option<Revocation>
      reads this, revocationKey
    {
      if hasRevocation then Some(Revocation(revocationKey[..], revocationPublic, revocationConfirmed, records))
      else None
    }

    /** The live state, read through its key arrays, is what both stores hold. */
    ghost predicate InStep()
      reads this, licenseKey, seedKey, revocationKey, signingStore, revocationStore
    {
      signingStore.value == Some(LiveSigning()) && revocationStore.value == LiveRevocation()
    }

    function Disk(): OnDisk
      reads this, signingStore, revocationStore
    {
      OnDisk(signingStore.value, revocationStore.value)
    }

    /** Neither store fails. */
    predicate Reliable()
    {
      signingStore.reliable && revocationStore.reliable
    }

    /** Since then both stores have failed a save: one that was asked for, and one that should have taken it back. */
    ghost predicate BothRefused(signingBefore: nat, revocationBefore: nat)
      reads signingStore, revocationStore
    {
      signingStore.refusals > signingBefore && revocationStore.refusals > revocationBefore
    }

    ghost predicate Separate()
      reads this
    {
      Apart({licenseKey}, seedKey, revocationKey)
    }

    constructor (signingStore: Store<Signing>, revocationStore: Store<Revocation>, signing: Signing,
                 revocation: Option<Revocation>)
      requires signingStore.value == Some(signing) && revocationStore.value == revocation
      ensures this.signingStore == signingStore && this.revocationStore == revocationStore
      ensures InStep() && Separate() && fresh(licenseKey) && fresh(seedKey) && fresh(revocationKey)
    {
      var l := FromSeq(signing.privateKey);
      var s := FromSeq(signing.seedKey);
      var r := FromSeq(if revocation.Some? then revocation.value.privateKey else []);
      this.signingStore, this.revocationStore := signingStore, revocationStore;
      licenseKey, publicKey, confirmed := l, signing.publicKey, signing.confirmed;
      history, seedID, seedKey := signing.history, signing.seedID, s;
      hasRevocation, revocationKey := revocation.Some?, r;
      revocationPublic := if revocation.Some? then revocation.value.publicKey else [];
      revocationConfirmed := revocation.Some? && revocation.value.confirmed;
      records := if revocation.Some? then revocation.value.records else [];
    }

    /**
     `ConfirmBackup`: both flags go up, or neither; a signing save already made is taken back. `readable`: the refresh
     before it finds the revocation state. A crash leaves the old states, the new ones, or only the signing one new.
     */
    method ConfirmBackup(readable: bool) returns (ok: bool, ghost points: seq<OnDisk>)
      requires InStep() && Separate() && signingStore as object != revocationStore && hasRevocation
      modifies this`confirmed, this`revocationConfirmed, signingStore, revocationStore
      ensures ok ==> InStep() && confirmed && revocationConfirmed
      ensures ok == (readable && signingStore.refusals == old(signingStore.refusals)
                     && revocationStore.refusals == old(revocationStore.refusals))
      ensures Reliable() ==> (ok <==> readable)
      ensures !ok ==> confirmed == old(confirmed) && revocationConfirmed == old(revocationConfirmed)
      ensures !ok ==> (InStep() <==> !BothRefused(old(signingStore.refusals), old(revocationStore.refusals)))
      ensures !ok ==> revocationStore.value == old(revocationStore.value)
      ensures SaveBySave(points, old(Disk()), Disk())
      ensures forall p | p in points ::
                && (p.signing == Some(old(LiveSigning())) || p.signing == Some(old(LiveSigning()).(confirmed := true)))
                && (p.revocation == old(LiveRevocation())
                    || (ok && p.signing.value.confirmed
                        && p.revocation == Some(old(LiveRevocation()).value.(confirmed := true))))
    {
      hide SaveBySave;
      points := [Disk()];
      FirstPoint(Disk());
      ghost var start, before := Disk(), Disk();
      if !readable { return false, points; }
      if confirmed && revocationConfirmed { return true, points; }
      var previous := LiveSigning();
      var signingSaved := false;
      if !confirmed {
        var saved := signingStore.Save(previous.(confirmed := true));
        OneMorePoint(points, start, before, Disk());
        points, before := points + [Disk()], Disk();
        if !saved { return false, points; }
        signingSaved := true;
      }
      if !revocationConfirmed {
        var saved := revocationStore.Save(LiveRevocation().value.(confirmed := true));
        OneMorePoint(points, start, before, Disk());
        points, before := points + [Disk()], Disk();
        if !saved {
          if signingSaved {
            var undone := signingStore.Save(previous);
            OneMorePoint(points, start, before, Disk());
            points, before := points + [Disk()], Disk();
          }
          return false, points;
        }
      }
      confirmed, revocationConfirmed := true, true;
      ok := true;
    }

    /** The arrays of a backup are nobody else's. */
    ghost predicate Foreign(m: Material)
      reads this
    {
      && Apart({m.licenseKey}, m.seedKey, m.revocationKey)
      && {m.licenseKey, m.seedKey, m.revocationKey} !! {licenseKey, seedKey, revocationKey}
    }

    /** The persisted form of the signing state after adopting the backup. */
    function NextSigning(m: Material): Signing
      reads this, licenseKey, seedKey, m.licenseKey, m.seedKey
    {
      Signing(m.licenseKey[..], PublicHalf(m.licenseKey[..]), m.seedID != "", history,
              if m.seedID != "" then m.seedID else seedID, if m.seedID != "" then m.seedKey[..] else seedKey[..])
    }

    /** The persisted form of the revocation state afterwards; None when it is not touched. */
    function NextRevocation(m: Material, remote: Remote): Option<Revocation>
      reads this, revocationKey, m.revocationKey
      requires m.hasRevocationKey ==> remote.Reconciled?
    {
      if m.hasRevocationKey then
        Some(Revocation(m.revocationKey[..], PublicHalf(m.revocationKey[..]), true, remote.records))
      else if hasRevocation && revocationConfirmed then
        Some(LiveRevocation().value.(confirmed := false))
      else None
    }

    /** Save both stores; when the second save fails, take the first one back. */
    method SaveBoth(signing: Signing, revocation: Option<Revocation>) returns (ok: bool, ghost points: seq<OnDisk>)
      requires InStep() && signingStore as object != revocationStore
      modifies signingStore, revocationStore
      ensures ok ==>
        && signingStore.value == Some(signing)
        && revocationStore.value == if revocation.Some? then revocation else old(revocationStore.value)
      ensures Reliable() ==> ok
      ensures !ok ==> revocationStore.value == old(revocationStore.value)
      ensures ok == (signingStore.refusals == old(signingStore.refusals)
                     && revocationStore.refusals == old(revocationStore.refusals))
      ensures !ok ==>
        if BothRefused(old(signingStore.refusals), old(revocationStore.refusals))
        then signingStore.value == Some(signing) else InStep()
      ensures SaveBySave(points, old(Disk()), Disk())
      ensures forall p | p in points ::
                p == old(Disk()) || p == OnDisk(Some(signing), old(revocationStore.value)) || (ok && p == Disk())
    {
      hide SaveBySave;
      points := [Disk()];
      FirstPoint(Disk());
      ghost var start, before := Disk(), Disk();
      var previous := LiveSigning();
      ok := signingStore.Save(signing);
      OneMorePoint(points, start, before, Disk());
      points, before := points + [Disk()], Disk();
      if !ok || revocation.None? { return; }
      ok := revocationStore.Save(revocation.value);
      OneMorePoint(points, start, before, Disk());
      points, before := points + [Disk()], Disk();
      if !ok {
        var undone := signingStore.Save(previous);
        OneMorePoint(points, start, before, Disk());
        points, before := points + [Disk()], Disk();
      }
    }

    /** The checks a restore makes before it saves anything. */
    predicate Acceptable(m: Material, remote: Remote, readable: bool)
      reads this, m.licenseKey, m.revocationKey
    {
      && (hasRevocation ==> readable)
      && (history != [] ==> publicKey == PublicHalf(m.licenseKey[..]))
      && (m.hasRevocationKey ==>
            remote.Reconciled? && (hasRevocation ==> revocationPublic == PublicHalf(m.revocationKey[..])))
    }

    /**
     What adopting a backup changes, field by field: the license key and what follows from it; the seed and the
     revocation key where the backup has them; the flags; and never the history of issued licenses.
     */
    twostate predicate Adopted(m: Material, remote: Remote)
      reads this, licenseKey, seedKey, revocationKey, m.licenseKey, m.seedKey, m.revocationKey
    {
      && history == old(history) && confirmed == (m.seedID != "")
      && licenseKey[..] == old(m.licenseKey[..]) && HalfOf(publicKey, licenseKey[..])
      && (if m.seedID != "" then seedID == m.seedID && seedKey[..] == old(m.seedKey[..])
          else seedID == old(seedID) && seedKey[..] == old(seedKey[..]))
      && (m.hasRevocationKey ==>
            && hasRevocation && revocationConfirmed && revocationKey[..] == old(m.revocationKey[..])
            && HalfOf(revocationPublic, revocationKey[..])
            && remote.Reconciled? && records == remote.records)
      && (!m.hasRevocationKey ==>
            && hasRevocation == old(hasRevocation)
            && (hasRevocation ==>
                  && !revocationConfirmed && revocationKey[..] == old(revocationKey[..])
                  && revocationPublic == old(revocationPublic) && records == old(records)))
    }

    /**
     `RestoreBackup`. On success both stores hold the adopted state, the live key arrays read as the backup's (or as
     before where the backup has none), and the arrays they replaced are wiped. On error the live state and
     its arrays are untouched, the backup's arrays are wiped, and the stores hold what they held. A crash leaves the
     old states, the adopted ones, or only the signing state adopted.
     */
    method RestoreBackup(m: Material, remote: Remote, readable: bool) returns (ok: bool, ghost points: seq<OnDisk>)
      requires InStep() && Separate() && Foreign(m) && signingStore as object != revocationStore
      modifies this, signingStore, revocationStore, licenseKey, seedKey, revocationKey,
               m.licenseKey, m.seedKey, m.revocationKey
      ensures ok ==> InStep() && Separate()
      ensures ok ==> Adopted(m, remote)
      ensures ok ==> LiveSigning() == old(NextSigning(m))
      ensures ok && m.hasRevocationKey ==> remote.Reconciled?
      ensures ok ==>
        LiveRevocation() == OrElse(old(NextRevocation(m, remote)), old(LiveRevocation()))
      ensures ok && old(history) != [] ==> publicKey == old(publicKey)
      ensures ok && old(hasRevocation) ==> readable && revocationPublic == old(revocationPublic)
      ensures ok ==>
        && Wiped(old(licenseKey)) && (m.seedID != "" ==> Wiped(old(seedKey)))
        && (m.hasRevocationKey && old(hasRevocation) ==> Wiped(old(revocationKey)))
      ensures !ok ==> Separate() && LiveSigning() == old(LiveSigning()) && LiveRevocation() == old(LiveRevocation())
      ensures !ok ==> Wiped(m.licenseKey) && Wiped(m.seedKey) && Wiped(m.revocationKey)
      ensures !ok ==> revocationStore.value == old(revocationStore.value)
      ensures !ok && !BothRefused(old(signingStore.refusals), old(revocationStore.refusals)) ==> InStep()
      ensures ok ==> old(Acceptable(m, remote, readable))
      ensures Reliable() ==> (ok <==> old(Acceptable(m, remote, readable)))
      ensures ok == (old(Acceptable(m, remote, readable)) && signingStore.refusals == old(signingStore.refusals)
                     && revocationStore.refusals == old(revocationStore.refusals))
      ensures SaveBySave(points, old(Disk()), Disk())
      ensures forall p | p in points ::
                || p == old(Disk()) || (ok && p == Disk())
                || p == OnDisk(Some(old(NextSigning(m))), old(revocationStore.value))
    {
      hide SaveBySave, PublicHalf, HalfOf, Wiped, BothRefused;
      points := [Disk()];
      FirstPoint(Disk());
      var nextPublic := PublicHalf(m.licenseKey[..]);
      var revocationPublicNext := PublicHalf(m.revocationKey[..]);
      if (hasRevocation && !readable)
        || (history != [] && publicKey != nextPublic)
        || (m.hasRevocationKey && hasRevocation && revocationPublic != revocationPublicNext)
        || (m.hasRevocationKey && remote.Unavailable?)
      {
        WipeMaterial(m);
        return false, points;
      }
      var nextRevocation := NextRevocation(m, remote);
      ok, points := SaveBoth(NextSigning(m), nextRevocation);
      if !ok {
        WipeMaterial(m);
        return;
      }
      WipeReplaced(m);
      Adopt(m, nextRevocation);
      HalfOfPublic(licenseKey[..]);
      HalfOfPublic(revocationKey[..]);
    }

    /** Zero the live arrays that adoption is about to replace, and no others. */
    method WipeReplaced(m: Material)
      requires Separate()
      modifies licenseKey, seedKey, revocationKey
      ensures Wiped(licenseKey)
      ensures if m.seedID != "" then Wiped(seedKey) else seedKey[..] == old(seedKey[..])
      ensures if m.hasRevocationKey && hasRevocation then Wiped(revocationKey)
              else revocationKey[..] == old(revocationKey[..])
    {
      Wipe(licenseKey);
      if m.seedID != "" { Wipe(seedKey); }
      if m.hasRevocationKey && hasRevocation { Wipe(revocationKey); }
    }

    /** Point the live state at the adopted arrays. */
    method Adopt(m: Material, nextRevocation: Option<Revocation>)
      requires Separate() && Foreign(m)
      requires nextRevocation.Some? ==>
        nextRevocation.value.privateKey == (if m.hasRevocationKey then m.revocationKey else revocationKey)[..]
      requires nextRevocation.None? ==> !m.hasRevocationKey
      modifies this
      ensures Separate()
      ensures licenseKey == m.licenseKey && seedKey == if m.seedID != "" then m.seedKey else old(seedKey)
      ensures LiveSigning() == old(NextSigning(m))
      ensures LiveRevocation() == OrElse(nextRevocation, old(LiveRevocation()))
    {
      hide PublicHalf;
      licenseKey, publicKey, confirmed := m.licenseKey, PublicHalf(m.licenseKey[..]), m.seedID != "";
      if m.seedID != "" { seedID, seedKey := m.seedID, m.seedKey; }
      if nextRevocation.Some? {
        if m.hasRevocationKey { revocationKey := m.revocationKey; }
        hasRevocation := true;
        revocationPublic := nextRevocation.value.publicKey;
        revocationConfirmed := nextRevocation.value.confirmed;
        records := nextRevocation.value.records;
      }
    }
  }

  lemma HalfOfPublic(privateKey: seq<byte>)
    ensures HalfOf(PublicHalf(privateKey), privateKey)
  {
  }

  function OrElse(next: Option<Revocation>, current: Option<Revocation>): Option<Revocation>
  {
    if next.Some? then next else current
  }

  ghost predicate Wiped(a: array<byte>)
    reads a
  {
    forall i | 0 <= i < a.Length :: a[i] == 0
  }

  /** `wipeGeneratorBackupMaterial`. */
  method WipeMaterial(m: Material)
    requires Apart({m.licenseKey}, m.seedKey, m.revocationKey)
    modifies m.licenseKey, m.seedKey, m.revocationKey
    ensures Wiped(m.licenseKey) && Wiped(m.seedKey) && Wiped(m.revocationKey)
  {
    Wipe(m.licenseKey);
    Wipe(m.seedKey);
    Wipe(m.revocationKey);
  }
}
