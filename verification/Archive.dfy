/**
 The scanner as it runs: directories and files appear one system call at a time, and the system or a cancelled
 context may interrupt any of them. Also the limit on uncompressed bytes and the two passes of a bundle import
 (internal/bootstrapstate/archive.go, internal/bootstrapstate/state.go).
 */
module Archive {
  import opened Ordering
  import opened ArchivePaths
  import opened ArchiveScan
  import DiskBound

  /** The directory tree below an extraction root. On a reliable one, system calls fail only over what is there. */
  class Destination {
    const reliable: bool
    var tree: Tree

    constructor (reliable: bool)
      ensures tree == map[] && this.reliable == reliable
    {
      tree, this.reliable := map[], reliable;
    }

    /** `os.MkdirAll`: one directory after the other, from the root down. */
    method MakeDirectories(path: Path) returns (error: Option<Error>)
      modifies this
      ensures error == None ==> MkdirAll(old(tree), path) == Ok(tree)
      ensures reliable ==> error != Some(Interrupted)
      ensures error != None ==> error == Some(Interrupted) || MkdirAll(old(tree), path) == Err(error.value)
    {
      var k := 0;
      while k < |path|
        invariant k <= |path|
        invariant tree == old(tree) + map j | j in Prefixes(path[..k]) :: Dir
        invariant forall p | p in Prefixes(path[..k]) && p in old(tree) :: old(tree)[p] == Dir
      {
        var interrupted: bool := *;
        if interrupted && !reliable { return Some(Interrupted); }
        k := k + 1;
        PrefixesGrow(path, k);
        if path[..k] in tree && tree[path[..k]].File? {
          assert path[..k] in Prefixes(path);
          return Some(Occupied);
        }
        tree := tree[path[..k] := Dir];
      }
      assert path[..k] == path;
      error := None;
    }

    /** `os.OpenFile` with O_EXCL, the copy, and the sync. */
    method WriteNew(path: Path, content: seq<bv8>) returns (error: Option<Error>)
      requires path != []
      modifies this
      ensures error == None ==> CreateFile(old(tree), path, content) == Ok(tree)
      ensures reliable ==> error != Some(Interrupted)
      ensures error != None ==> error == Some(Interrupted) || CreateFile(old(tree), path, content) == Err(error.value)
    {
      error := MakeDirectories(path[..|path| - 1]);
      if error.Some? { return; }
      if path in tree { return Some(Occupied); }
      tree := tree[path := File(content)];
      var interrupted: bool := *;
      if interrupted && !reliable { return Some(Interrupted); }
    }
  }

  lemma PrefixesGrow(path: Path, k: nat)
    requires 1 <= k <= |path|
    ensures Prefixes(path[..k]) == Prefixes(path[..k - 1]) + {path[..k]}
  {
    forall p | p in Prefixes(path[..k]) ensures p in Prefixes(path[..k - 1]) + {path[..k]} {
      var j :| 1 <= j <= k && p == path[..k][..j];
      if j < k { assert p == path[..k - 1][..j]; } else { assert p == path[..k]; }
    }
    forall p | p in Prefixes(path[..k - 1]) ensures p in Prefixes(path[..k]) {
      var j :| 1 <= j <= k - 1 && p == path[..k - 1][..j];
      assert p == path[..k][..j];
    }
    assert path[..k] == path[..k][..k];
  }

  /** `addMaterializedDirectories`: up from the entry or its parent while still at or below `data`. */
  method AddMaterializedDirectories(directories: set<Path>, name: Path, includeEntry: bool)
    returns (r: set<Path>)
    requires name != []
    ensures var home := if includeEntry then name else name[..|name| - 1];
            r == directories + if name[0] == "data" then Prefixes(home) else {}
  {
    r := directories;
    var directory := if includeEntry then name else name[..|name| - 1];
    ghost var home := directory;
    while directory != [] && directory[0] == "data"
      invariant directory <= home && (name[0] != "data" ==> r == directories && directory == home)
      invariant home != [] ==> home[0] == name[0]
      invariant name[0] == "data" ==> r + Prefixes(directory) == directories + Prefixes(home)
      decreases |directory|
    {
      assert directory[..|directory|] == directory;
      PrefixesGrow(directory, |directory|);
      r := r + {directory};
      directory := directory[..|directory| - 1];
    }
    assert Prefixes([]) == {};
  }

  /** Nothing fails by itself at the destination, if there is one. */
  predicate Steady(destination: Destination?) { destination == null || destination.reliable }

  function Below(destination: Destination?): Option<Tree>
    reads destination
  {
    if destination == null then None else Some(destination.tree)
  }

  /** The copying of one member, in the order the program acts. */
  method CopyMember(m: Member, destination: Destination?) returns (error: Option<Error>)
    requires IsData(m) && (m.kind == Directory || IsFile(m))
    modifies if destination == null then {} else {destination}
    ensures error == None ==> Copy(old(Below(destination)), m) == Ok(Below(destination))
    ensures Steady(destination) ==> error != Some(Interrupted)
    ensures error != None ==> error == Some(Interrupted) || Copy(old(Below(destination)), m) == Err(error.value)
  {
    hide MkdirAll, CreateFile, Split, Safe;
    error := None;
    if destination != null {
      if m.kind == Directory {
        error := destination.MakeDirectories(Split(m.name));
      } else {
        error := destination.WriteNew(Split(m.name), m.content);
      }
      if error.Some? { return; }
    }
    if m.kind != Directory && !Whole(m) { error := Some(InvalidBundle); }
  }

  method ScanMember<M>(rules: Rules<M>, s: Tally<M>, m: Member, destination: Destination?)
    returns (r: Result<Tally<M>>)
    modifies if destination == null then {} else {destination}
    ensures Steady(destination) ==> r != Err(Interrupted)
    ensures r.Ok? ==> Step(rules, Scan(s, old(Below(destination))), m) == Ok(Scan(r.value, Below(destination)))
    ensures r.Err? ==>
      r.error == Interrupted || Step(rules, Scan(s, old(Below(destination))), m) == Err(r.error)
  {
    hide Admitted, Copy, Prefixes, Split, CheckManifest;
    if s.entries + 1 > rules.maxEntries { return Err(InvalidBundle); }
    if !Admitted(m) { return Err(UnsafePath); }
    if m.size < 0 { return Err(InvalidBundle); }
    var t := s.(entries := s.entries + 1);
    if m.name == MANIFEST {
      ManifestNotCopied(m, Below(destination));
      ManifestJudged(rules, t, m);
      return CheckManifest(rules, t, m);
    }
    DataName(m);
    if m.kind == Directory {
      if m.size != 0 { return Err(InvalidBundle); }
    } else if m.kind == Other {
      return Err(UnsafePath);
    }
    var directories := AddMaterializedDirectories(t.directories, Split(m.name), m.kind == Directory);
    if m.kind != Directory {
      t := t.(dataBytes := (t.dataBytes + m.size) % DiskBound.LIMIT, regularFiles := t.regularFiles + 1);
      if m.name == DATABASE { t := t.(databaseBytes := m.size, databaseFound := true); }
    }
    t := t.(directories := directories);
    var error := CopyMember(m, destination);
    r := if error.Some? then Err(error.value) else Ok(t);
  }

  lemma ManifestJudged<M>(rules: Rules<M>, s: Tally<M>, m: Member)
    ensures CheckManifest(rules, s, m) != Err(Interrupted)
  {
  }

  lemma ManifestNotCopied(m: Member, tree: Option<Tree>)
    requires m.name == MANIFEST
    ensures Copy(tree, m) == Ok(tree)
  {
  }

  lemma DataName(m: Member)
    requires Admitted(m) && IsData(m)
    ensures Split(m.name)[0] == "data"
  {
    MemberBelowData(m);
  }

  /** SHA-256 over the bundle's bytes, taken to be free of collisions. */
  datatype Digest = Sha256(stream: Stream)

  datatype Report<M> = Report(manifest: M, footprint: DiskBound.Footprint, digest: Digest, databaseFound: bool)

  function FootprintOf<M>(s: Tally<M>): DiskBound.Footprint
  {
    DiskBound.Footprint(s.dataBytes % DiskBound.LIMIT, s.regularFiles % DiskBound.LIMIT,
                        |s.directories| % DiskBound.LIMIT, s.databaseBytes % DiskBound.LIMIT)
  }

  function ReportOf<M>(s: Tally<M>, stream: Stream): Report<M>
    requires s.manifest.Some?
  {
    Report(s.manifest.value, FootprintOf(s), Sha256(stream), s.databaseFound)
  }

  /** `scanArchive`, with or without a destination. `patient`: the context is not cancelled meanwhile. */
  method ScanArchive<M>(rules: Rules<M>, stream: Stream, destination: Destination?, patient: bool)
    returns (r: Result<Report<M>>)
    modifies if destination == null then {} else {destination}
    ensures r.Ok? ==>
      && var spec := ScanStream(rules, stream, old(Below(destination)));
      && spec.Ok? && spec.value.tally.manifest.Some? && spec.value.tree == Below(destination)
      && r.value == ReportOf(spec.value.tally, stream)
    ensures patient && Steady(destination) ==> r != Err(Interrupted)
    ensures r.Err? ==>
      r.error == Interrupted || ScanStream(rules, stream, old(Below(destination))) == Err(r.error)
  {
    hide Step, Prefixes;
    if rules.maxEntries == 0 { return Err(InvalidBundle); }
    var members := stream.members;
    ghost var start := Below(destination);
    var tally := Empty<M>();
    var i := 0;
    while i < |members|
      invariant i <= |members|
      invariant ScanMembers(rules, start, members[..i]) == Ok(Scan(tally, Below(destination)))
    {
      var cancelled: bool := *;
      if cancelled && !patient { return Err(Interrupted); }
      var next := ScanMember(rules, tally, members[i], destination);
      assert members[..i + 1][..i] == members[..i];
      if next.Err? {
        if next.error != Interrupted { ErrorStays(rules, start, members, i + 1); }
        return Err(next.error);
      }
      tally := next.value;
      i := i + 1;
    }
    assert members[..i] == members;
    if tally.manifest.None? || !stream.intact { return Err(InvalidBundle); }
    r := Ok(ReportOf(tally, stream));
  }
}
