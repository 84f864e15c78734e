/**
 Reading a bundle into a root (internal/bootstrapstate/state.go): one pass inspects, the caller decides on the
 footprint, a second pass over the reopened bundle extracts, and only then secrets, data and marker change.
 */
module BundleImport {
  import opened Ordering
  import opened ArchivePaths
  import opened ArchiveScan
  import opened Archive
  import opened ArchivePack
  import DiskBound

  // ----- The limit on uncompressed bytes -----

  datatype Status = More | Eof | LimitExceeded | Failed

  /** `archiveLimitReader` over the bytes still to come; reading from a reliable source never fails. */
  class LimitReader {
    const reliable: bool
    var source: seq<bv8>
    var remaining: nat

    constructor (bytes: seq<bv8>, limit: nat, reliable: bool)
      ensures source == bytes && remaining == limit && this.reliable == reliable
    {
      source, remaining, this.reliable := bytes, limit, reliable;
    }

    /** The reader below: it may deliver less than asked, and may report the end or a failure with its last bytes. */
    method ReadBelow(want: nat) returns (data: seq<bv8>, status: Status)
      requires want > 0
      modifies this`source
      ensures old(source) == data + source && |data| <= want && status != LimitExceeded
      ensures (status == Eof ==> source == []) && (status == More ==> data != []) && (status == Failed ==> !reliable)
    {
      var k: nat, stops: bool := *, *;
      if k > want || k > |source| || (k == 0 && reliable) { k := 1; }
      if source == [] { k := 0; }
      data, source := source[..k], source[k..];
      var breaks: bool := *;
      status := if source == [] && (k == 0 || stops) then Eof
                else if k == 0 || (breaks && !reliable) then Failed else More;
    }

    method Read(want: nat) returns (data: seq<bv8>, status: Status)
      requires want > 0
      modifies this
      ensures status == Failed ==> !reliable
      ensures status == Eof ==> source == []
      ensures old(remaining) == 0 ==> data == [] && remaining == 0 && status != More
      ensures old(remaining) == 0 ==>
        source == if status == LimitExceeded && old(source) != [] then old(source)[1..] else old(source)
      ensures old(remaining) == 0 && status == LimitExceeded ==> old(source) != []
      ensures old(remaining) > 0 ==> old(source) == data + source && remaining == old(remaining) - |data|
      ensures old(remaining) > 0 ==> |data| <= want && status != LimitExceeded && (status == More ==> data != [])
    {
      if remaining == 0 {
        data, status := ReadBelow(1);
        if data != [] { status := LimitExceeded; }
        return [], status;
      }
      data, status := ReadBelow(if want > remaining then remaining else want);
      remaining := remaining - |data|;
    }

    /**
     `io.Copy` until something other than data comes back: it ends cleanly only with everything and within the limit,
     and reports the limit only beyond it. With a reliable source there is nothing else.
     */
    method Drain(want: nat) returns (data: seq<bv8>, status: Status)
      requires want > 0
      modifies this
      ensures status != More && (status == Failed ==> !reliable)
      ensures status == Eof ==> |old(source)| <= old(remaining) && data == old(source)
      ensures status == LimitExceeded ==> |old(source)| > old(remaining) && data == old(source)[..old(remaining)]
      ensures data <= old(source) && |data| <= old(remaining)
    {
      data, status := [], More;
      while status == More
        invariant data <= old(source) && |data| <= old(remaining) && (status == Failed ==> !reliable)
        invariant status == More ==> old(source) == data + source && remaining == old(remaining) - |data|
        invariant status == Eof ==> data == old(source)
        invariant status == LimitExceeded ==> |data| == old(remaining) < |old(source)|
        decreases status == More, |source|
      {
        var part, now := Read(want);
        Assoc(data, part, source);
        data, status := data + part, now;
      }
    }

    /**
     The limit error is not sticky: every byte beyond the limit earns one, and once the source has ended there is none
     any more. With a reliable source the errors come first and then the clean ends.
     */
    method ReadAgain(times: nat) returns (statuses: seq<Status>)
      requires remaining == 0
      modifies this
      ensures |statuses| == times
      ensures multiset(statuses)[LimitExceeded] + |source| == |old(source)|
      ensures forall j, k | 0 <= j <= k < times && statuses[j] == Eof :: statuses[k] != LimitExceeded
      ensures reliable ==> forall k | 0 <= k < times ::
        statuses[k] == if k < |old(source)| then LimitExceeded else Eof
    {
      statuses := [];
      while |statuses| < times
        invariant remaining == 0 && |statuses| <= times
        invariant multiset(statuses)[LimitExceeded] + |source| == |old(source)|
        invariant Eof in statuses ==> source == []
        invariant forall j, k | 0 <= j <= k < |statuses| && statuses[j] == Eof :: statuses[k] != LimitExceeded
        invariant reliable ==> |source| == if |statuses| <= |old(source)| then |old(source)| - |statuses| else 0
        invariant reliable ==> forall k | 0 <= k < |statuses| ::
          statuses[k] == if k < |old(source)| then LimitExceeded else Eof
      {
        var data, status := Read(1);
        statuses := statuses + [status];
      }
    }
  }

  // ----- What the two passes share -----

  /** Passes over the same bytes that both succeed report the same: the digest alone decides the comparison. */
  lemma TwoPasses<M>(rules: Rules<M>, stream: Stream)
    requires ScanStream(rules, stream, None).Ok? && ScanStream(rules, stream, Some(map[])).Ok?
    ensures ScanStream(rules, stream, None).value.tally == ScanStream(rules, stream, Some(map[])).value.tally
  {
    ExtractionExact(rules, stream.members);
  }

  /**
   The room what extraction made takes: block-rounded files, a block for every directory, and a reserve in which the
   database fits once more.
   */
  ghost function Room(members: seq<Member>, tree: Tree, blockSize: nat): nat
    requires blockSize > 0
  {
    DiskBound.SumRounded(Sizes(members), blockSize)
    + DiskBound.Product(|set p | p in tree && tree[p].Dir?|, blockSize)
    + DiskBound.Max(DatabaseIn(tree), DiskBound.RESERVE)
  }

  /**
   What the preflight is granted covers what extraction then makes exactly when the declared sizes together, and the
   number of directories, fit 64 bits: the footprint's sums wrap, and a wrapped sum is never enough.
   */
  lemma PreflightCovers<M>(rules: Rules<M>, members: seq<Member>, blockSize: DiskBound.uint64)
    requires ScanMembers(rules, Some(map[]), members).Ok?
    ensures var s := ScanMembers(rules, Some(map[]), members).value;
            var granted := DiskBound.RequiredBytes(FootprintOf(s.tally), blockSize);
            granted.Some? ==>
              && blockSize != 0 && s.tree.Some?
              && (granted.value >= Room(members, s.tree.value, blockSize) <==>
                  DiskBound.Sum(Sizes(members)) < DiskBound.LIMIT && |s.tally.directories| < DiskBound.LIMIT)
  {
    hide ScanMembers, FootprintOf, DiskBound.RequiredBytes, Sizes, DiskBound.SumRounded, DiskBound.Product, DatabaseIn,
      DiskBound.Sum;
    FootprintTrue(rules, members);
    var s := ScanMembers(rules, Some(map[]), members).value;
    if DiskBound.RequiredBytes(FootprintOf(s.tally), blockSize).Some? {
      DiskBound.WrappedBytesNeverCover(FootprintOf(s.tally), blockSize, Sizes(members), |s.tally.directories|,
                                       DatabaseIn(s.tree.value));
    }
  }

  lemma {:induction false} SizesLength(members: seq<Member>)
    ensures |Sizes(members)| <= |members|
  {
    hide IsFile;
    if members != [] { SizesLength(members[..|members| - 1]); }
  }

  /** The footprint counts what extraction made, up to the wrapping of its fields. */
  lemma FootprintTrue<M>(rules: Rules<M>, members: seq<Member>)
    requires ScanMembers(rules, Some(map[]), members).Ok?
    ensures var s := ScanMembers(rules, Some(map[]), members).value;
            && s.tree.Some?
            && FootprintOf(s.tally).dataBytes == DiskBound.Sum(Sizes(members)) % DiskBound.LIMIT
            && FootprintOf(s.tally).regularFiles == |Sizes(members)|
            && FootprintOf(s.tally).directories == |s.tally.directories| % DiskBound.LIMIT
            && FootprintOf(s.tally).databaseBytes == DatabaseIn(s.tree.value) % DiskBound.LIMIT
            && DatabaseIn(s.tree.value) <= DiskBound.Sum(Sizes(members))
            && s.tally.directories == (set p | p in s.tree.value && s.tree.value[p].Dir?)
  {
    hide ScanMembers, NoClash, Built, BelowData, Split, DirsOf, FoundIn, Acceptable, OneManifest, Sizes, DatabaseIn;
    ExtractionExact(rules, members);
    InspectionExact(rules, members);
    SizesLength(members);
    ExtractionMeaning(rules, members);
  }

  lemma WalkPaths(tree: SourceTree, walk: seq<Found>)
    requires Rooted(tree) && WalkOf(walk, tree)
    ensures forall i | 0 <= i < |walk| :: walk[i].path != []
  {
    hide AllPlain;
  }

  /**
   A data tree packed and unpacked again by the program's own loops, on a destination where nothing fails by itself:
   packing succeeds exactly on a packable tree, unpacking exactly without backslashes, with few enough entries and
   within the limit on uncompressed bytes, and then the tree is back. `weight` is how many bytes the archive is, `cut`
   what would be found if they were cut off at the limit.
   */
  method PackThenExtract<M>(rules: Rules<M>, bytes: seq<bv8>, walk: seq<Found>, weight: nat, cut: seq<Member>,
                            ghost tree: SourceTree, destination: Destination)
    returns (packed: Result<seq<Member>>, report: Result<Report<M>>)
    requires Rooted(tree) && WalkOf(walk, tree)
    requires rules.parse(bytes).Some? && |bytes| <= MANIFEST_LIMIT
    requires destination.reliable && destination.tree == map[]
    modifies destination
    ensures packed.Ok? <==> AllPackable(tree)
    ensures packed.Ok? ==>
      (report.Ok? <==> weight <= MAX_UNCOMPRESSED && |tree| + 1 <= rules.maxEntries
                       && forall p | p in tree :: NoBackslash(p))
    ensures packed.Err? ==> report == Err(packed.error) && destination.tree == map[]
    ensures report.Ok? ==> Restores(tree, destination.tree) && Some(report.value.manifest) == rules.parse(bytes)
  {
    hide ScanMembers, Written, Restores, Rooted, AllPackable, NoBackslash, WalkOf, Packable, FootprintOf, Sidecar, Step,
      AllPlain, ScanStream;
    WalkPackable(tree, walk);
    WalkPaths(tree, walk);
    packed := WriteArchive(bytes, walk);
    if packed.Err? { return packed, Err(packed.error); }
    RoundTrip(rules, bytes, tree, walk, weight, cut, MAX_UNCOMPRESSED);
    report := ScanArchive(rules, Unpacked(packed.value, weight, cut, MAX_UNCOMPRESSED), destination, true);
  }

  /**
   Where no file is sparse and every directory is named, an archive within the limit cannot wrap the footprint, and
   the preflight's grant covers it.
   */
  lemma OrdinaryCovers<M>(rules: Rules<M>, members: seq<Member>, weight: nat, blockSize: DiskBound.uint64)
    requires ScanMembers(rules, Some(map[]), members).Ok?
    requires DiskBound.Sum(Sizes(members))
             + |ScanMembers(rules, Some(map[]), members).value.tally.directories| <= weight
    requires weight <= MAX_UNCOMPRESSED
    ensures var s := ScanMembers(rules, Some(map[]), members).value;
            var granted := DiskBound.RequiredBytes(FootprintOf(s.tally), blockSize);
            granted.Some? ==>
              blockSize != 0 && s.tree.Some? && granted.value >= Room(members, s.tree.value, blockSize)
  {
    hide ScanMembers, FootprintOf, DiskBound.RequiredBytes, Sizes, Room, DiskBound.Sum;
    PreflightCovers(rules, members, blockSize);
  }

  const LARGEST: nat := 0x7FFF_FFFF_FFFF_FFFF

  /** Three files side by side in a data directory. */
  function ThreeFiles(names: seq<string>, contents: seq<seq<bv8>>): SourceTree
    requires |names| == |contents| == 3
  {
    map[[names[0]] := Content(contents[0]), [names[1]] := Content(contents[1]), [names[2]] := Content(contents[2])]
  }

  function ThreeFound(names: seq<string>, contents: seq<seq<bv8>>): seq<Found>
    requires |names| == |contents| == 3
  {
    seq(3, i requires 0 <= i < 3 => Found([names[i]], Content(contents[i])))
  }

  /** Nothing about the name is out of the ordinary. */
  predicate Ordinary(name: string) { Plain(name) && '\\' !in name && !Sidecar(name) && name != "app.db" }

  lemma ThreeRooted(names: seq<string>, contents: seq<seq<bv8>>)
    requires |names| == |contents| == 3 && forall i | 0 <= i < 3 :: Ordinary(names[i])
    ensures Rooted(ThreeFiles(names, contents)) && AllPackable(ThreeFiles(names, contents))
    ensures forall p | p in ThreeFiles(names, contents) :: NoBackslash(p) && p != ["app.db"]
  {
    hide Ordinary, AllPlain, NoBackslash, Packable;
    var tree := ThreeFiles(names, contents);
    forall p | p in tree
      ensures |p| == 1 && AllPlain(p) && NoBackslash(p) && p != ["app.db"] && Packable(Found(p, tree[p]))
    {
      var i :| 0 <= i < 3 && p == [names[i]];
      OrdinaryEntry(names[i], tree[p]);
    }
  }

  lemma OrdinaryEntry(name: string, item: Item)
    requires Ordinary(name) && item.Content?
    ensures AllPlain([name]) && NoBackslash([name]) && [name] != ["app.db"] && Packable(Found([name], item))
  {
    hide Sidecar, Plain;
    assert [name][0] == name && ["app.db"][0] == "app.db";
  }

  lemma ThreeFolders(names: seq<string>, contents: seq<seq<bv8>>)
    requires |names| == |contents| == 3
    ensures Folders(ThreeFiles(names, contents)) == {["data"]}
  {
    hide Moved;
    var tree := ThreeFiles(names, contents);
    assert [names[0]] in tree;
    assert forall p | p in tree :: tree[p] != Folder;
  }

  lemma ThreeCounted(names: seq<string>, contents: seq<seq<bv8>>)
    requires |names| == |contents| == 3 && Distinct(names)
    ensures WalkOf(ThreeFound(names, contents), ThreeFiles(names, contents)) && |ThreeFiles(names, contents)| == 3
  {
    var tree, walk := ThreeFiles(names, contents), ThreeFound(names, contents);
    assert forall i | 0 <= i < 3 :: walk[i].path == [names[i]] && walk[i].path[0] == names[i];
    assert tree.Keys == {walk[0].path, walk[1].path, walk[2].path};
  }

  lemma ThreeWalk(names: seq<string>, contents: seq<seq<bv8>>)
    requires |names| == |contents| == 3 && Distinct(names) && forall i | 0 <= i < 3 :: Ordinary(names[i])
    ensures var tree, walk := ThreeFiles(names, contents), ThreeFound(names, contents);
            && Rooted(tree) && WalkOf(walk, tree) && AllPackable(tree) && |tree| == 3
            && (forall p | p in tree :: NoBackslash(p) && p != ["app.db"])
            && Folders(tree) == {["data"]}
            && ContentSizes(walk) == [|contents[0]|, |contents[1]|, |contents[2]|]
  {
    ThreeRooted(names, contents);
    ThreeFolders(names, contents);
    ThreeCounted(names, contents);
    hide Rooted, WalkOf, AllPackable, Folders, NoBackslash, ThreeFiles, ContentSizes, Ordinary;
    ThreeSizes(ThreeFound(names, contents));
  }

  lemma ThreeSizes(walk: seq<Found>)
    requires |walk| == 3 && forall i | 0 <= i < 3 :: walk[i].item.Content?
    ensures ContentSizes(walk) == [|walk[0].item.bytes|, |walk[1].item.bytes|, |walk[2].item.bytes|]
  {
    assert walk[..2][..1] == walk[..1] && walk[..1][..0] == [];
    assert ContentSizes(walk[..1]) == [|walk[0].item.bytes|];
    assert ContentSizes(walk[..2]) == [|walk[0].item.bytes|, |walk[1].item.bytes|];
  }

  lemma SomeOrdinary()
    ensures Ordinary("a") && Ordinary("b") && Ordinary("c") && Distinct(["a", "b", "c"])
  {
    assert |Lower("a")| == |Lower("b")| == |Lower("c")| == 1;
    assert "a"[0] != "b"[0] && "b"[0] != "c"[0] && "a"[0] != "c"[0];
  }

  /**
   One such import: the sizes add up to 2^64, the footprint counts no bytes at all, and the preflight asks for next to
   no room.
   */
  lemma WrappedFootprint<M>(rules: Rules<M>, bytes: seq<bv8>) returns (members: seq<Member>)
    requires rules.parse(bytes).Some? && |bytes| <= MANIFEST_LIMIT && rules.maxEntries >= 4
    ensures var scanned := ScanMembers(rules, Some(map[]), members);
            && scanned.Ok? && scanned.value.tree.Some?
            && FootprintOf(scanned.value.tally).dataBytes == 0
            && DiskBound.RequiredBytes(FootprintOf(scanned.value.tally), 1) == Some(1 + DiskBound.RESERVE)
            && 1 + DiskBound.RESERVE < Room(members, scanned.value.tree.value, 1)
  {
    var names, contents := ["a", "b", "c"], [seq(LARGEST, i => 0), seq(LARGEST, i => 0), seq(2, i => 0)];
    hide *;
    SomeOrdinary();
    members := ThreeArchived(rules, bytes, names, contents);
    WrappedGrant(rules, members);
  }

  lemma ThreeArchived<M>(rules: Rules<M>, bytes: seq<bv8>, names: seq<string>, contents: seq<seq<bv8>>)
    returns (members: seq<Member>)
    requires rules.parse(bytes).Some? && |bytes| <= MANIFEST_LIMIT && rules.maxEntries >= 4
    requires |names| == |contents| == 3 && Distinct(names) && forall i | 0 <= i < 3 :: Ordinary(names[i])
    ensures ScanMembers(rules, Some(map[]), members).Ok?
    ensures Sizes(members) == [|contents[0]|, |contents[1]|, |contents[2]|]
    ensures DirsOf(members) == {["data"]} && DatabaseSize(members) == 0
  {
    hide *;
    members := Written(bytes, ThreeFound(names, contents));
    ThreeScanned(rules, bytes, names, contents);
    ThreeMeasured(bytes, names, contents);
  }

  lemma ThreeScanned<M>(rules: Rules<M>, bytes: seq<bv8>, names: seq<string>, contents: seq<seq<bv8>>)
    requires rules.parse(bytes).Some? && |bytes| <= MANIFEST_LIMIT && rules.maxEntries >= 4
    requires |names| == |contents| == 3 && Distinct(names) && forall i | 0 <= i < 3 :: Ordinary(names[i])
    ensures ScanMembers(rules, Some(map[]), Written(bytes, ThreeFound(names, contents))).Ok?
  {
    hide *;
    ThreeWalk(names, contents);
    MembersRoundTrip(rules, bytes, ThreeFiles(names, contents), ThreeFound(names, contents));
  }

  lemma ThreeMeasured(bytes: seq<bv8>, names: seq<string>, contents: seq<seq<bv8>>)
    requires |names| == |contents| == 3 && Distinct(names) && forall i | 0 <= i < 3 :: Ordinary(names[i])
    ensures var members := Written(bytes, ThreeFound(names, contents));
            && Sizes(members) == [|contents[0]|, |contents[1]|, |contents[2]|]
            && DirsOf(members) == {["data"]} && DatabaseSize(members) == 0
  {
    hide *;
    ThreeWalk(names, contents);
    ThreeFiled(names, contents);
    WrittenDirs(bytes, ThreeFiles(names, contents), ThreeFound(names, contents));
    SizesWritten(bytes, ThreeFiles(names, contents), ThreeFound(names, contents));
    NoDatabase(bytes, ThreeFiles(names, contents), ThreeFound(names, contents));
  }

  lemma ThreeFiled(names: seq<string>, contents: seq<seq<bv8>>)
    requires |names| == |contents| == 3 && Distinct(names)
    ensures var tree, walk := ThreeFiles(names, contents), ThreeFound(names, contents);
            forall i | 0 <= i < |walk| ::
              walk[i].path in tree && tree[walk[i].path] == walk[i].item && !walk[i].item.Odd?
  {
    assert forall i | 0 <= i < 3 :: ThreeFound(names, contents)[i].path[0] == names[i];
  }

  lemma WrappedGrant<M>(rules: Rules<M>, members: seq<Member>)
    requires ScanMembers(rules, Some(map[]), members).Ok?
    requires Sizes(members) == [LARGEST, LARGEST, 2] && DirsOf(members) == {["data"]} && DatabaseSize(members) == 0
    ensures var s := ScanMembers(rules, Some(map[]), members).value;
            && s.tree.Some?
            && FootprintOf(s.tally).dataBytes == 0
            && DiskBound.RequiredBytes(FootprintOf(s.tally), 1) == Some(1 + DiskBound.RESERVE)
            && 1 + DiskBound.RESERVE < Room(members, s.tree.value, 1)
  {
    hide ScanMembers, NoClash, Built, Sizes, DirsOf, DatabaseSize, OneManifest, Acceptable, Room,
      DiskBound.RequiredBytes;
    FootprintTrue(rules, members);
    ExtractionExact(rules, members);
    InspectionExact(rules, members);
    PreflightCovers(rules, members, 1);
    WrappedSum();
    var f := FootprintOf(ScanMembers(rules, Some(map[]), members).value.tally);
    assert f.directories == 1 && f.databaseBytes == 0;
    DiskBound.RequiredBytesExact(f, 1);
  }

  lemma WrappedSum()
    ensures DiskBound.Sum([LARGEST, LARGEST, 2]) == DiskBound.LIMIT && DiskBound.LIMIT % DiskBound.LIMIT == 0
  {
    var s: seq<nat> := [LARGEST, LARGEST, 2];
    assert s[1..] == [LARGEST, 2] && [LARGEST, 2][1..] == [2] && [2][1..] == [];
    assert DiskBound.Sum([2]) == 2;
    assert DiskBound.Sum([LARGEST, 2]) == LARGEST + 2;
  }

  // ----- The import -----

  datatype Manifest = Manifest(schemaVersion: int, bundleID: string, appVersion: string, secrets: map<string, string>)

  const SCHEMA_VERSION := 1

  datatype Failure = Incomplete | BadBundle | Unsafe | WrongVersion | Refused | System

  /** One attempt to open the bundle and read it through the decrypting reader. */
  datatype Opening = Missing | Unreadable | Opened(stream: Stream)

  /** `trim` is strings.TrimSpace, `decode` the standard base64 decoder, `preflight` the caller's disk check. */
  datatype Config = Config(bundleID: string, appVersion: string, allowedSecrets: set<string>,
                           trim: string -> string, decode: string -> Option<seq<bv8>>,
                           preflight: DiskBound.Footprint -> bool)

  /** The manifest of a bundle for this program, and for the identifier asked for if one is. */
  predicate MeantFor(config: Config, manifest: Manifest)
  {
    && manifest.schemaVersion == 1 && config.trim(manifest.bundleID) != ""
    && config.trim(config.bundleID) in {"", manifest.bundleID}
    && manifest.appVersion == config.trim(config.appVersion)
  }

  /** The manifest is meant for another version, and all right otherwise. */
  predicate OtherVersion(config: Config, manifest: Manifest)
  {
    && manifest.appVersion != config.trim(config.appVersion)
    && MeantFor(config, manifest.(appVersion := config.trim(config.appVersion)))
  }

  /** `validateImportedArchive`. */
  function Validate(config: Config, report: Report<Manifest>): (failure: Option<Failure>)
    ensures failure == None <==> MeantFor(config, report.manifest) && report.databaseFound
    ensures failure == Some(WrongVersion) <==> OtherVersion(config, report.manifest) && report.databaseFound
    ensures failure in {None, Some(WrongVersion), Some(BadBundle)}
  {
    var manifest := report.manifest;
    var expected := config.trim(config.bundleID);
    if manifest.schemaVersion != SCHEMA_VERSION || config.trim(manifest.bundleID) == "" || !report.databaseFound
    then Some(BadBundle)
    else if expected != "" && manifest.bundleID != expected then Some(BadBundle)
    else if manifest.appVersion != config.trim(config.appVersion) then Some(WrongVersion)
    else None
  }

  predicate SecretValid(config: Config, name: string, value: string)
  {
    name in config.allowedSecrets && config.decode(value).Some? && config.decode(value).value != []
  }

  predicate SecretsValid(config: Config, encoded: map<string, string>)
  {
    forall name | name in encoded :: SecretValid(config, name, encoded[name])
  }

  function Decoded(config: Config, encoded: map<string, string>): map<string, seq<bv8>>
    requires SecretsValid(config, encoded)
  {
    map name | name in encoded :: config.decode(encoded[name]).value
  }

  /** What installing just these entries writes. */
  function Part(config: Config, encoded: map<string, string>, names: set<string>): map<string, seq<bv8>>
  {
    map name | name in names && name in encoded && config.decode(encoded[name]).Some? ::
      config.decode(encoded[name]).value
  }

  lemma PartGrows(config: Config, encoded: map<string, string>, base: map<string, seq<bv8>>, names: set<string>,
                  name: string)
    requires name in encoded && config.decode(encoded[name]).Some?
    ensures base + Part(config, encoded, names + {name})
            == (base + Part(config, encoded, names))[name := config.decode(encoded[name]).value]
  {
  }

  /** What the first pass decides on a bundle, as long as nothing fails by itself. */
  ghost predicate Judged(config: Config, spec: Result<Scan<Manifest>>, members: seq<Member>, failure: Option<Failure>)
  {
    if spec.Err? then failure == Some(if spec.error == UnsafePath then Unsafe else BadBundle)
    else
      && spec.value.tally.manifest.Some?
      && var manifest, database := spec.value.tally.manifest.value, HasDatabase(members);
      && var room := config.preflight(FootprintOf(spec.value.tally));
      && (failure == None <==> database && MeantFor(config, manifest) && room)
      && (failure == Some(Refused) <==> database && MeantFor(config, manifest) && !room)
      && (failure == Some(WrongVersion) <==> database && OtherVersion(config, manifest))
      && failure in {None, Some(Refused), Some(WrongVersion), Some(BadBundle)}
  }

  /** What is true of an imported bundle: what it was extracted to, and everything its manifest had to say. */
  ghost predicate Adopted(config: Config, scan: Scan<Manifest>, members: seq<Member>)
  {
    && scan.tree.Some? && Built(scan.tree.value, DirsOf(members), FilesOf(members))
    && DATABASE_PATH in scan.tree.value && scan.tree.value[DATABASE_PATH].File?
    && scan.tally.manifest.Some? && config.preflight(FootprintOf(scan.tally))
    && var manifest := scan.tally.manifest.value;
    && manifest.schemaVersion == 1 && config.trim(manifest.bundleID) != ""
    && (config.trim(config.bundleID) != "" ==> manifest.bundleID == config.trim(config.bundleID))
    && manifest.appVersion == config.trim(config.appVersion) != ""
    && forall name | name in manifest.secrets ::
         && name in config.allowedSecrets && config.decode(manifest.secrets[name]).Some?
         && |config.decode(manifest.secrets[name]).value| > 0
  }

  /** The secrets behind their encoding. */
  function Installed(config: Config, encoded: map<string, string>): map<string, seq<bv8>>
  {
    map name | name in encoded && config.decode(encoded[name]).Some? :: config.decode(encoded[name]).value
  }

  /** The file read twice is one bundle that extracts, is meant for this program, and has room. */
  ghost predicate Approved(config: Config, rules: Rules<Manifest>, first: Opening, second: Opening)
  {
    && first.Opened? && second == first
    && var spec := ScanStream(rules, first.stream, Some(map[]));
    && config.trim(config.appVersion) != ""
    && spec.Ok? && spec.value.tally.manifest.Some? && MeantFor(config, spec.value.tally.manifest.value)
    && HasDatabase(first.stream.members) && config.preflight(FootprintOf(spec.value.tally))
  }

  /** When `Import` reports true, everything failing by itself aside: the secrets are good as well. */
  ghost predicate Importable(config: Config, rules: Rules<Manifest>, first: Opening, second: Opening)
  {
    && Approved(config, rules, first, second)
    && SecretsValid(config, ScanStream(rules, first.stream, Some(map[])).value.tally.manifest.value.secrets)
  }

  /** The target root and the secret writer beside it. On a reliable one nothing fails by itself. */
  class Root {
    const reliable: bool
    var data: Option<Tree>
    var backup: Option<Tree>
    var marker: Option<Manifest>
    var secrets: map<string, seq<bv8>>
    /** How often putting the previous data back has failed. */
    ghost var undoFailures: nat

    constructor (data: Option<Tree>, marker: Option<Manifest>, secrets: map<string, seq<bv8>>, reliable: bool)
      ensures this.data == data && backup == None && this.marker == marker && this.secrets == secrets
      ensures this.reliable == reliable && undoFailures == 0
    {
      this.data, this.backup, this.marker, this.secrets := data, None, marker, secrets;
      this.reliable, undoFailures := reliable, 0;
    }

    /**
     `installSecrets`: in whatever order the map is walked, success means all of them and nothing else. A failure
     leaves those written that came before.
     */
    method InstallSecrets(config: Config, encoded: map<string, string>)
      returns (failure: Option<Failure>, ghost written: set<string>)
      modifies this`secrets
      ensures written <= encoded.Keys && secrets == old(secrets) + Part(config, encoded, written)
      ensures forall name | name in written :: SecretValid(config, name, encoded[name])
      ensures failure == None ==> SecretsValid(config, encoded) && secrets == old(secrets) + Decoded(config, encoded)
      ensures failure == Some(BadBundle) ==> !SecretsValid(config, encoded)
      ensures failure == None || failure == Some(BadBundle) || (failure == Some(System) && !reliable)
    {
      var todo := encoded.Keys;
      written := {};
      while todo != {}
        invariant todo <= encoded.Keys && written == encoded.Keys - todo
        invariant forall name | name in encoded.Keys - todo :: SecretValid(config, name, encoded[name])
        invariant secrets == old(secrets) + Part(config, encoded, encoded.Keys - todo)
      {
        var name :| name in todo;
        if name !in config.allowedSecrets { return Some(BadBundle), written; }
        var decoded := config.decode(encoded[name]);
        if decoded.None? || decoded.value == [] { return Some(BadBundle), written; }
        var refused: bool := *;
        if refused && !reliable { return Some(System), written; }
        PartGrows(config, encoded, old(secrets), encoded.Keys - todo, name);
        assert encoded.Keys - (todo - {name}) == encoded.Keys - todo + {name};
        secrets := secrets[name := decoded.value];
        todo, written := todo - {name}, written + {name};
      }
      assert SecretsValid(config, encoded);
      assert Part(config, encoded, encoded.Keys) == Decoded(config, encoded);
      failure := None;
    }

    /** The rollback of `replaceDataAndMark`: remove what was put in place and bring back what stood there. */
    method PutBack(hadData: bool)
      modifies this`data, this`undoFailures
      ensures undoFailures == old(undoFailures) ==> data == if hadData then backup else None
      ensures undoFailures != old(undoFailures) ==> undoFailures == old(undoFailures) + 1 && !reliable
    {
      var failed: bool := *;
      if failed && !reliable {
        undoFailures := undoFailures + 1;
        return;
      }
      data := if hadData then backup else None;
    }

    /**
     `replaceDataAndMark`. The marker never carries the secrets. A failure leaves the marker alone, and puts the data
     back unless that fails too.
     */
    method ReplaceDataAndMark(imported: Tree, manifest: Manifest) returns (done: bool)
      modifies this`data, this`backup, this`marker, this`undoFailures
      ensures done ==> data == Some(imported) && marker == Some(manifest.(secrets := map[]))
      ensures done ==> undoFailures == old(undoFailures)
      ensures !done ==> marker == old(marker) && !reliable
      ensures !done && undoFailures == old(undoFailures) ==> data == old(data)
    {
      var failed: bool := *;
      if failed && !reliable { return false; }
      backup := None;
      var hadData := data.Some?;
      if hadData {
        failed := *;
        if failed && !reliable { return false; }
        data, backup := None, data;
      }
      failed := *;
      if !failed || reliable {
        data := Some(imported);
        failed := *;
      }
      if failed && !reliable {
        PutBack(hadData);
        return false;
      }
      marker := Some(manifest.(secrets := map[]));
      backup := None;
      return true;
    }

    /** The first pass of `Import` and what is decided on its result. */
    method InspectBundle(config: Config, rules: Rules<Manifest>, stream: Stream)
      returns (report: Option<Report<Manifest>>, failure: Option<Failure>)
      ensures failure == None ==>
        && ScanStream(rules, stream, None).Ok? && ScanStream(rules, stream, None).value.tally.manifest.Some?
        && report == Some(ReportOf(ScanStream(rules, stream, None).value.tally, stream))
      ensures failure != Some(System) ==> Judged(config, ScanStream(rules, stream, None), stream.members, failure)
      ensures reliable ==> failure != Some(System)
    {
      hide ScanStream, FootprintOf, HasDatabase, MeantFor, OtherVersion;
      StreamFacts(rules, stream);
      var inspection := ScanArchive(rules, stream, null, reliable);
      if inspection.Err? { return None, Some(FailureOf(inspection.error)); }
      report := Some(inspection.value);
      failure := Validate(config, inspection.value);
      if failure == None && !config.preflight(inspection.value.footprint) { failure := Some(Refused); }
    }

    /** The second pass of `Import`, into a temporary directory, and its comparison with the first. */
    method ExtractBundle(config: Config, rules: Rules<Manifest>, inspection: Report<Manifest>, ghost stream: Stream,
                         second: Opening)
      returns (failure: Option<Failure>, tree: Tree, manifest: Manifest)
      requires ScanStream(rules, stream, None).Ok? && ScanStream(rules, stream, None).value.tally.manifest.Some?
      requires inspection == ReportOf(ScanStream(rules, stream, None).value.tally, stream)
      requires MeantFor(config, inspection.manifest) && HasDatabase(stream.members)
      ensures var spec := ScanStream(rules, stream, Some(map[]));
        failure == None ==>
          && second == Opened(stream) && spec.Ok? && spec.value.tree == Some(tree)
          && spec.value.tally.manifest == Some(manifest)
      ensures reliable && second == Opened(stream) && ScanStream(rules, stream, Some(map[])).Ok? ==> failure == None
      ensures failure in {None, Some(BadBundle), Some(Unsafe), Some(System)}
    {
      StreamFacts(rules, stream);
      SameTally(rules, stream);
      hide ScanStream, FootprintOf, HasDatabase, MeantFor, OtherVersion;
      tree, manifest := map[], inspection.manifest;
      var temporary := new Destination(reliable);
      if !second.Opened? { return Some(if second.Missing? then System else BadBundle), tree, manifest; }
      var extraction := ScanArchive(rules, second.stream, temporary, reliable);
      if extraction.Err? { return Some(FailureOf(extraction.error)), tree, manifest; }
      if extraction.value.digest != inspection.digest || extraction.value.footprint != inspection.footprint {
        return Some(BadBundle), tree, manifest;
      }
      failure := Validate(config, extraction.value);
      tree, manifest := temporary.tree, extraction.value.manifest;
    }

    /**
     `Import`. `first` and `second` are what the two openings of the bundle find. When it reports true, both were the
     same bytes, the data is exactly what the members name, and the preflight had agreed to just that footprint.
     `installing`: it came to installing secrets, for an approved bundle only. Before that a failure changes nothing,
     after it the data is put back unless that fails.
     */
    method Import(config: Config, rules: Rules<Manifest>, first: Opening, second: Opening)
      returns (imported: bool, failure: Option<Failure>, ghost installing: bool)
      modifies this
      ensures installing ==> old(marker) == None && Approved(config, rules, first, second)
      ensures imported ==> failure == None && installing
      ensures imported ==>
        var spec := ScanStream(rules, first.stream, Some(map[]));
        spec.Ok? && spec.value.tree == data && Adopted(config, spec.value, first.stream.members)
        && marker == Some(spec.value.tally.manifest.value.(secrets := map[]))
        && secrets == old(secrets) + Installed(config, spec.value.tally.manifest.value.secrets)
      ensures !installing ==> !imported && data == old(data) && secrets == old(secrets)
      ensures !imported ==> marker == old(marker)
      ensures !imported && undoFailures == old(undoFailures) ==> data == old(data)
      ensures installing ==>
        && var encoded := ScanStream(rules, first.stream, Some(map[])).value.tally.manifest.value.secrets;
        && exists written :: written <= encoded.Keys && secrets == old(secrets) + Part(config, encoded, written)
      ensures !imported && failure == None ==> old(marker).Some? || first.Missing?
      ensures reliable && old(marker) == None ==> (imported <==> Importable(config, rules, first, second))
      ensures failure == Some(WrongVersion) || failure == Some(Refused) ==>
        first.Opened? && Judged(config, ScanStream(rules, first.stream, None), first.stream.members, failure)
      ensures reliable && old(marker) == None && config.trim(config.appVersion) != "" && first.Opened? ==>
        forall f :: Judged(config, ScanStream(rules, first.stream, None), first.stream.members, Some(f)) ==>
          failure == Some(f)
      ensures reliable ==> undoFailures == old(undoFailures)
    {
      ApprovedMeans(config, rules, first, second);
      hide ScanStream, SecretsValid, FootprintOf, Part, HasDatabase, MeantFor, Judged, Adopted, Installed, Decoded,
        Approved;
      installing := false;
      if config.trim(config.appVersion) == "" { return false, Some(Incomplete), false; }
      if marker.Some? { return false, None, false; }
      if first.Missing? { return false, None, false; }
      if first.Unreadable? { return false, Some(BadBundle), false; }
      var inspection;
      inspection, failure := InspectBundle(config, rules, first.stream);
      if failure != Some(System) {
        JudgedOne(config, ScanStream(rules, first.stream, None), first.stream.members, failure);
        JudgedOnce(config, ScanStream(rules, first.stream, None), first.stream.members);
      }
      if failure.Some? { return false, failure, false; }
      var tree, manifest;
      failure, tree, manifest := ExtractBundle(config, rules, inspection.value, first.stream, second);
      if failure.Some? { return false, failure, false; }
      installing := true;
      ghost var written;
      failure, written := InstallSecrets(config, manifest.secrets);
      if failure.Some? { return false, failure, true; }
      imported := ReplaceDataAndMark(tree, manifest);
      if !imported { return false, Some(System), true; }
      ApprovedAdopted(config, rules, first.stream);
    }
  }

  /** What either pass over a stream says of its manifest and its database, and which errors there are. */
  lemma StreamFacts<M>(rules: Rules<M>, stream: Stream)
    ensures forall tree | tree in {None, Some(map[])} ::
              var spec := ScanStream(rules, stream, tree);
              spec.Ok? ==>
                spec.value.tally.manifest.Some? && (spec.value.tally.databaseFound <==> HasDatabase(stream.members))
    ensures var spec := ScanStream(rules, stream, None); spec.Err? ==> spec.error in {InvalidBundle, UnsafePath}
  {
    hide Totals, Acceptable, OneManifest, NoClash, Built, HasDatabase, DirsOf;
    InspectionExact(rules, stream.members);
    ExtractionExact(rules, stream.members);
    if ScanMembers(rules, None, stream.members).Err? { InspectionErrors(rules, stream.members); }
  }

  /** Where extraction gets through, inspection does as well, with the same tally. */
  lemma SameTally<M>(rules: Rules<M>, stream: Stream)
    ensures var inspected, spec := ScanStream(rules, stream, None), ScanStream(rules, stream, Some(map[]));
            spec.Ok? ==> inspected.Ok? && inspected.value.tally == spec.value.tally
  {
    ExtractionExact(rules, stream.members);
  }

  /** Inspection decides one thing only, and lets pass only what is meant for this program and has room. */
  lemma JudgedOnce(config: Config, spec: Result<Scan<Manifest>>, members: seq<Member>)
    ensures forall f, g :: Judged(config, spec, members, f) && Judged(config, spec, members, g) ==> f == g
    ensures Judged(config, spec, members, None) ==>
      && spec.Ok? && spec.value.tally.manifest.Some? && HasDatabase(members)
      && MeantFor(config, spec.value.tally.manifest.value) && config.preflight(FootprintOf(spec.value.tally))
    ensures spec.Ok? && spec.value.tally.manifest.Some? && HasDatabase(members) ==>
      MeantFor(config, spec.value.tally.manifest.value) && config.preflight(FootprintOf(spec.value.tally)) ==>
      Judged(config, spec, members, None)
  {
    hide HasDatabase, FootprintOf;
  }

  lemma ApprovedAdopted(config: Config, rules: Rules<Manifest>, stream: Stream)
    requires Approved(config, rules, Opened(stream), Opened(stream))
    requires SecretsValid(config, ScanStream(rules, stream, Some(map[])).value.tally.manifest.value.secrets)
    ensures var spec := ScanStream(rules, stream, Some(map[])).value;
            && Adopted(config, spec, stream.members)
            && Installed(config, spec.tally.manifest.value.secrets)
               == Decoded(config, spec.tally.manifest.value.secrets)
  {
    StreamTree(rules, stream);
    DatabaseThere(rules, stream);
    hide ScanStream, Built, HasDatabase, DirsOf, FootprintOf, FilesOf, Adopted, SecretsValid, Installed, Decoded,
      MeantFor;
    AdoptedFrom(config, ScanStream(rules, stream, Some(map[])).value, stream.members);
    SecretsInstalled(config, ScanStream(rules, stream, Some(map[])).value.tally.manifest.value.secrets);
  }

  lemma AdoptedFrom(config: Config, scan: Scan<Manifest>, members: seq<Member>)
    requires scan.tree.Some? && Built(scan.tree.value, DirsOf(members), FilesOf(members))
    requires DATABASE_PATH in scan.tree.value && scan.tree.value[DATABASE_PATH].File?
    requires scan.tally.manifest.Some? && config.preflight(FootprintOf(scan.tally))
    requires MeantFor(config, scan.tally.manifest.value) && config.trim(config.appVersion) != ""
    requires SecretsValid(config, scan.tally.manifest.value.secrets)
    ensures Adopted(config, scan, members)
  {
    hide Built, DirsOf, FilesOf, FootprintOf;
  }

  lemma SecretsInstalled(config: Config, encoded: map<string, string>)
    requires SecretsValid(config, encoded)
    ensures Installed(config, encoded) == Decoded(config, encoded)
  {
  }

  lemma StreamTree<M>(rules: Rules<M>, stream: Stream)
    requires ScanStream(rules, stream, Some(map[])).Ok?
    ensures var tree := ScanStream(rules, stream, Some(map[])).value.tree;
            tree.Some? && Built(tree.value, DirsOf(stream.members), FilesOf(stream.members))
  {
    ExtractionExact(rules, stream.members);
  }

  lemma DatabaseThere<M>(rules: Rules<M>, stream: Stream)
    requires ScanStream(rules, stream, Some(map[])).Ok? && HasDatabase(stream.members)
    ensures var tree := ScanStream(rules, stream, Some(map[])).value.tree;
            tree.Some? && DATABASE_PATH in tree.value && tree.value[DATABASE_PATH].File?
  {
    StreamFacts(rules, stream);
    StreamDatabase(rules, stream);
  }

  /** An approved bundle is one that inspection lets pass and extraction gets through. */
  lemma ApprovedMeans(config: Config, rules: Rules<Manifest>, first: Opening, second: Opening)
    ensures Approved(config, rules, first, second) <==>
            && first.Opened? && second == first && config.trim(config.appVersion) != ""
            && ScanStream(rules, first.stream, Some(map[])).Ok?
            && Judged(config, ScanStream(rules, first.stream, None), first.stream.members, None)
  {
    if first.Opened? {
      StreamFacts(rules, first.stream);
      SameTally(rules, first.stream);
      JudgedOnce(config, ScanStream(rules, first.stream, None), first.stream.members);
    }
    hide ScanStream, HasDatabase, FootprintOf, Judged, MeantFor;
  }

  lemma JudgedOne(config: Config, spec: Result<Scan<Manifest>>, members: seq<Member>, failure: Option<Failure>)
    requires Judged(config, spec, members, failure)
    ensures forall f :: Judged(config, spec, members, Some(f)) ==> failure == Some(f)
  {
    hide Judged;
    JudgedOnce(config, spec, members);
  }

  // ----- What was packed can be imported -----

  /** The manifest `Pack` writes. */
  function PackedManifest(trim: string -> string, bundleID: string, appVersion: string, secrets: map<string, string>)
    : Manifest
  {
    Manifest(SCHEMA_VERSION, trim(bundleID), trim(appVersion), secrets)
  }

  /** `collectSecrets`: every allowed secret there is, encoded; an empty one is an error. */
  method CollectSecrets(allowed: set<string>, reader: map<string, seq<bv8>>, encode: seq<bv8> -> string)
    returns (secrets: Option<map<string, string>>)
    ensures secrets.None? <==> exists name | name in allowed && name in reader :: reader[name] == []
    ensures secrets.Some? ==> secrets.value == map name | name in allowed && name in reader :: encode(reader[name])
  {
    var todo, result := allowed, map[];
    while todo != {}
      invariant todo <= allowed
      invariant forall name | name in allowed - todo && name in reader :: reader[name] != []
      invariant result == map name | name in allowed - todo && name in reader :: encode(reader[name])
    {
      var name :| name in todo;
      if name in reader {
        if reader[name] == [] { return None; }
        result := result[name := encode(reader[name])];
      }
      todo := todo - {name};
    }
    secrets := Some(result);
  }

  /** The secrets collected on one side are valid on the other, and installing them gives back what was read. */
  lemma SecretsComeBack(config: Config, reader: map<string, seq<bv8>>, encode: seq<bv8> -> string)
    requires forall b :: config.decode(encode(b)) == Some(b)
    requires forall name | name in config.allowedSecrets && name in reader :: reader[name] != []
    ensures var collected := map name | name in config.allowedSecrets && name in reader :: encode(reader[name]);
            && SecretsValid(config, collected)
            && Installed(config, collected)
               == map name | name in config.allowedSecrets && name in reader :: reader[name]
  {
  }

  /** A packed manifest is meant for just those who ask for its identifier, or for none, and have its version. */
  lemma PackedIsMeant(config: Config, bundleID: string, appVersion: string, secrets: map<string, string>)
    requires forall t :: config.trim(config.trim(t)) == config.trim(t)
    ensures MeantFor(config, PackedManifest(config.trim, bundleID, appVersion, secrets)) <==>
            && config.trim(bundleID) != "" && config.trim(config.bundleID) in {"", config.trim(bundleID)}
            && config.trim(appVersion) == config.trim(config.appVersion)
  {
  }

  /**
   A data tree packed with a manifest is imported, where nothing fails by itself, exactly if it holds a database, no
   name holds a backslash, its entries and bytes are within the limits, the manifest is meant for the importer, its
   secrets are valid and there is room; and what is extracted is the tree.
   */
  lemma PackedImports(config: Config, rules: Rules<Manifest>, bytes: seq<bv8>, tree: SourceTree, walk: seq<Found>,
                      weight: nat, cut: seq<Member>)
    requires Rooted(tree) && WalkOf(walk, tree) && AllPackable(tree)
    requires rules.parse(bytes).Some? && |bytes| <= MANIFEST_LIMIT
    ensures var stream := Unpacked(Written(bytes, walk), weight, cut, MAX_UNCOMPRESSED);
            var manifest, spec := rules.parse(bytes).value, ScanStream(rules, stream, Some(map[]));
            && (Importable(config, rules, Opened(stream), Opened(stream)) <==>
                && weight <= MAX_UNCOMPRESSED && |tree| + 1 <= rules.maxEntries
                && (forall p | p in tree :: NoBackslash(p))
                && ["app.db"] in tree && tree[["app.db"]].Content?
                && MeantFor(config, manifest) && manifest.appVersion != "" && SecretsValid(config, manifest.secrets)
                && spec.Ok? && config.preflight(FootprintOf(spec.value.tally)))
            && (spec.Ok? ==> spec.value.tree.Some? && Restores(tree, spec.value.tree.value))
  {
    RoundTrip(rules, bytes, tree, walk, weight, cut, MAX_UNCOMPRESSED);
    var stream := Unpacked(Written(bytes, walk), weight, cut, MAX_UNCOMPRESSED);
    var spec := ScanStream(rules, stream, Some(map[]));
    ImportableMeans(config, rules, stream);
    hide ScanStream, Rooted, WalkOf, AllPackable, Restores, NoBackslash, HasDatabase, SecretsValid, FootprintOf,
      Written, Unpacked, Importable;
    if spec.Ok? { DatabasePacked(tree, spec.value.tree.value); }
  }

  /** The same file read twice can be imported exactly if it extracts, with a database, and is meant for it. */
  lemma ImportableMeans(config: Config, rules: Rules<Manifest>, stream: Stream)
    ensures Importable(config, rules, Opened(stream), Opened(stream)) <==>
            var spec := ScanStream(rules, stream, Some(map[]));
            && config.trim(config.appVersion) != ""
            && spec.Ok? && spec.value.tally.manifest.Some? && spec.value.tree.Some?
            && MeantFor(config, spec.value.tally.manifest.value) && config.preflight(FootprintOf(spec.value.tally))
            && SecretsValid(config, spec.value.tally.manifest.value.secrets)
            && DATABASE_PATH in spec.value.tree.value && spec.value.tree.value[DATABASE_PATH].File?
  {
    if ScanStream(rules, stream, Some(map[])).Ok? {
      StreamFacts(rules, stream);
      StreamDatabase(rules, stream);
    }
    hide ScanStream, HasDatabase, MeantFor, SecretsValid, FootprintOf;
  }

  lemma DatabasePacked(source: SourceTree, tree: Tree)
    requires Restores(source, tree)
    ensures DATABASE_PATH in tree && tree[DATABASE_PATH].File? <==>
            ["app.db"] in source && source[["app.db"]].Content?
  {
    assert Moved(["app.db"]) == DATABASE_PATH;
    forall p | p in source && Moved(p) == DATABASE_PATH ensures p == ["app.db"] { MovedApart(p, ["app.db"]); }
  }

  lemma StreamDatabase<M>(rules: Rules<M>, stream: Stream)
    requires ScanStream(rules, stream, Some(map[])).Ok?
    ensures var s := ScanStream(rules, stream, Some(map[])).value;
            && s.tree.Some?
            && (s.tally.databaseFound <==> DATABASE_PATH in s.tree.value && s.tree.value[DATABASE_PATH].File?)
  {
    ExtractionMeaning(rules, stream.members);
  }

  function FailureOf(error: Error): Failure
  {
    match error
    case InvalidBundle => BadBundle
    case UnsafePath => Unsafe
    case _ => System
  }
}
