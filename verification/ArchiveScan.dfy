/**
 The archive scanner (internal/bootstrapstate/archive.go). One loop serves two passes: the first only inspects, the
 second also writes below a destination. Tar, gzip and JSON are taken apart before the model begins: a stream is a
 list of members, cut short where a member's content is shorter than its declared size, or damaged after the last.
 */
module ArchiveScan {
  import opened Ordering
  import opened Splitting
  import opened ArchivePaths
  import DiskBound

  const MANIFEST := "manifest.json"
  const DATABASE := "data/app.db"
  const MANIFEST_LIMIT := 1048576

  /** A name taken apart at its slashes. */
  type Path = seq<string>

  datatype Kind = Regular | RegularOld | Directory | Other

  datatype Member = Member(name: string, kind: Kind, size: int, content: seq<bv8>)

  datatype Stream = Stream(members: seq<Member>, intact: bool)

  datatype Error = InvalidBundle | UnsafePath | Occupied | Interrupted

  datatype Result<+T> = Ok(value: T) | Err(error: Error)

  datatype Entry = Dir | File(content: seq<bv8>)

  type Tree = map<Path, Entry>

  datatype Rules<!M> = Rules(parse: seq<bv8> -> Option<M>, maxEntries: DiskBound.uint64)

  /** The scan loop's own variables. */
  datatype Tally<M> = Tally(manifest: Option<M>, entries: nat, dataBytes: nat, regularFiles: nat,
                            databaseBytes: nat, databaseFound: bool, directories: set<Path>)

  /** They and what stands below the destination; the inspection pass has no destination. */
  datatype Scan<M> = Scan(tally: Tally<M>, tree: Option<Tree>)

  function Empty<M>(): Tally<M> { Tally(None, 0, 0, 0, 0, false, {}) }

  predicate IsData(m: Member) { m.name != MANIFEST }

  predicate IsFile(m: Member) { IsData(m) && (m.kind == Regular || m.kind == RegularOld) }

  predicate Whole(m: Member) { |m.content| == m.size }

  predicate Admitted(m: Member) { Safe(m.name) && (m.name == MANIFEST || "data/" <= m.name) }

  /** The path itself and every directory above it. */
  function Prefixes(path: Path): set<Path> { set k | 1 <= k <= |path| :: path[..k] }

  /** The deepest directory a member calls for. */
  function Home(m: Member): Path
  {
    var path := Split(m.name);
    if m.kind == Directory then path else path[..|path| - 1]
  }

  function MkdirAll(tree: Tree, path: Path): Result<Tree>
  {
    if exists p | p in Prefixes(path) :: p in tree && tree[p].File? then Err(Occupied)
    else Ok(tree + map p | p in Prefixes(path) :: Dir)
  }

  /** Exclusive creation below directories made on the way. */
  function CreateFile(tree: Tree, path: Path, content: seq<bv8>): Result<Tree>
    requires path != []
  {
    match MkdirAll(tree, path[..|path| - 1])
    case Err(e) => Err(e)
    case Ok(made) => if path in made then Err(Occupied) else Ok(made[path := File(content)])
  }

  /** What extraction does for a member of the data tree. */
  function Place(tree: Tree, m: Member): Result<Tree>
  {
    if m.kind == Directory then MkdirAll(tree, Split(m.name)) else CreateFile(tree, Split(m.name), m.content)
  }

  function CheckManifest<M>(rules: Rules<M>, s: Tally<M>, m: Member): Result<Tally<M>>
  {
    if s.manifest.Some? || m.kind != Regular || m.size > MANIFEST_LIMIT || !Whole(m)
       || rules.parse(m.content).None?
    then Err(InvalidBundle)
    else Ok(s.(manifest := rules.parse(m.content)))
  }

  function CountFile<M>(s: Tally<M>, m: Member): Tally<M>
    requires m.size >= 0
  {
    s.(directories := s.directories + Prefixes(Home(m)),
       dataBytes := (s.dataBytes + m.size) % DiskBound.LIMIT,
       regularFiles := s.regularFiles + 1,
       databaseBytes := if m.name == DATABASE then m.size else s.databaseBytes,
       databaseFound := s.databaseFound || m.name == DATABASE)
  }

  /** One turn of the loop up to the point where content is copied. */
  function Check<M>(rules: Rules<M>, before: Tally<M>, m: Member): Result<Tally<M>>
  {
    var s := before.(entries := before.entries + 1);
    if s.entries > rules.maxEntries then Err(InvalidBundle)
    else if !Admitted(m) then Err(UnsafePath)
    else if m.size < 0 then Err(InvalidBundle)
    else if m.name == MANIFEST then CheckManifest(rules, s, m)
    else if m.kind == Directory then
      if m.size != 0 then Err(InvalidBundle) else Ok(s.(directories := s.directories + Prefixes(Home(m))))
    else if IsFile(m) then Ok(CountFile(s, m))
    else Err(UnsafePath)
  }

  /** The copying: into the tree if there is one, and to the end of the declared size. */
  function Copy(tree: Option<Tree>, m: Member): Result<Option<Tree>>
  {
    if !IsData(m) then Ok(tree)
    else if tree.None? then if IsFile(m) && !Whole(m) then Err(InvalidBundle) else Ok(None)
    else
      match Place(tree.value, m)
      case Err(e) => Err(e)
      case Ok(placed) => if IsFile(m) && !Whole(m) then Err(InvalidBundle) else Ok(Some(placed))
  }

  function Step<M>(rules: Rules<M>, s: Scan<M>, m: Member): Result<Scan<M>>
  {
    match Check(rules, s.tally, m)
    case Err(e) => Err(e)
    case Ok(tally) =>
      match Copy(s.tree, m)
      case Err(e) => Err(e)
      case Ok(tree) => Ok(Scan(tally, tree))
  }

  function ScanMembers<M>(rules: Rules<M>, tree: Option<Tree>, members: seq<Member>): Result<Scan<M>>
  {
    if members == [] then Ok(Scan(Empty(), tree)) else
    match ScanMembers(rules, tree, members[..|members| - 1])
    case Err(e) => Err(e)
    case Ok(s) => Step(rules, s, members[|members| - 1])
  }

  lemma {:induction false} ErrorStays<M>(rules: Rules<M>, tree: Option<Tree>, members: seq<Member>, n: nat)
    requires n <= |members| && ScanMembers(rules, tree, members[..n]).Err?
    ensures ScanMembers(rules, tree, members) == ScanMembers(rules, tree, members[..n])
  {
    if n == |members| {
      assert members[..n] == members;
    } else {
      var init := members[..|members| - 1];
      assert init[..n] == members[..n];
      ErrorStays(rules, tree, init, n);
    }
  }

  /** `scanArchiveWithLimits`: the loop, then the checks behind it. */
  function ScanStream<M>(rules: Rules<M>, stream: Stream, tree: Option<Tree>): Result<Scan<M>>
  {
    if rules.maxEntries == 0 then Err(InvalidBundle) else
    match ScanMembers(rules, tree, stream.members)
    case Err(e) => Err(e)
    case Ok(s) => if s.tally.manifest.None? || !stream.intact then Err(InvalidBundle) else Ok(s)
  }

  // ----- What inspection accepts, member by member -----

  predicate Acceptable<M>(rules: Rules<M>, m: Member)
  {
    && Admitted(m)
    && (m.name == MANIFEST ==>
          m.kind == Regular && m.size <= MANIFEST_LIMIT && Whole(m) && rules.parse(m.content).Some?)
    && (IsData(m) ==> (m.kind == Directory && m.size == 0) || (IsFile(m) && Whole(m)))
  }

  /** The same by the letter: a name of plain components, and what may stand under it. */
  lemma AcceptableExact<M>(rules: Rules<M>, m: Member)
    ensures Acceptable(rules, m) <==>
            && '\\' !in m.name && AllPlain(Split(m.name))
            && if m.name == "manifest.json"
               then m.kind == Regular && |m.content| == m.size <= 1024 * 1024 && rules.parse(m.content).Some?
               else
                 && "data/" <= m.name
                 && (if m.kind == Directory then m.size == 0 else m.kind != Other && |m.content| == m.size)
  {
    SafeNames(m.name);
    hide Safe, Split, AllPlain;
  }

  ghost predicate OneManifest(members: seq<Member>)
  {
    forall i, j | 0 <= i < j < |members| :: members[i].name == MANIFEST ==> members[j].name != MANIFEST
  }

  /** The directories one member implies. */
  function Called(m: Member): set<Path> { if IsData(m) then Prefixes(Home(m)) else {} }

  ghost function DirsOf(members: seq<Member>): set<Path>
  {
    set i, p | 0 <= i < |members| && p in Called(members[i]) :: p
  }

  ghost function FilePaths(members: seq<Member>): set<Path>
  {
    set i | 0 <= i < |members| && IsFile(members[i]) :: Split(members[i].name)
  }

  /** The declared sizes of the regular files, in archive order. */
  function Sizes(members: seq<Member>): seq<nat>
  {
    if members == [] then [] else
    var m := members[|members| - 1];
    Sizes(members[..|members| - 1]) + if IsFile(m) && m.size >= 0 then [m.size] else []
  }

  lemma {:induction false} SumAppend(sizes: seq<nat>, last: nat)
    ensures DiskBound.Sum(sizes + [last]) == DiskBound.Sum(sizes) + last
  {
    if sizes != [] {
      assert (sizes + [last])[1..] == sizes[1..] + [last];
      SumAppend(sizes[1..], last);
    } else {
      assert sizes + [last] == [last];
    }
  }

  lemma AddModulo(a: nat, b: nat)
    ensures (a % DiskBound.LIMIT + b) % DiskBound.LIMIT == (a + b) % DiskBound.LIMIT
  {
  }

  ghost predicate HasDatabase(members: seq<Member>)
  {
    exists i | 0 <= i < |members| :: IsFile(members[i]) && members[i].name == DATABASE
  }

  /** The size of the last database among the members. */
  function DatabaseSize(members: seq<Member>): int
  {
    if members == [] then 0 else
    var m := members[|members| - 1];
    if IsFile(m) && m.name == DATABASE then m.size else DatabaseSize(members[..|members| - 1])
  }

  ghost predicate Totals<M>(s: Tally<M>, members: seq<Member>)
  {
    && s.entries == |members|
    && s.dataBytes == DiskBound.Sum(Sizes(members)) % DiskBound.LIMIT
    && s.regularFiles == |Sizes(members)|
    && s.directories == DirsOf(members)
  }

  ghost predicate FoundIn<M>(rules: Rules<M>, s: Tally<M>, members: seq<Member>)
  {
    && (s.manifest.None? <==> forall i | 0 <= i < |members| :: members[i].name != MANIFEST)
    && (forall i | 0 <= i < |members| && members[i].name == MANIFEST :: s.manifest == rules.parse(members[i].content))
    && (s.databaseFound <==> HasDatabase(members)) && s.databaseBytes == DatabaseSize(members)
  }

  /** The loop's variables say what the members are. */
  ghost predicate Describes<M>(rules: Rules<M>, s: Tally<M>, members: seq<Member>)
  {
    Totals(s, members) && FoundIn(rules, s, members)
  }

  lemma SnocDirs(init: seq<Member>, m: Member)
    ensures DirsOf(init + [m]) == DirsOf(init) + Called(m)
    ensures FilePaths(init + [m]) == FilePaths(init) + if IsFile(m) then {Split(m.name)} else {}
  {
    var all := init + [m];
    assert forall i | 0 <= i < |init| :: all[i] == init[i];
    assert all[|init|] == m;
    forall p | p in DirsOf(init) + Called(m) ensures p in DirsOf(all) {
      if p in DirsOf(init) {
        var i :| 0 <= i < |init| && p in Called(init[i]);
        assert p in Called(all[i]);
      } else {
        assert p in Called(all[|init|]);
      }
    }
    forall p | p in FilePaths(init) ensures p in FilePaths(all) {
      var i :| 0 <= i < |init| && IsFile(init[i]) && Split(init[i].name) == p;
      assert IsFile(all[i]);
    }
  }

  lemma TotalsStep<M>(rules: Rules<M>, s: Tally<M>, init: seq<Member>, m: Member)
    requires Totals(s, init) && Check(rules, s, m).Ok?
    ensures Totals(Check(rules, s, m).value, init + [m])
  {
    hide Safe, Prefixes, Home, DirsOf;
    var all := init + [m];
    SnocDirs(init, m);
    assert all[..|all| - 1] == init && all[|init|] == m;
    if IsFile(m) {
      SumAppend(Sizes(init), m.size);
      AddModulo(DiskBound.Sum(Sizes(init)), m.size);
    } else {
      assert Sizes(all) == Sizes(init);
    }
  }

  lemma FoundStep<M>(rules: Rules<M>, s: Tally<M>, init: seq<Member>, m: Member)
    requires FoundIn(rules, s, init) && Check(rules, s, m).Ok?
    ensures FoundIn(rules, Check(rules, s, m).value, init + [m])
  {
    hide Safe, Prefixes, Home;
    var all := init + [m];
    assert all[..|all| - 1] == init;
    assert forall i | 0 <= i < |init| :: all[i] == init[i];
    assert all[|init|] == m;
    if s.databaseFound {
      var i :| 0 <= i < |init| && IsFile(init[i]) && init[i].name == DATABASE;
      assert IsFile(all[i]) && all[i].name == DATABASE;
    } else if IsFile(m) && m.name == DATABASE {
      assert IsFile(all[|init|]);
    }
  }

  lemma InspectStep<M>(rules: Rules<M>, s: Tally<M>, m: Member)
    ensures Check(rules, s, m).Ok? && Copy(None, m).Ok? <==>
      s.entries < rules.maxEntries && Acceptable(rules, m) && (m.name == MANIFEST ==> s.manifest.None?)
  {
    hide Safe, Prefixes, Home;
  }

  /**
   Inspection accepts a list exactly when every member is acceptable by itself, there is at most one manifest, and
   there are not too many; its counters then are totals over the whole list.
   */
  lemma {:induction false} InspectionExact<M>(rules: Rules<M>, members: seq<Member>)
    ensures ScanMembers(rules, None, members).Ok? <==>
            |members| <= rules.maxEntries && OneManifest(members)
            && forall i | 0 <= i < |members| :: Acceptable(rules, members[i])
    ensures var r := ScanMembers(rules, None, members);
            r.Ok? ==> r.value.tree.None? && Describes(rules, r.value.tally, members)
  {
    hide Check, Acceptable;
    if members != [] {
      var init, m := members[..|members| - 1], members[|members| - 1];
      assert init + [m] == members;
      InspectionExact(rules, init);
      assert forall i | 0 <= i < |init| :: init[i] == members[i];
      var r := ScanMembers(rules, None, init);
      if r.Ok? {
        InspectStep(rules, r.value.tally, m);
        if Check(rules, r.value.tally, m).Ok? {
          TotalsStep(rules, r.value.tally, init, m);
          FoundStep(rules, r.value.tally, init, m);
        }
        assert OneManifest(members) <==> (m.name == MANIFEST ==> r.value.tally.manifest.None?);
      }
    }
  }

  lemma RefusedStep<M>(rules: Rules<M>, s: Tally<M>, m: Member)
    requires Step(rules, Scan(s, None), m).Err?
    ensures var unsafe := !Admitted(m) || (m.name != MANIFEST && m.kind == Other && m.size >= 0);
            Step(rules, Scan(s, None), m)
            == Err(if s.entries < rules.maxEntries && unsafe then UnsafePath else InvalidBundle)
  {
    hide Admitted, Prefixes, Home;
  }

  /** Inspection knows two errors. */
  lemma {:induction false} InspectionErrors<M>(rules: Rules<M>, members: seq<Member>)
    requires ScanMembers(rules, None, members).Err?
    ensures ScanMembers(rules, None, members).error in {InvalidBundle, UnsafePath}
  {
    hide Step;
    var init, m := members[..|members| - 1], members[|members| - 1];
    var r := ScanMembers(rules, None, init);
    if r.Err? {
      InspectionErrors(rules, init);
    } else {
      InspectionExact(rules, init);
      RefusedStep(rules, r.value.tally, m);
    }
  }

  /**
   Which error a refused list gets: the first member that cannot be taken decides. A name that could lead elsewhere,
   or anything but a file or a directory, is unsafe; all the rest is a bad bundle.
   */
  lemma FirstRefusal<M>(rules: Rules<M>, members: seq<Member>, n: nat)
    requires n < |members| && ScanMembers(rules, None, members[..n]).Ok?
    requires ScanMembers(rules, None, members[..n + 1]).Err?
    ensures var m := members[n];
            var unsafe := '\\' in m.name || !AllPlain(Split(m.name)) || (m.name != MANIFEST && !("data/" <= m.name))
                          || (m.name != MANIFEST && m.kind == Other && m.size >= 0);
            ScanMembers(rules, None, members)
            == Err(if n < rules.maxEntries && unsafe then UnsafePath else InvalidBundle)
  {
    var m := members[n];
    ErrorStays(rules, None, members, n + 1);
    assert members[..n + 1][..n] == members[..n];
    InspectionExact(rules, members[..n]);
    SafeNames(m.name);
    hide Safe, Split, AllPlain, Step, FoundIn, Acceptable, OneManifest;
    RefusedStep(rules, ScanMembers(rules, None, members[..n]).value.tally, m);
  }

  // ----- What extraction builds -----

  /** The contents of the regular files by path. */
  function FilesOf(members: seq<Member>): map<Path, seq<bv8>>
  {
    if members == [] then map[] else
    var m := members[|members| - 1];
    var earlier := FilesOf(members[..|members| - 1]);
    if IsFile(m) then earlier[Split(m.name) := m.content] else earlier
  }

  /** No file shares its path with another file or with a directory some other member calls for. */
  ghost predicate NoClash(members: seq<Member>)
  {
    forall i, j | 0 <= i < |members| && 0 <= j < |members| && i != j && IsFile(members[i]) ::
      Apart(members[i], members[j])
  }

  predicate Apart(file: Member, other: Member)
  {
    && Split(file.name) !in Called(other)
    && (IsFile(other) ==> Split(file.name) != Split(other.name))
  }

  /** The tree holds exactly these directories and these files. */
  ghost predicate Built(tree: Tree, dirs: set<Path>, files: map<Path, seq<bv8>>)
  {
    && dirs !! files.Keys
    && tree.Keys == dirs + files.Keys
    && (forall p | p in dirs :: tree[p] == Dir)
    && (forall p | p in files :: tree[p] == File(files[p]))
  }

  lemma MkdirExact(tree: Tree, dirs: set<Path>, files: map<Path, seq<bv8>>, path: Path)
    requires Built(tree, dirs, files)
    ensures MkdirAll(tree, path).Ok? <==> Prefixes(path) !! files.Keys
    ensures MkdirAll(tree, path).Ok? ==> Built(MkdirAll(tree, path).value, dirs + Prefixes(path), files)
  {
    hide Prefixes;
    if p :| p in Prefixes(path) && p in files { assert p in tree && tree[p].File?; }
  }

  lemma CreateExact(tree: Tree, dirs: set<Path>, files: map<Path, seq<bv8>>, path: Path, content: seq<bv8>)
    requires Built(tree, dirs, files) && path != []
    ensures var parents := Prefixes(path[..|path| - 1]);
            CreateFile(tree, path, content).Ok? <==> parents !! files.Keys && path !in files && path !in dirs
    ensures CreateFile(tree, path, content).Ok? ==>
      Built(CreateFile(tree, path, content).value, dirs + Prefixes(path[..|path| - 1]), files[path := content])
  {
    var parents := Prefixes(path[..|path| - 1]);
    assert path !in parents by {
      assert forall p | p in parents :: |p| < |path|;
    }
    MkdirExact(tree, dirs, files, path[..|path| - 1]);
    hide Prefixes, MkdirAll;
  }

  /** The last member finds its place exactly when it clashes with none before it. */
  ghost predicate Fits(init: seq<Member>, m: Member)
  {
    forall i | 0 <= i < |init| ::
      (IsFile(init[i]) ==> Apart(init[i], m)) && (IsFile(m) ==> Apart(m, init[i]))
  }

  lemma NoClashSnoc(init: seq<Member>, m: Member)
    ensures NoClash(init + [m]) <==> NoClash(init) && Fits(init, m)
  {
    hide Apart, IsFile;
    var all := init + [m];
    assert all[|init|] == m;
    assert forall i | 0 <= i < |init| :: all[i] == init[i];
    if NoClash(all) {
      forall i | 0 <= i < |init|
        ensures (IsFile(init[i]) ==> Apart(init[i], m)) && (IsFile(m) ==> Apart(m, init[i]))
      {
        assert IsFile(all[i]) ==> Apart(all[i], all[|init|]);
        assert IsFile(all[|init|]) ==> Apart(all[|init|], all[i]);
      }
      forall i, j | 0 <= i < |init| && 0 <= j < |init| && i != j && IsFile(init[i])
        ensures Apart(init[i], init[j])
      { assert Apart(all[i], all[j]); }
    }
  }

  lemma {:induction false} FileKeys(members: seq<Member>)
    ensures FilesOf(members).Keys == FilePaths(members)
  {
    if members != [] {
      var init, m := members[..|members| - 1], members[|members| - 1];
      assert init + [m] == members;
      FileKeys(init);
      SnocDirs(init, m);
    }
  }

  lemma FitsByPath(init: seq<Member>, m: Member)
    ensures Fits(init, m) <==>
            && Called(m) !! FilePaths(init)
            && (IsFile(m) ==> Split(m.name) !in FilePaths(init) && Split(m.name) !in DirsOf(init))
  {
    hide Called, Split, IsFile;
    var path := Split(m.name);
    if Fits(init, m) {
      forall p | p in FilePaths(init) ensures p !in Called(m) && (IsFile(m) ==> p != path) {
        var i :| 0 <= i < |init| && IsFile(init[i]) && Split(init[i].name) == p;
        assert Apart(init[i], m);
      }
      forall p | p in DirsOf(init) ensures IsFile(m) ==> p != path {
        var i :| 0 <= i < |init| && p in Called(init[i]);
        assert IsFile(m) ==> Apart(m, init[i]);
      }
    } else {
      var i :| 0 <= i < |init| && !((IsFile(init[i]) ==> Apart(init[i], m)) && (IsFile(m) ==> Apart(m, init[i])));
      if path in Called(init[i]) { assert path in DirsOf(init); }
      if IsFile(init[i]) { assert Split(init[i].name) in FilePaths(init); }
    }
  }

  lemma CopyStep(tree: Tree, init: seq<Member>, m: Member)
    requires Built(tree, DirsOf(init), FilesOf(init)) && (IsData(m) ==> m.kind == Directory || IsFile(m))
    ensures Copy(Some(tree), m).Ok? <==> Copy(None, m).Ok? && Fits(init, m)
    ensures Copy(Some(tree), m).Ok? ==>
      && Copy(Some(tree), m).value.Some?
      && Built(Copy(Some(tree), m).value.value, DirsOf(init + [m]), FilesOf(init + [m]))
  {
    hide DirsOf, FilePaths, Fits, Prefixes, MkdirAll, CreateFile, Split, Built;
    FileKeys(init);
    FitsByPath(init, m);
    SnocDirs(init, m);
    assert (init + [m])[..|init|] == init;
    var path := Split(m.name);
    var dirs, files := DirsOf(init), FilesOf(init);
    if IsData(m) && m.kind == Directory {
      MkdirExact(tree, dirs, files, path);
    } else if IsFile(m) {
      CreateExact(tree, dirs, files, path, m.content);
    } else {
      assert dirs + Called(m) == dirs;
    }
  }

  /**
   On one and the same list the two passes agree: extraction into an empty destination succeeds exactly when
   inspection does and no file is in the way of another member; the tallies are then equal, and what stands below
   the destination is exactly the directories and files the members name, whatever their order.
   */
  lemma {:induction false} ExtractionExact<M>(rules: Rules<M>, members: seq<Member>)
    ensures var inspected, extracted := ScanMembers(rules, None, members), ScanMembers(rules, Some(map[]), members);
            && (extracted.Ok? <==> inspected.Ok? && NoClash(members))
            && (extracted.Ok? ==>
                  && extracted.value.tally == inspected.value.tally
                  && extracted.value.tree.Some?
                  && Built(extracted.value.tree.value, DirsOf(members), FilesOf(members)))
  {
    EmptyList();
    hide Check, Copy, NoClash, Fits, DirsOf;
    if members != [] {
      var init, m := members[..|members| - 1], members[|members| - 1];
      assert init + [m] == members;
      ExtractionExact(rules, init);
      NoClashSnoc(init, m);
      InspectionExact(rules, init);
      var r := ScanMembers(rules, Some(map[]), init);
      if r.Ok? && Check(rules, r.value.tally, m).Ok? {
        CheckedKind(rules, r.value.tally, m);
        CopyStep(r.value.tree.value, init, m);
      }
    }
  }

  lemma EmptyList()
    ensures NoClash([]) && DirsOf([]) == {}
  {
  }

  lemma CheckedKind<M>(rules: Rules<M>, s: Tally<M>, m: Member)
    requires Check(rules, s, m).Ok?
    ensures IsData(m) ==> m.kind == Directory || IsFile(m)
  {
    hide Admitted, Prefixes, Home;
  }

  // ----- What the report means for the tree -----

  lemma {:induction false} FilesExact(members: seq<Member>)
    requires NoClash(members) && forall i | 0 <= i < |members| && IsFile(members[i]) :: members[i].size >= 0
    ensures |FilesOf(members)| == |Sizes(members)|
    ensures forall i | 0 <= i < |members| && IsFile(members[i]) ::
              Split(members[i].name) in FilesOf(members)
              && FilesOf(members)[Split(members[i].name)] == members[i].content
  {
    hide Split, Called, DirsOf, IsFile, NoClash, Fits, FilePaths;
    if members != [] {
      var init, m := members[..|members| - 1], members[|members| - 1];
      assert init + [m] == members;
      assert forall i | 0 <= i < |init| :: init[i] == members[i];
      NoClashSnoc(init, m);
      FilesExact(init);
      FileKeys(init);
      FitsByPath(init, m);
      if IsFile(m) { assert FilesOf(members).Keys == FilesOf(init).Keys + {Split(m.name)}; }
    }
  }

  const DATABASE_PATH: Path := ["data", "app.db"]

  /** How large the database in a tree is. */
  function DatabaseIn(tree: Tree): nat
  {
    if DATABASE_PATH in tree && tree[DATABASE_PATH].File? then |tree[DATABASE_PATH].content| else 0
  }

  lemma DatabaseName(name: string)
    ensures Split(name) == DATABASE_PATH <==> name == DATABASE
  {
    JoinSplit('/', name);
    assert DATABASE_PATH[1..] == ["app.db"];
    assert Join(DATABASE_PATH) == "data" + ['/'] + "app.db" == DATABASE;
    SplitJoin('/', DATABASE_PATH);
  }

  lemma DatabaseExact(members: seq<Member>)
    requires forall i | 0 <= i < |members| && IsFile(members[i]) :: Whole(members[i])
    ensures HasDatabase(members) <==> DATABASE_PATH in FilesOf(members)
    ensures DatabaseSize(members)
            == if DATABASE_PATH in FilesOf(members) then |FilesOf(members)[DATABASE_PATH]| else 0
    ensures DatabaseSize(members) <= DiskBound.Sum(Sizes(members))
  {
    hide Split, IsFile, HasDatabase, DatabaseSize, FilesOf, Sizes;
    DatabaseFiled(members);
    DatabaseListed(members);
    DatabaseWithin(members);
  }

  lemma DatabaseListed(members: seq<Member>)
    ensures HasDatabase(members) <==> DATABASE_PATH in FilesOf(members)
  {
    FileKeys(members);
    hide IsFile, Split, FilesOf;
    forall i | 0 <= i < |members|
      ensures Split(members[i].name) == DATABASE_PATH <==> members[i].name == DATABASE
    { DatabaseName(members[i].name); }
    assert DATABASE_PATH in FilePaths(members) <==>
      exists i | 0 <= i < |members| :: IsFile(members[i]) && Split(members[i].name) == DATABASE_PATH;
  }

  lemma {:induction false} DatabaseFiled(members: seq<Member>)
    requires forall i | 0 <= i < |members| && IsFile(members[i]) :: Whole(members[i])
    ensures DatabaseSize(members)
            == if DATABASE_PATH in FilesOf(members) then |FilesOf(members)[DATABASE_PATH]| else 0
  {
    hide Split, IsFile;
    if members != [] {
      var init, m := members[..|members| - 1], members[|members| - 1];
      assert forall i | 0 <= i < |init| :: init[i] == members[i];
      DatabaseFiled(init);
      DatabaseName(m.name);
    }
  }

  lemma {:induction false} DatabaseWithin(members: seq<Member>)
    requires forall i | 0 <= i < |members| && IsFile(members[i]) :: Whole(members[i])
    ensures DatabaseSize(members) <= DiskBound.Sum(Sizes(members))
  {
    hide IsFile;
    if members != [] {
      var init, m := members[..|members| - 1], members[|members| - 1];
      assert forall i | 0 <= i < |init| :: init[i] == members[i];
      DatabaseWithin(init);
      if IsFile(m) { SumAppend(Sizes(init), m.size); } else { assert Sizes(init) + [] == Sizes(init); }
    }
  }

  predicate BelowData(path: Path) { path != [] && path[0] == "data" && AllPlain(path) }

  lemma MemberBelowData(m: Member)
    requires Admitted(m) && IsData(m)
    ensures BelowData(Split(m.name)) && |Split(m.name)| > 1
    ensures forall p | p in Called(m) :: BelowData(p)
  {
    SafeNames(m.name);
    FirstComponent(m.name, "data");
    assert "data" + "/" == "data/";
    hide Split, Safe;
  }

  /** A directory is called for by every entry below it, and by its own entry. */
  lemma DirsExact(members: seq<Member>, p: Path)
    ensures p in DirsOf(members) <==>
            p != [] && exists i | 0 <= i < |members| ::
              && members[i].name != MANIFEST && p <= Split(members[i].name)
              && (p == Split(members[i].name) ==> members[i].kind == Directory)
  {
    hide Split;
    forall i | 0 <= i < |members|
      ensures p in Called(members[i]) <==>
        p != [] && members[i].name != MANIFEST && p <= Split(members[i].name)
        && (p == Split(members[i].name) ==> members[i].kind == Directory)
    {
      var path := Split(members[i].name);
      var home := Home(members[i]);
      PrefixExact(home, p);
      if p <= path && p != path { assert p == path[..|path| - 1][..|p|]; }
      if home != path && p <= home { assert p == path[..|p|]; }
    }
  }

  lemma PrefixExact(path: Path, p: Path)
    ensures p in Prefixes(path) <==> p != [] && p <= path
  {
    if p != [] && p <= path { assert p == path[..|p|]; }
  }

  /**
   After a successful extraction into an empty destination: the directories counted are the directories made, the
   files counted are the files made, each with the content of its member, and everything made lies below `data`
   under plain names.
   */
  lemma ExtractionMeaning<M>(rules: Rules<M>, members: seq<Member>)
    requires ScanMembers(rules, Some(map[]), members).Ok?
    ensures var s := ScanMembers(rules, Some(map[]), members).value;
            && s.tree.Some?
            && s.tally.directories == (set p | p in s.tree.value && s.tree.value[p].Dir?)
            && s.tally.regularFiles == |set p | p in s.tree.value && s.tree.value[p].File?|
            && (forall i | 0 <= i < |members| && IsFile(members[i]) ::
                  Split(members[i].name) in s.tree.value
                  && s.tree.value[Split(members[i].name)] == File(members[i].content))
            && (forall p | p in s.tree.value :: BelowData(p))
            && (s.tally.databaseFound <==> DATABASE_PATH in s.tree.value && s.tree.value[DATABASE_PATH].File?)
            && s.tally.databaseBytes == DatabaseIn(s.tree.value) <= DiskBound.Sum(Sizes(members))
  {
    hide ScanMembers, Acceptable, NoClash, DirsOf, FilePaths, BelowData, IsFile, Split, OneManifest;
    ExtractionExact(rules, members);
    InspectionExact(rules, members);
    forall i | 0 <= i < |members| ensures Admitted(members[i]) && (IsFile(members[i]) ==> Whole(members[i])) {
      AcceptableShape(rules, members[i]);
    }
    DatabaseExact(members);
    FilesExact(members);
    FileKeys(members);
    AllBelowData(members);
    hide Admitted, Totals, FoundIn;
    var tree := ScanMembers(rules, Some(map[]), members).value.tree.value;
    assert (set p | p in tree && tree[p].File?) == FilesOf(members).Keys;
    assert (set p | p in tree && tree[p].Dir?) == DirsOf(members);
  }

  lemma AcceptableShape<M>(rules: Rules<M>, m: Member)
    requires Acceptable(rules, m)
    ensures Admitted(m) && (IsFile(m) ==> Whole(m))
  {
    hide Admitted;
  }

  lemma AllBelowData(members: seq<Member>)
    requires forall i | 0 <= i < |members| :: Admitted(members[i])
    ensures forall p | p in DirsOf(members) + FilePaths(members) :: BelowData(p)
  {
    hide Split, Admitted, Called, BelowData;
    forall p | p in DirsOf(members) + FilePaths(members) ensures BelowData(p) {
      if p in DirsOf(members) {
        var i :| 0 <= i < |members| && p in Called(members[i]);
        MemberCalled(members[i], p);
        MemberBelowData(members[i]);
      } else {
        var i :| 0 <= i < |members| && IsFile(members[i]) && Split(members[i].name) == p;
        MemberBelowData(members[i]);
      }
    }
  }

  lemma MemberCalled(m: Member, p: Path)
    requires p in Called(m)
    ensures IsData(m)
  {
  }
}
