/**
 Writing an archive of a data tree (internal/bootstrapstate/archive.go, writeArchive), and the round trip: scanning
 it into an empty destination brings the tree back.
 */
module ArchivePack {
  import opened Ordering
  import opened Splitting
  import opened ArchivePaths
  import opened ArchiveScan

  /** What the walk meets. `Odd` is a symbolic link, a device, a socket or a pipe. */
  datatype Item = Folder | Content(bytes: seq<bv8>) | Odd

  datatype Found = Found(path: Path, item: Item)

  type SourceTree = map<Path, Item>

  /** A file tree below the source directory: plain names, and every parent is a folder of the tree. */
  ghost predicate Rooted(tree: SourceTree)
  {
    forall p | p in tree ::
      p != [] && AllPlain(p) && (|p| > 1 ==> p[..|p| - 1] in tree && tree[p[..|p| - 1]] == Folder)
  }

  /** The walk visits every entry once; its order plays no part below. */
  ghost predicate WalkOf(walk: seq<Found>, tree: SourceTree)
  {
    && (forall i, j | 0 <= i < j < |walk| :: walk[i].path != walk[j].path)
    && (forall i | 0 <= i < |walk| :: walk[i].path in tree && tree[walk[i].path] == walk[i].item)
    && (forall p | p in tree :: exists i | 0 <= i < |walk| :: walk[i].path == p)
  }

  function Lower(s: string): string
  {
    seq(|s|, i requires 0 <= i < |s| => if 'A' <= s[i] <= 'Z' then s[i] - 'A' + 'a' else s[i])
  }

  predicate Sidecar(base: string) { Lower(base) == "app.db-shm" || Lower(base) == "app.db-wal" }

  /** Letter by letter the same, whatever the case in the first. */
  predicate SameLetters(s: string, lower: string)
  {
    |s| == |lower| && forall k | 0 <= k < |s| ::
      s[k] == lower[k] || ('a' <= lower[k] <= 'z' && s[k] as int == lower[k] as int - 32)
  }

  /** A sidecar is `app.db-shm` or `app.db-wal` in any mixture of cases. */
  lemma SidecarExact(base: string)
    ensures Sidecar(base) <==> SameLetters(base, "app.db-shm") || SameLetters(base, "app.db-wal")
  {
    LowerExact(base, "app.db-shm");
    LowerExact(base, "app.db-wal");
  }

  lemma LowerExact(s: string, lower: string)
    requires forall k | 0 <= k < |lower| :: !('A' <= lower[k] <= 'Z')
    ensures Lower(s) == lower <==> SameLetters(s, lower)
  {
    forall k | 0 <= k < |s| && k < |lower|
      ensures Lower(s)[k] == lower[k] <==>
        s[k] == lower[k] || ('a' <= lower[k] <= 'z' && s[k] as int == lower[k] as int - 32)
    {}
    if SameLetters(s, lower) { assert forall k | 0 <= k < |s| :: Lower(s)[k] == lower[k]; }
    if Lower(s) == lower { assert forall k | 0 <= k < |s| :: Lower(s)[k] == lower[k]; }
  }

  /** Where a path of the source lies below the extraction root. */
  function Moved(p: Path): Path { ["data"] + p }

  function MemberFor(f: Found): Member
  {
    Member(Clean(Join(Moved(f.path))), if f.item == Folder then Directory else Regular,
           if f.item.Content? then |f.item.bytes| else 0, if f.item.Content? then f.item.bytes else [])
  }

  predicate Packable(f: Found)
    requires f.path != []
  {
    !Sidecar(f.path[|f.path| - 1]) && !f.item.Odd?
  }

  function ManifestMember(bytes: seq<bv8>): Member { Member(MANIFEST, Regular, |bytes|, bytes) }

  /** `writeArchive`: the manifest, then one member for every entry of the walk. */
  method WriteArchive(bytes: seq<bv8>, walk: seq<Found>) returns (r: Result<seq<Member>>)
    requires forall i | 0 <= i < |walk| :: walk[i].path != []
    ensures r.Ok? <==> forall i | 0 <= i < |walk| :: Packable(walk[i])
    ensures r.Ok? ==> r.value == Written(bytes, walk)
    ensures r.Err? ==>
      exists i | 0 <= i < |walk| :: (forall j | 0 <= j < i :: Packable(walk[j])) && !Packable(walk[i])
        && r.error == if Sidecar(walk[i].path[|walk[i].path| - 1]) then InvalidBundle else UnsafePath
  {
    hide Sidecar, MemberFor;
    var members := [ManifestMember(bytes)];
    var i := 0;
    while i < |walk|
      invariant i <= |walk| && members == Written(bytes, walk[..i])
      invariant forall j | 0 <= j < i :: Packable(walk[j])
    {
      if Sidecar(walk[i].path[|walk[i].path| - 1]) { return Err(InvalidBundle); }
      if walk[i].item.Odd? { return Err(UnsafePath); }
      members := members + [MemberFor(walk[i])];
      i := i + 1;
    }
    assert walk[..i] == walk;
    r := Ok(members);
  }

  function Written(bytes: seq<bv8>, walk: seq<Found>): seq<Member>
  {
    [ManifestMember(bytes)] + seq(|walk|, i requires 0 <= i < |walk| => MemberFor(walk[i]))
  }

  // ----- One entry -----

  lemma NameOf(path: Path)
    requires AllPlain(path)
    ensures Clean(Join(Moved(path))) == Join(Moved(path))
    ensures Split(Join(Moved(path))) == Moved(path)
  {
    var c := Moved(path);
    assert forall i | 0 <= i < |c| :: Plain(c[i]);
    SplitJoin('/', c);
    CleanAllPlain([], c);
    assert [] + c == c;
  }

  predicate NoBackslash(path: Path) { forall i | 0 <= i < |path| :: '\\' !in path[i] }

  lemma {:induction false} JoinBackslash(c: seq<string>)
    requires c != []
    ensures '\\' !in Join(c) <==> NoBackslash(c)
  {
    if |c| > 1 {
      JoinBackslash(c[1..]);
      JoinCons('/', c[0], c[1..]);
      assert [c[0]] + c[1..] == c;
    }
  }

  lemma NameMeaning(path: Path)
    requires path != [] && AllPlain(path)
    ensures var name := Clean(Join(Moved(path)));
            && Split(name) == Moved(path) && "data/" <= name && name != MANIFEST
            && (Safe(name) <==> NoBackslash(path))
  {
    hide *;
    NameOf(path);
    JoinBackslash(Moved(path));
    MovedPlain(path);
    var name := Clean(Join(Moved(path)));
    DataPrefix(name);
    SafeNames(name);
  }

  lemma MovedPlain(path: Path)
    requires path != [] && AllPlain(path)
    ensures AllPlain(Moved(path)) && Moved(path)[0] == "data" && |Moved(path)| > 1
    ensures NoBackslash(Moved(path)) <==> NoBackslash(path)
  {
    assert forall i | 0 <= i < |path| :: (Moved(path))[i + 1] == path[i];
    assert '\\' !in "data";
  }

  lemma DataPrefix(name: string)
    requires Split(name)[0] == "data" && |Split(name)| > 1
    ensures "data/" <= name && name != MANIFEST
  {
    FirstComponent(name, "data");
    hide Split;
    assert "data" + "/" == "data/";
    assert name[0] == 'd' && MANIFEST[0] == 'm';
  }

  lemma MemberMeaning<M>(rules: Rules<M>, f: Found)
    requires f.path != [] && AllPlain(f.path) && !f.item.Odd?
    ensures Split(MemberFor(f).name) == Moved(f.path)
    ensures IsData(MemberFor(f)) && (IsFile(MemberFor(f)) <==> f.item.Content?)
    ensures Acceptable(rules, MemberFor(f)) <==> NoBackslash(f.path)
  {
    hide Split, Safe, Clean, Join, NoBackslash, AllPlain;
    NameMeaning(f.path);
  }

  lemma MemberCalls(f: Found)
    requires AllPlain(f.path) && !f.item.Odd? && f.path != []
    ensures Called(MemberFor(f)) == Prefixes(Moved(if f.item == Folder then f.path else f.path[..|f.path| - 1]))
  {
    hide Split, Safe, Clean, Join, Prefixes, NoBackslash, AllPlain;
    NameMeaning(f.path);
    assert Moved(f.path)[..|f.path|] == Moved(f.path[..|f.path| - 1]);
  }

  // ----- The whole tree -----

  lemma {:induction false} AncestorsAreFolders(tree: SourceTree, p: Path, k: nat)
    requires Rooted(tree) && p in tree && 1 <= k < |p|
    ensures p[..k] in tree && tree[p[..k]] == Folder
    decreases |p|
  {
    var parent := p[..|p| - 1];
    if k < |parent| {
      AncestorsAreFolders(tree, parent, k);
      assert parent[..k] == p[..k];
    } else {
      assert p[..k] == parent;
    }
  }

  /** The folders of a tree once moved, `data` included. */
  ghost function Folders(tree: SourceTree): set<Path>
  {
    (if tree == map[] then {} else {["data"]}) + set p | p in tree && tree[p] == Folder :: Moved(p)
  }

  ghost function Files(tree: SourceTree): set<Path> { set p | p in tree && tree[p].Content? :: Moved(p) }

  lemma MovedApart(p: Path, q: Path)
    ensures Moved(p) == Moved(q) ==> p == q
    ensures p != [] ==> Moved(p) != ["data"]
  {
    assert Moved(p)[1..] == p && Moved(q)[1..] == q;
  }

  /** Every directory on the way to a path whose proper ancestors are folders is a folder. */
  lemma PrefixesAreFolders(tree: SourceTree, f: Found, home: Path)
    requires Rooted(tree) && f.path in tree && tree[f.path] == f.item
    requires (home == f.path && f.item == Folder) || (f.path != [] && home == f.path[..|f.path| - 1])
    ensures Prefixes(Moved(home)) <= Folders(tree)
  {
    hide AllPlain, Rooted;
    forall q | q in Prefixes(Moved(home)) ensures q in Folders(tree) {
      var k :| 1 <= k <= |Moved(home)| && q == Moved(home)[..k];
      if k == 1 {
        assert q == ["data"];
      } else {
        var p := f.path[..k - 1];
        assert q == Moved(p);
        if k - 1 < |f.path| { AncestorsAreFolders(tree, f.path, k - 1); } else { assert p == f.path; }
      }
    }
  }

  lemma HomeCalled(home: Path)
    ensures ["data"] in Prefixes(Moved(home)) && Moved(home) in Prefixes(Moved(home))
  {
    assert Moved(home)[..1] == ["data"];
    assert Moved(home)[..|Moved(home)|] == Moved(home);
  }

  /** What an entry calls for is `data` or a folder of the tree. */
  lemma CalledAreFolders(tree: SourceTree, f: Found)
    requires Rooted(tree) && f.path in tree && tree[f.path] == f.item && !f.item.Odd?
    ensures Called(MemberFor(f)) <= Folders(tree) && ["data"] in Called(MemberFor(f))
    ensures f.item == Folder ==> Moved(f.path) in Called(MemberFor(f))
  {
    hide Called, MemberFor, AllPlain, Rooted, Moved, Prefixes, Folders;
    RootedPath(tree, f.path);
    MemberCalls(f);
    var home := if f.item == Folder then f.path else f.path[..|f.path| - 1];
    HomeCalled(home);
    PrefixesAreFolders(tree, f, home);
  }

  /** The extracted tree is the source tree moved below `data`. */
  ghost predicate Restores(source: SourceTree, tree: Tree)
  {
    && tree.Keys == Folders(source) + Files(source)
    && (forall p | p in Folders(source) :: tree[p] == Dir)
    && (forall p | p in source && source[p].Content? ::
          Moved(p) in tree && tree[Moved(p)] == File(source[p].bytes))
  }

  ghost predicate AllPackable(tree: SourceTree)
  {
    forall p | p in tree :: p != [] && Packable(Found(p, tree[p]))
  }

  lemma WalkPackable(tree: SourceTree, walk: seq<Found>)
    requires Rooted(tree) && WalkOf(walk, tree)
    ensures (forall i | 0 <= i < |walk| :: walk[i].path != [] && Packable(walk[i])) <==> AllPackable(tree)
  {
    hide AllPlain, Sidecar;
    assert forall i | 0 <= i < |walk| :: walk[i] == Found(walk[i].path, tree[walk[i].path]);
    if forall i | 0 <= i < |walk| :: walk[i].path != [] && Packable(walk[i]) {
      forall p | p in tree ensures p != [] && Packable(Found(p, tree[p])) {
        var i :| 0 <= i < |walk| && walk[i].path == p;
      }
    }
  }

  lemma {:induction false} DistinctCount<T>(s: seq<T>)
    requires Distinct(s)
    ensures |Elements(s)| == |s|
  {
    if s != [] {
      var init, last := s[..|s| - 1], s[|s| - 1];
      DistinctCount(init);
      assert Elements(s) == Elements(init) + {last};
    }
  }

  lemma WalkCount(tree: SourceTree, walk: seq<Found>)
    requires WalkOf(walk, tree)
    ensures |walk| == |tree|
  {
    var paths := seq(|walk|, i requires 0 <= i < |walk| => walk[i].path);
    DistinctCount(paths);
    assert Elements(paths) == tree.Keys by {
      forall p | p in tree ensures p in paths {
        var i :| 0 <= i < |walk| && walk[i].path == p;
        assert paths[i] == p;
      }
    }
  }

  /** A walk of a rooted tree never puts a file in another member's way. */
  lemma WalkNoClash(tree: SourceTree, walk: seq<Found>, bytes: seq<bv8>)
    requires Rooted(tree) && WalkOf(walk, tree) && forall i | 0 <= i < |walk| :: !walk[i].item.Odd?
    ensures NoClash(Written(bytes, walk))
  {
    hide AllPlain, MemberFor, Called, Split, Rooted;
    var all := Written(bytes, walk);
    forall i, j | 0 <= i < |all| && 0 <= j < |all| && i != j && IsFile(all[i])
      ensures Apart(all[i], all[j])
    {
      if j == 0 {
        ManifestCallsNothing(bytes);
      } else {
        assert i > 0;
        PairApart(tree, walk[i - 1], walk[j - 1]);
      }
    }
  }

  lemma ManifestCallsNothing(bytes: seq<bv8>)
    ensures Called(ManifestMember(bytes)) == {} && !IsFile(ManifestMember(bytes))
  {
  }

  lemma RootedPath(tree: SourceTree, p: Path)
    requires Rooted(tree) && p in tree
    ensures p != [] && AllPlain(p)
  {
  }

  lemma FilesAreNotFolders(tree: SourceTree, p: Path)
    requires p in tree && tree[p].Content? && p != []
    ensures Moved(p) !in Folders(tree)
  {
    hide Moved;
    MovedApart(p, p);
    forall q | q in tree && tree[q] == Folder ensures Moved(p) != Moved(q) { MovedApart(p, q); }
  }

  lemma PairApart(tree: SourceTree, f: Found, g: Found)
    requires Rooted(tree) && f.path in tree && tree[f.path] == f.item && g.path in tree && tree[g.path] == g.item
    requires !f.item.Odd? && !g.item.Odd? && f.path != g.path
    ensures IsFile(MemberFor(f)) ==> Apart(MemberFor(f), MemberFor(g))
  {
    hide AllPlain, MemberFor, Called, Split, Rooted, Acceptable, IsFile, Moved;
    RootedPath(tree, f.path);
    RootedPath(tree, g.path);
    var rules: Rules<bool> := Rules(b => None, 0);
    MemberMeaning(rules, f);
    MemberMeaning(rules, g);
    CalledAreFolders(tree, g);
    MovedApart(f.path, g.path);
    if f.item.Content? { FilesAreNotFolders(tree, f.path); }
  }

  lemma WrittenOneManifest(bytes: seq<bv8>, tree: SourceTree, walk: seq<Found>)
    requires Rooted(tree) && WalkOf(walk, tree) && forall i | 0 <= i < |walk| :: !walk[i].item.Odd?
    ensures OneManifest(Written(bytes, walk))
  {
    hide AllPlain, MemberFor, Rooted, IsFile, Moved;
    forall i | 0 <= i < |walk| ensures IsData(MemberFor(walk[i])) { WrittenMember(tree, walk[i]); }
  }

  /** An entry's member is acceptable exactly when no component of its path holds a backslash. */
  lemma EntryAcceptable<M>(rules: Rules<M>, tree: SourceTree, f: Found)
    requires Rooted(tree) && f.path in tree && tree[f.path] == f.item && !f.item.Odd?
    ensures Acceptable(rules, MemberFor(f)) <==> NoBackslash(f.path)
  {
    hide AllPlain, MemberFor, Rooted, Acceptable, NoBackslash, Moved;
    RootedPath(tree, f.path);
    MemberMeaning(rules, f);
  }

  lemma WrittenAcceptable<M>(rules: Rules<M>, bytes: seq<bv8>, tree: SourceTree, walk: seq<Found>)
    requires Rooted(tree) && WalkOf(walk, tree) && forall i | 0 <= i < |walk| :: !walk[i].item.Odd?
    requires rules.parse(bytes).Some? && |bytes| <= MANIFEST_LIMIT
    ensures (forall i | 0 <= i < |Written(bytes, walk)| :: Acceptable(rules, Written(bytes, walk)[i]))
            <==> forall p | p in tree :: NoBackslash(p)
  {
    hide AllPlain, MemberFor, Rooted, Acceptable, NoBackslash, ManifestMember;
    var all := Written(bytes, walk);
    ManifestAcceptable(rules, bytes);
    forall i | 0 <= i < |walk| ensures Acceptable(rules, all[i + 1]) <==> NoBackslash(walk[i].path) {
      EntryAcceptable(rules, tree, walk[i]);
    }
    if forall i | 0 <= i < |all| :: Acceptable(rules, all[i]) {
      forall p | p in tree ensures NoBackslash(p) {
        var i :| 0 <= i < |walk| && walk[i].path == p;
        assert Acceptable(rules, all[i + 1]);
      }
    }
    if forall p | p in tree :: NoBackslash(p) {
      forall i | 0 <= i < |all| ensures Acceptable(rules, all[i]) {
        if i > 0 { assert NoBackslash(walk[i - 1].path); }
      }
    }
  }

  lemma PlainNameSafe(name: string)
    requires Plain(name) && '\\' !in name
    ensures Safe(name)
  {
    hide Safe;
    SplitHead('/', name, "");
    assert Split(name) == [name];
    SafeNames(name);
  }

  lemma ManifestAcceptable<M>(rules: Rules<M>, bytes: seq<bv8>)
    requires rules.parse(bytes).Some? && |bytes| <= MANIFEST_LIMIT
    ensures Acceptable(rules, ManifestMember(bytes))
  {
    hide Safe;
    PlainNameSafe(MANIFEST);
  }

  lemma CalledIsDir(members: seq<Member>, i: nat)
    requires i < |members|
    ensures Called(members[i]) <= DirsOf(members)
  {
    hide Called;
  }

  lemma FolderWritten(bytes: seq<bv8>, tree: SourceTree, walk: seq<Found>, p: Path)
    requires Rooted(tree) && WalkOf(walk, tree) && p in tree && !tree[p].Odd?
    ensures ["data"] in DirsOf(Written(bytes, walk))
    ensures tree[p] == Folder ==> Moved(p) in DirsOf(Written(bytes, walk))
  {
    hide AllPlain, MemberFor, Called, Rooted, Moved, DirsOf, Folders;
    var i :| 0 <= i < |walk| && walk[i].path == p;
    CalledAreFolders(tree, walk[i]);
    CalledIsDir(Written(bytes, walk), i + 1);
  }

  lemma WrittenDirs(bytes: seq<bv8>, tree: SourceTree, walk: seq<Found>)
    requires Rooted(tree) && WalkOf(walk, tree) && forall i | 0 <= i < |walk| :: !walk[i].item.Odd?
    ensures DirsOf(Written(bytes, walk)) == Folders(tree)
  {
    WrittenDirsWithin(bytes, tree, walk);
    hide AllPlain, MemberFor, Rooted, Moved, DirsOf, Written;
    forall p | p in tree
      ensures ["data"] in DirsOf(Written(bytes, walk))
      ensures tree[p] == Folder ==> Moved(p) in DirsOf(Written(bytes, walk))
    {
      var i :| 0 <= i < |walk| && walk[i].path == p;
      FolderWritten(bytes, tree, walk, p);
    }
    if tree != map[] { var p :| p in tree; }
  }

  lemma WrittenDirsWithin(bytes: seq<bv8>, tree: SourceTree, walk: seq<Found>)
    requires Rooted(tree) && WalkOf(walk, tree) && forall i | 0 <= i < |walk| :: !walk[i].item.Odd?
    ensures DirsOf(Written(bytes, walk)) <= Folders(tree)
  {
    hide AllPlain, MemberFor, Called, Rooted, Moved, Folders;
    var all := Written(bytes, walk);
    ManifestCallsNothing(bytes);
    forall q | q in DirsOf(all) ensures q in Folders(tree) {
      var i :| 0 <= i < |all| && q in Called(all[i]);
      CalledAreFolders(tree, walk[i - 1]);
    }
  }

  /** A file member has the path and the content of its entry. */
  lemma WrittenMember(tree: SourceTree, f: Found)
    requires Rooted(tree) && f.path in tree && tree[f.path] == f.item && !f.item.Odd?
    ensures Split(MemberFor(f).name) == Moved(f.path) && (IsFile(MemberFor(f)) <==> f.item.Content?)
    ensures f.item.Content? ==> MemberFor(f).content == f.item.bytes
    ensures MemberFor(f).size >= 0 && IsData(MemberFor(f))
  {
    hide AllPlain, Split, Rooted, Moved, Acceptable, IsFile;
    var rules: Rules<bool> := Rules(b => None, 0);
    RootedPath(tree, f.path);
    MemberMeaning(rules, f);
  }

  lemma WrittenFiles(bytes: seq<bv8>, tree: SourceTree, walk: seq<Found>)
    requires Rooted(tree) && WalkOf(walk, tree) && forall i | 0 <= i < |walk| :: !walk[i].item.Odd?
    ensures FilesOf(Written(bytes, walk)).Keys == Files(tree)
    ensures forall p | p in tree && tree[p].Content? ::
              Moved(p) in FilesOf(Written(bytes, walk)) && FilesOf(Written(bytes, walk))[Moved(p)] == tree[p].bytes
  {
    hide AllPlain, MemberFor, Called, Rooted, Split, Acceptable, IsFile, NoClash, FilesOf, Moved;
    var all := Written(bytes, walk);
    ManifestCallsNothing(bytes);
    forall i | 0 <= i < |walk|
      ensures Split(all[i + 1].name) == Moved(walk[i].path) && (IsFile(all[i + 1]) <==> walk[i].item.Content?)
      ensures walk[i].item.Content? ==> all[i + 1].content == walk[i].item.bytes
      ensures all[i + 1].size >= 0
    { WrittenMember(tree, walk[i]); }
    forall i | 0 <= i < |all| && IsFile(all[i]) ensures all[i].size >= 0 && Split(all[i].name) in Files(tree) {
      assert Split(all[i - 1 + 1].name) == Moved(walk[i - 1].path);
    }
    FileKeys(all);
    WalkNoClash(tree, walk, bytes);
    FilesExact(all);
    forall p | p in tree && tree[p].Content?
      ensures Moved(p) in FilesOf(all) && FilesOf(all)[Moved(p)] == tree[p].bytes
    {
      var i :| 0 <= i < |walk| && walk[i].path == p;
      assert IsFile(all[i + 1]) && Split(all[i + 1].name) == Moved(p);
    }
  }

  /**
   The round trip, member by member. Whatever order the walk takes, what it writes is scanned back into an empty
   destination exactly when no name holds a backslash and the entries are not too many, and the tree then stands below
   `data` again.
   */
  lemma MembersRoundTrip<M>(rules: Rules<M>, bytes: seq<bv8>, tree: SourceTree, walk: seq<Found>)
    requires Rooted(tree) && WalkOf(walk, tree) && AllPackable(tree)
    requires rules.parse(bytes).Some? && |bytes| <= MANIFEST_LIMIT
    ensures var scanned := ScanMembers(rules, Some(map[]), Written(bytes, walk));
            && (scanned.Ok? <==> |tree| + 1 <= rules.maxEntries && forall p | p in tree :: NoBackslash(p))
            && (scanned.Ok? ==>
                  && scanned.value.tree.Some? && Restores(tree, scanned.value.tree.value)
                  && scanned.value.tally.manifest == rules.parse(bytes))
  {
    hide AllPlain, Rooted, Packable, MemberFor, NoClash, OneManifest, Acceptable, NoBackslash, Restores, DirsOf,
      FilesOf, ScanMembers, Totals;
    var all := Written(bytes, walk);
    forall i | 0 <= i < |walk| ensures !walk[i].item.Odd? { EntryPackable(tree, walk[i]); }
    WalkCount(tree, walk);
    WalkNoClash(tree, walk, bytes);
    WrittenOneManifest(bytes, tree, walk);
    WrittenAcceptable(rules, bytes, tree, walk);
    ExtractionExact(rules, all);
    InspectionExact(rules, all);
    var scanned := ScanMembers(rules, Some(map[]), all);
    if scanned.Ok? {
      assert all[0].name == MANIFEST;
      TreeRestored(bytes, tree, walk, scanned.value.tree.value);
    }
  }

  /** `maxExtractedBytes`. */
  const MAX_UNCOMPRESSED: nat := 0x10_0000_0000

  /** What the tar reader finds behind the limit: everything, or a stream that breaks off. */
  function Unpacked(members: seq<Member>, weight: nat, cut: seq<Member>, limit: nat): Stream
  {
    if weight <= limit then Stream(members, true) else Stream(cut, false)
  }

  /**
   The round trip through the limit on uncompressed bytes: an archive of that many bytes is scanned back exactly when
   they stay within the limit, no name holds a backslash and the entries are not too many.
   */
  lemma RoundTrip<M>(rules: Rules<M>, bytes: seq<bv8>, tree: SourceTree, walk: seq<Found>, weight: nat,
                     cut: seq<Member>, limit: nat)
    requires Rooted(tree) && WalkOf(walk, tree) && AllPackable(tree)
    requires rules.parse(bytes).Some? && |bytes| <= MANIFEST_LIMIT
    ensures var scanned := ScanStream(rules, Unpacked(Written(bytes, walk), weight, cut, limit), Some(map[]));
            && (scanned.Ok? <==> weight <= limit && |tree| + 1 <= rules.maxEntries
                                 && forall p | p in tree :: NoBackslash(p))
            && (scanned.Ok? ==>
                  && scanned.value.tree.Some? && Restores(tree, scanned.value.tree.value)
                  && scanned.value.tally.manifest == rules.parse(bytes))
  {
    hide ScanMembers, Written, Restores, Rooted, WalkOf, AllPackable, NoBackslash;
    MembersRoundTrip(rules, bytes, tree, walk);
  }

  lemma EntryPackable(tree: SourceTree, f: Found)
    requires AllPackable(tree) && f.path in tree && tree[f.path] == f.item
    ensures !f.item.Odd?
  {
    assert Packable(Found(f.path, tree[f.path]));
  }

  lemma TreeRestored(bytes: seq<bv8>, source: SourceTree, walk: seq<Found>, tree: Tree)
    requires Rooted(source) && WalkOf(walk, source) && forall i | 0 <= i < |walk| :: !walk[i].item.Odd?
    requires Built(tree, DirsOf(Written(bytes, walk)), FilesOf(Written(bytes, walk)))
    ensures Restores(source, tree)
  {
    hide DirsOf, FilesOf, Rooted, Written, Folders, Files, Moved;
    WrittenDirs(bytes, source, walk);
    WrittenFiles(bytes, source, walk);
  }

  /** The sizes of the files among the entries. */
  function ContentSizes(walk: seq<Found>): seq<nat>
  {
    if walk == [] then [] else
    var last := walk[|walk| - 1];
    ContentSizes(walk[..|walk| - 1]) + if last.item.Content? then [|last.item.bytes|] else []
  }

  lemma WrittenSnoc(bytes: seq<bv8>, walk: seq<Found>)
    requires walk != []
    ensures Written(bytes, walk) == Written(bytes, walk[..|walk| - 1]) + [MemberFor(walk[|walk| - 1])]
  {
    hide MemberFor;
  }

  /** The sizes an archive declares are those of the files packed. */
  lemma {:induction false} SizesWritten(bytes: seq<bv8>, tree: SourceTree, walk: seq<Found>)
    requires Rooted(tree)
    requires forall i | 0 <= i < |walk| ::
               walk[i].path in tree && tree[walk[i].path] == walk[i].item && !walk[i].item.Odd?
    ensures Sizes(Written(bytes, walk)) == ContentSizes(walk)
  {
    hide Rooted, MemberFor, IsFile, Moved, Split;
    ManifestCallsNothing(bytes);
    if walk == [] {
      assert Written(bytes, walk) == [ManifestMember(bytes)];
      assert Written(bytes, walk)[..0] == [];
    } else {
      var init, last := walk[..|walk| - 1], walk[|walk| - 1];
      SizesWritten(bytes, tree, init);
      WrittenSnoc(bytes, walk);
      WrittenMember(tree, last);
      WrittenWhole(last);
      assert Written(bytes, walk)[..|Written(bytes, walk)| - 1] == Written(bytes, init);
    }
  }

  lemma WrittenWhole(f: Found)
    ensures f.item.Content? ==> MemberFor(f).size == |f.item.bytes|
  {
  }

  lemma {:induction false} NoDatabase(bytes: seq<bv8>, tree: SourceTree, walk: seq<Found>)
    requires Rooted(tree) && ["app.db"] !in tree
    requires forall i | 0 <= i < |walk| ::
               walk[i].path in tree && tree[walk[i].path] == walk[i].item && !walk[i].item.Odd?
    ensures DatabaseSize(Written(bytes, walk)) == 0
  {
    hide Rooted, MemberFor, IsFile, Split;
    ManifestCallsNothing(bytes);
    if walk == [] {
      assert Written(bytes, walk) == [ManifestMember(bytes)];
      assert Written(bytes, walk)[..0] == [];
    } else {
      var init, last := walk[..|walk| - 1], walk[|walk| - 1];
      NoDatabase(bytes, tree, init);
      WrittenSnoc(bytes, walk);
      WrittenMember(tree, last);
      DatabaseName(MemberFor(last).name);
      assert Moved(["app.db"]) == DATABASE_PATH;
      MovedApart(last.path, ["app.db"]);
      assert Written(bytes, walk)[..|Written(bytes, walk)| - 1] == Written(bytes, init);
    }
  }

  /** A file whose name holds a backslash is packed without complaint and lost: its archive is never read back. */
  lemma BackslashLost<M>(rules: Rules<M>, bytes: seq<bv8>) returns (tree: SourceTree, walk: seq<Found>)
    requires rules.parse(bytes).Some? && |bytes| <= MANIFEST_LIMIT
    ensures Rooted(tree) && WalkOf(walk, tree) && AllPackable(tree)
    ensures ScanMembers(rules, Some(map[]), Written(bytes, walk)).Err?
  {
    var path := ["a\\b"];
    tree, walk := map[path := Content([])], [Found(path, Content([]))];
    assert Plain(path[0]);
    assert walk[0].path == path;
    assert |Lower(path[0])| == 3;
    assert '\\' in path[0] by { assert path[0][1] == '\\'; }
    hide ScanMembers, Written, Restores;
    MembersRoundTrip(rules, bytes, tree, walk);
    assert !NoBackslash(path);
  }
}
