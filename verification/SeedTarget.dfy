/**
 What the first-launch seed importer concludes from looking at a target directory
 (internal/app/first_launch_seed.go). A tree is one snapshot; reading it never fails here.
 What SQLite and the JSON decoder say about a file is a parameter.
 */
module SeedTarget {
  import opened Ordering
  import opened Fingerprint

  datatype DatabaseVerdict = Replaceable | InUse | Unreadable

  /** Verdicts on the bytes of `app.db` and of the marker's `imported.json`. */
  datatype Probe = Probe(database: seq<byte> -> DatabaseVerdict, marker: seq<byte> -> bool)

  datatype TargetState = RequiresSeed | ExistingProfile | Blocked

  const BOLT := "application-state.bolt"
  const DATABASE := "app.db"
  const MARKER := "bootstrap-state"

  const DRIVE_DIRECTORIES := {"drive-account-scratch", "drive-account-sessions"}
  const REPLACEABLE_DIRECTORIES :=
    {"backups", "exports", "gotd-import-staging", "import-snapshots", "sessions", "tdata"}

  /** The directories inspection lets pass. */
  const ALLOWED_DIRECTORIES :=
    {"backups", "drive-account-scratch", "drive-account-sessions", "exports", "gotd-import-staging", "import-snapshots",
     "sessions", "tdata"}

  predicate Sidecar(name: string) { name == "app.db-shm" || name == "app.db-wal" }

  predicate HasSpecial(tree: Node)
  {
    match tree
    case Special(_, _) => true
    case Regular(_, _) => false
    case Directory(_, children) => exists n | n in children :: HasSpecial(children[n])
  }

  predicate HasRegular(tree: Node)
  {
    match tree
    case Special(_, _) => false
    case Regular(_, _) => true
    case Directory(_, children) => exists n | n in children :: HasRegular(children[n])
  }

  /** `inspectFirstLaunchRuntimeTree`. */
  function RuntimeTree(tree: Node): TargetState
  {
    if HasSpecial(tree) then Blocked else if HasRegular(tree) then ExistingProfile else RequiresSeed
  }

  /** How one entry of `data` bears on the verdict, sidecars aside. */
  function DataEntry(name: string, node: Node, probe: Probe): TargetState
  {
    match node
    case Special(_, _) => Blocked
    case Directory(_, _) =>
      if name in DRIVE_DIRECTORIES + REPLACEABLE_DIRECTORIES then RuntimeTree(node) else Blocked
    case Regular(meta, content) =>
      if name == BOLT then if meta.size > 0 then ExistingProfile else RequiresSeed
      else if name == DATABASE then
        match probe.database(content)
        case Replaceable => RequiresSeed
        case InUse => ExistingProfile
        case Unreadable => Blocked
      else Blocked
  }

  /** The state of a `data` directory, read off its entries without any order. */
  ghost function DataState(children: map<string, Node>, probe: Probe): TargetState
  {
    if (exists n | n in children :: Sidecar(n))
       || (exists n | n in children :: DataEntry(n, children[n], probe).Blocked?)
    then Blocked
    else if exists n | n in children :: DataEntry(n, children[n], probe).ExistingProfile? then ExistingProfile
    else RequiresSeed
  }

  predicate LicenseFile(name: string)
  {
    name == "license.tcomplicense" || (".license-" <= name && |name| > |".license-"|)
  }

  predicate LogFile(name: string) { name == "desktop.log" }

  /** `inspectFirstLaunchRuntimeFiles`: a directory of regular files with allowed names. */
  predicate RuntimeFiles(node: Node, allowed: string -> bool)
  {
    node.Directory? && forall n | n in node.children :: node.children[n].Regular? && allowed(n)
  }

  /** `inspectFirstLaunchMarker` did not block. */
  predicate MarkerIntact(node: Node, probe: Probe)
  {
    && node.Directory? && node.children.Keys == {"imported.json"}
    && var file := node.children["imported.json"];
       file.Regular? && 0 < file.meta.size <= 4096 && probe.marker(file.content)
  }

  predicate TorEntry(name: string, node: Node)
  {
    if name == "data" then node.Directory? && !HasSpecial(node)
    else name in {"torrc", "tor-output.log", "bootstrap.log"} && node.Regular?
  }

  /** `inspectFirstLaunchProxy` did not block. */
  predicate ProxyIntact(node: Node)
  {
    && node.Directory? && node.children.Keys == {"tor-snowflake"}
    && var tor := node.children["tor-snowflake"];
       tor.Directory? && forall n | n in tor.children :: TorEntry(n, tor.children[n])
  }

  /** The entry neither blocks inspection on its own nor has an unknown name. */
  ghost predicate EntryAccepted(name: string, node: Node, probe: Probe)
  {
    match name
    case "license" => RuntimeFiles(node, LicenseFile)
    case "logs" => RuntimeFiles(node, LogFile)
    case "bootstrap-state" => MarkerIntact(node, probe)
    case "proxy" => ProxyIntact(node)
    case "data" => node.Directory? && !DataState(node.children, probe).Blocked?
    case _ => false
  }

  ghost predicate HoldsProfile(children: map<string, Node>, probe: Probe)
  {
    "data" in children && children["data"].Directory? && DataState(children["data"].children, probe).ExistingProfile?
  }

  /** The state of a whole target root, read off its entries without any order. */
  ghost function RootState(children: map<string, Node>, allowRuntimeOwned: bool, probe: Probe): TargetState
  {
    if exists n | n in children :: !EntryAccepted(n, children[n], probe) then Blocked
    else if HoldsProfile(children, probe) then ExistingProfile
    else if MARKER in children || ("proxy" in children && !allowRuntimeOwned) then Blocked
    else RequiresSeed
  }

  method HasSidecar(listing: seq<string>) returns (found: bool)
    ensures found <==> exists n | n in listing :: Sidecar(n)
  {
    for i := 0 to |listing|
      invariant forall n | n in listing[..i] :: !Sidecar(n)
    {
      if Sidecar(listing[i]) { return true; }
    }
    return false;
  }

  /** `inspectFirstLaunchRuntimeTree`: down the tree, giving up at the first entry that is no directory or file. */
  method InspectTree(tree: Node) returns (state: TargetState)
    ensures state == RuntimeTree(tree)
    decreases tree
  {
    if tree.Special? { return Blocked; }
    if tree.Regular? { return ExistingProfile; }
    var listing := ReadDirectory(tree);
    var existing := false;
    for i := 0 to |listing|
      invariant forall j | 0 <= j < i :: !HasSpecial(tree.children[listing[j]])
      invariant existing <==> exists j | 0 <= j < i :: HasRegular(tree.children[listing[j]])
    {
      assert listing[i] in tree.children;
      var below := InspectTree(tree.children[listing[i]]);
      if below.Blocked? { return Blocked; }
      existing := existing || below.ExistingProfile?;
    }
    assert forall n | n in tree.children :: n in listing;
    return if existing then ExistingProfile else RequiresSeed;
  }

  /** `firstLaunchTreeIsEmpty`: directories all the way down. */
  method TreeIsEmpty(tree: Node) returns (empty: bool)
    ensures empty <==> !HasSpecial(tree) && !HasRegular(tree)
    decreases tree
  {
    if !tree.Directory? { return false; }
    var listing := ReadDirectory(tree);
    for i := 0 to |listing|
      invariant forall j | 0 <= j < i ::
        !HasSpecial(tree.children[listing[j]]) && !HasRegular(tree.children[listing[j]])
    {
      assert listing[i] in tree.children;
      var below := TreeIsEmpty(tree.children[listing[i]]);
      if !below { return false; }
    }
    assert forall n | n in tree.children :: n in listing;
    return true;
  }

  /** What one entry of `data` decides: no more, that there is a profile, or nothing. */
  method InspectEntry(name: string, node: Node, probe: Probe) returns (safe: bool, existing: bool)
    ensures safe <==> !DataEntry(name, node, probe).Blocked?
    ensures safe ==> (existing <==> DataEntry(name, node, probe).ExistingProfile?)
  {
    if node.Directory? {
      if name !in ALLOWED_DIRECTORIES { return false, false; }
      var below := InspectTree(node);
      return !below.Blocked?, below.ExistingProfile?;
    }
    if !node.Regular? { return false, false; }
    if name == BOLT {
      return true, node.meta.size > 0;
    } else if name == DATABASE {
      var verdict := probe.database(node.content);
      if verdict.Unreadable? { return false, false; }
      return true, !verdict.Replaceable?;
    }
    return false, false;
  }

  /** `inspectFirstLaunchData`, entry by entry in the order the directory was listed. */
  method InspectData(dir: Node, probe: Probe) returns (state: TargetState)
    requires dir.Directory?
    ensures state == DataState(dir.children, probe)
  {
    var listing := ReadDirectory(dir);
    var sidecar := HasSidecar(listing);
    if sidecar { return Blocked; }
    assert forall n | n in dir.children :: n in listing;
    var existing := false;
    for i := 0 to |listing|
      invariant forall j | 0 <= j < i :: !DataEntry(listing[j], dir.children[listing[j]], probe).Blocked?
      invariant !existing ==>
        forall j | 0 <= j < i :: DataEntry(listing[j], dir.children[listing[j]], probe).RequiresSeed?
      invariant existing ==> exists n | n in dir.children :: DataEntry(n, dir.children[n], probe).ExistingProfile?
    {
      var name := listing[i];
      assert name in dir.children;
      var safe, found := InspectEntry(name, dir.children[name], probe);
      if !safe { return Blocked; }
      existing := existing || found;
    }
    if existing { return ExistingProfile; }
    return RequiresSeed;
  }

  /** `inspectFirstLaunchRuntimeFiles`. */
  method InspectFiles(node: Node, allowed: string -> bool) returns (safe: bool)
    ensures safe == RuntimeFiles(node, allowed)
  {
    if !node.Directory? { return false; }
    var listing := ReadDirectory(node);
    for i := 0 to |listing|
      invariant forall j | 0 <= j < i :: node.children[listing[j]].Regular? && allowed(listing[j])
    {
      assert listing[i] in node.children;
      if !allowed(listing[i]) || !node.children[listing[i]].Regular? { return false; }
    }
    assert forall n | n in node.children :: n in listing;
    return true;
  }

  /** `inspectFirstLaunchMarker`. */
  method InspectMarker(node: Node, probe: Probe) returns (intact: bool)
    ensures intact == MarkerIntact(node, probe)
  {
    if !node.Directory? { return false; }
    var listing := ReadDirectory(node);
    ListingKeys(node, listing);
    if |listing| != 1 || listing[0] != "imported.json" { return false; }
    var file := node.children[listing[0]];
    if !file.Regular? || file.meta.size <= 0 || file.meta.size > 4096 { return false; }
    return probe.marker(file.content);
  }

  lemma ListingKeys(dir: Node, listing: seq<string>)
    requires dir.Directory? && Distinct(listing) && forall n :: n in listing <==> n in dir.children
    ensures |listing| == 1 ==> dir.children.Keys == {listing[0]}
    ensures forall n :: dir.children.Keys == {n} ==> |listing| == 1 && listing[0] == n
  {
    assert |listing| > 1 ==> listing[0] != listing[1];
    assert forall i | 0 <= i < |listing| :: listing[i] in listing && listing[i] in dir.children.Keys;
    forall n | dir.children.Keys == {n} ensures |listing| == 1 && listing[0] == n {
      assert n in listing;
    }
  }

  /** `inspectFirstLaunchProxy`. */
  method InspectProxy(node: Node) returns (intact: bool)
    ensures intact == ProxyIntact(node)
  {
    if !node.Directory? { return false; }
    var entries := ReadDirectory(node);
    ListingKeys(node, entries);
    if |entries| != 1 || entries[0] != "tor-snowflake" { return false; }
    var tor := node.children[entries[0]];
    if !tor.Directory? { return false; }
    var listing := ReadDirectory(tor);
    for i := 0 to |listing|
      invariant forall j | 0 <= j < i :: TorEntry(listing[j], tor.children[listing[j]])
    {
      var name := listing[i];
      assert name in tor.children;
      var entry := tor.children[name];
      if name == "data" {
        if !entry.Directory? { return false; }
        var state := InspectTree(entry);
        if state.Blocked? { return false; }
      } else if name == "torrc" || name == "tor-output.log" || name == "bootstrap.log" {
        if !entry.Regular? { return false; }
      } else {
        return false;
      }
    }
    assert forall n | n in tor.children :: n in listing;
    return true;
  }

  /** `inspectFirstLaunchTarget`: one pass over the root with three flags. A missing root requires a seed. */
  method InspectTarget(root: Option<Node>, allowRuntimeOwned: bool, probe: Probe) returns (state: TargetState)
    ensures root.None? ==> state == RequiresSeed
    ensures root.Some? && !root.value.Directory? ==> state == Blocked
    ensures root.Some? && root.value.Directory? ==>
      state == RootState(root.value.children, allowRuntimeOwned, probe)
  {
    if root.None? { return RequiresSeed; }
    if !root.value.Directory? { return Blocked; }
    var children := root.value.children;
    var listing := ReadDirectory(root.value);
    var existing, hasMarker, hasRuntimeOwnedRoot := false, false, false;
    for i := 0 to |listing|
      invariant forall j | 0 <= j < i :: EntryAccepted(listing[j], children[listing[j]], probe)
      invariant existing <==> "data" in listing[..i] && HoldsProfile(children, probe)
      invariant hasMarker <==> MARKER in listing[..i]
      invariant hasRuntimeOwnedRoot <==> "proxy" in listing[..i]
    {
      var name := listing[i];
      assert name in children && listing[..i + 1] == listing[..i] + [name];
      var node := children[name];
      if node.Special? { return Blocked; }
      if name == "license" {
        var safe := InspectFiles(node, LicenseFile);
        if !safe { return Blocked; }
      } else if name == "logs" {
        var safe := InspectFiles(node, LogFile);
        if !safe { return Blocked; }
      } else if name == MARKER {
        var intact := InspectMarker(node, probe);
        if !intact { return Blocked; }
        hasMarker := true;
      } else if name == "proxy" {
        var intact := InspectProxy(node);
        if !intact { return Blocked; }
        hasRuntimeOwnedRoot := true;
      } else if name == "data" {
        if !node.Directory? { return Blocked; }
        var dataState := InspectData(node, probe);
        if dataState.Blocked? { return Blocked; }
        assert "data" !in listing[..i];
        existing := existing || dataState.ExistingProfile?;
      } else {
        return Blocked;
      }
    }
    assert listing[..|listing|] == listing;
    assert forall n | n in children :: n in listing;
    if hasMarker && !existing { return Blocked; }
    if hasRuntimeOwnedRoot && !existing && !allowRuntimeOwned { return Blocked; }
    if existing { return ExistingProfile; }
    return RequiresSeed;
  }

  /** What `firstLaunchDataIsReplaceable` asks of one entry, sidecars aside. */
  predicate EntryReplaceable(name: string, node: Node, probe: Probe)
  {
    match node
    case Special(meta, symlink) => !symlink && name == BOLT && meta.size <= 0
    case Directory(_, _) => name in REPLACEABLE_DIRECTORIES && !HasSpecial(node) && !HasRegular(node)
    case Regular(meta, content) =>
      || (name == BOLT && meta.size <= 0)
      || (name == DATABASE && probe.database(content).Replaceable?)
  }

  ghost predicate DataReplaceable(children: map<string, Node>, probe: Probe)
  {
    forall n | n in children :: !Sidecar(n) && EntryReplaceable(n, children[n], probe)
  }

  /** `firstLaunchDataIsReplaceable`: the database is opened last, once everything else has passed. */
  method IsDataReplaceable(dir: Node, probe: Probe) returns (verdict: bool)
    requires dir.Directory?
    ensures verdict == DataReplaceable(dir.children, probe)
  {
    var listing := ReadDirectory(dir);
    var sidecar := HasSidecar(listing);
    if sidecar { return false; }
    var database: Option<Node> := None;
    for i := 0 to |listing|
      invariant forall j | 0 <= j < i && listing[j] != DATABASE ::
        EntryReplaceable(listing[j], dir.children[listing[j]], probe)
      invariant database == if DATABASE in listing[..i] then Some(dir.children[DATABASE]) else None
      invariant database.Some? ==> !database.value.Directory?
    {
      var name := listing[i];
      assert name in dir.children && listing[..i + 1] == listing[..i] + [name];
      var node := dir.children[name];
      if node.Special? && node.symlink { return false; }
      if node.Directory? {
        if name !in REPLACEABLE_DIRECTORIES { return false; }
        var empty := TreeIsEmpty(node);
        if !empty { return false; }
        continue;
      }
      if name != DATABASE && name != BOLT { return false; }
      if name == BOLT && node.meta.size > 0 { return false; }
      if name == DATABASE { database := Some(node); }
    }
    assert listing[..|listing|] == listing;
    assert forall n | n in dir.children :: n in listing;
    if database.Some? {
      verdict := database.value.Regular? && probe.database(database.value.content).Replaceable?;
    } else {
      verdict := true;
    }
  }

  /** `inspectFirstLaunchPublishedTarget` on an existing root: contents of data and marker are not judged. */
  function PublishedState(children: map<string, Node>): TargetState
  {
    if exists n | n in children :: !PublishedEntry(n, children[n]) then Blocked
    else if "data" in children && MARKER in children then ExistingProfile
    else if "data" !in children && MARKER !in children then RequiresSeed
    else Blocked
  }

  predicate PublishedEntry(name: string, node: Node)
  {
    match name
    case "license" => RuntimeFiles(node, LicenseFile)
    case "logs" => RuntimeFiles(node, LogFile)
    case "data" => node.Directory?
    case "bootstrap-state" => node.Directory?
    case _ => false
  }

  /** The same as the program runs it, with two flags. */
  method InspectPublished(root: Node) returns (state: TargetState)
    requires root.Directory?
    ensures state == PublishedState(root.children)
  {
    var listing := ReadDirectory(root);
    var hasData, hasMarker := false, false;
    for i := 0 to |listing|
      invariant forall j | 0 <= j < i :: PublishedEntry(listing[j], root.children[listing[j]])
      invariant hasData <==> "data" in listing[..i]
      invariant hasMarker <==> MARKER in listing[..i]
    {
      var name := listing[i];
      assert name in root.children && listing[..i + 1] == listing[..i] + [name];
      var node := root.children[name];
      if node.Special? { return Blocked; }
      if name == "license" || name == "logs" {
        var safe := InspectFiles(node, if name == "license" then LicenseFile else LogFile);
        if !safe { return Blocked; }
      } else if name == "data" {
        if !node.Directory? { return Blocked; }
        hasData := true;
      } else if name == MARKER {
        if !node.Directory? { return Blocked; }
        hasMarker := true;
      } else {
        return Blocked;
      }
    }
    assert listing[..|listing|] == listing;
    assert forall n | n in root.children :: n in listing;
    if hasData && hasMarker { return ExistingProfile; }
    if !hasData && !hasMarker { return RequiresSeed; }
    return Blocked;
  }

  // ----- The verdicts in terms of paths -----

  ghost predicate SpecialAt(root: Node, path: seq<string>)
  {
    Lookup(root, path).Some? && Lookup(root, path).value.Special?
  }

  ghost predicate FileAt(root: Node, path: seq<string>)
  {
    Lookup(root, path).Some? && Lookup(root, path).value.Regular?
  }

  lemma {:induction false} SpecialSomewhere(tree: Node)
    ensures HasSpecial(tree) <==> exists path :: SpecialAt(tree, path)
    decreases tree
  {
    if HasSpecial(tree) {
      if tree.Special? {
        assert SpecialAt(tree, []);
      } else {
        var n :| n in tree.children && HasSpecial(tree.children[n]);
        SpecialSomewhere(tree.children[n]);
        var rest :| SpecialAt(tree.children[n], rest);
        PathDown(tree, n, rest);
        assert SpecialAt(tree, [n] + rest);
      }
    }
    if path :| SpecialAt(tree, path) && !HasSpecial(tree) {
      SpecialSomewhere(tree.children[path[0]]);
      assert SpecialAt(tree.children[path[0]], path[1..]);
    }
  }

  lemma {:induction false} FileSomewhere(tree: Node)
    ensures HasRegular(tree) <==> exists path :: FileAt(tree, path)
    decreases tree
  {
    if HasRegular(tree) {
      if tree.Regular? {
        assert FileAt(tree, []);
      } else {
        var n :| n in tree.children && HasRegular(tree.children[n]);
        FileSomewhere(tree.children[n]);
        var rest :| FileAt(tree.children[n], rest);
        PathDown(tree, n, rest);
        assert FileAt(tree, [n] + rest);
      }
    }
    if path :| FileAt(tree, path) && !HasRegular(tree) {
      FileSomewhere(tree.children[path[0]]);
      assert FileAt(tree.children[path[0]], path[1..]);
    }
  }

  lemma PathDown(dir: Node, name: string, rest: seq<string>)
    requires dir.Directory? && name in dir.children
    ensures Lookup(dir, [name] + rest) == Lookup(dir.children[name], rest)
  {
    assert ([name] + rest)[1..] == rest;
  }

  /** A file below one of the directories of `data`. */
  lemma FileInDirectory(dir: Node)
    requires dir.Directory?
    ensures (exists path :: |path| > 1 && FileAt(dir, path)) <==>
            exists n | n in dir.children :: dir.children[n].Directory? && HasRegular(dir.children[n])
  {
    if path :| |path| > 1 && FileAt(dir, path) {
      assert FileAt(dir.children[path[0]], path[1..]);
      FileSomewhere(dir.children[path[0]]);
    }
    if n :| n in dir.children && dir.children[n].Directory? && HasRegular(dir.children[n]) {
      FileSomewhere(dir.children[n]);
      var rest :| FileAt(dir.children[n], rest);
      PathDown(dir, n, rest);
      assert |[n] + rest| > 1 && FileAt(dir, [n] + rest);
    }
  }

  predicate HasFile(dir: Node, name: string)
    requires dir.Directory?
  {
    name in dir.children && dir.children[name].Regular?
  }

  /** Nobody would touch such a `data` directory: it holds something the program does not know. */
  ghost predicate Foreign(dir: Node, probe: Probe)
    requires dir.Directory?
  {
    || "app.db-shm" in dir.children || "app.db-wal" in dir.children
    || (exists path :: SpecialAt(dir, path))
    || (exists n | n in dir.children :: dir.children[n].Directory? && n !in ALLOWED_DIRECTORIES)
    || (exists n | n in dir.children :: dir.children[n].Regular? && n != BOLT && n != DATABASE)
    || (HasFile(dir, DATABASE) && probe.database(dir.children[DATABASE].content).Unreadable?)
  }

  /** Somebody has worked with it: a file at some depth, a bolt file that is not empty, or a database in use. */
  ghost predicate Lived(dir: Node, probe: Probe)
    requires dir.Directory?
  {
    || (exists path :: |path| > 1 && FileAt(dir, path))
    || (HasFile(dir, BOLT) && dir.children[BOLT].meta.size > 0)
    || (HasFile(dir, DATABASE) && probe.database(dir.children[DATABASE].content).InUse?)
  }

  lemma EntryExact(name: string, node: Node, probe: Probe)
    ensures DataEntry(name, node, probe).Blocked? <==>
            || HasSpecial(node) || (node.Directory? && name !in ALLOWED_DIRECTORIES)
            || (node.Regular? && name != BOLT && name != DATABASE)
            || (node.Regular? && name == DATABASE && probe.database(node.content).Unreadable?)
    ensures DataEntry(name, node, probe).ExistingProfile? ==>
            || (node.Directory? && HasRegular(node)) || (node.Regular? && name == BOLT && node.meta.size > 0)
            || (node.Regular? && name == DATABASE && probe.database(node.content).InUse?)
    ensures DataEntry(name, node, probe).RequiresSeed? ==>
            !((node.Directory? && HasRegular(node)) || (node.Regular? && name == BOLT && node.meta.size > 0)
              || (node.Regular? && name == DATABASE && probe.database(node.content).InUse?))
  {
  }

  lemma ForeignExact(dir: Node, probe: Probe)
    requires dir.Directory?
    ensures DataState(dir.children, probe).Blocked? <==> Foreign(dir, probe)
  {
    hide DataEntry, FileAt;
    SpecialSomewhere(dir);
    forall n | n in dir.children ensures DataEntry(n, dir.children[n], probe).Blocked? ==> Foreign(dir, probe) {
      EntryExact(n, dir.children[n], probe);
    }
    if Foreign(dir, probe) && !("app.db-shm" in dir.children || "app.db-wal" in dir.children) {
      var n :| n in dir.children && (HasSpecial(dir.children[n])
        || (dir.children[n].Directory? && n !in ALLOWED_DIRECTORIES)
        || (dir.children[n].Regular? && n != BOLT && n != DATABASE)
        || (dir.children[n].Regular? && n == DATABASE && probe.database(dir.children[n].content).Unreadable?));
      EntryExact(n, dir.children[n], probe);
    }
  }

  lemma LivedEntry(dir: Node, probe: Probe)
    requires dir.Directory?
    ensures Lived(dir, probe) <==> exists n | n in dir.children ::
              || (dir.children[n].Directory? && HasRegular(dir.children[n]))
              || (dir.children[n].Regular? && n == BOLT && dir.children[n].meta.size > 0)
              || (dir.children[n].Regular? && n == DATABASE && probe.database(dir.children[n].content).InUse?)
  {
    hide FileAt, HasRegular;
    FileInDirectory(dir);
  }

  /** Which directories are blocked, which hold a profile, and which require a seed. */
  lemma DataExact(dir: Node, probe: Probe)
    requires dir.Directory?
    ensures DataState(dir.children, probe) ==
            if Foreign(dir, probe) then Blocked else if Lived(dir, probe) then ExistingProfile else RequiresSeed
  {
    hide DataEntry, Lived, Foreign, HasRegular;
    ForeignExact(dir, probe);
    LivedEntry(dir, probe);
    forall n | n in dir.children
      ensures DataEntry(n, dir.children[n], probe).ExistingProfile? ==> Lived(dir, probe)
      ensures DataEntry(n, dir.children[n], probe).RequiresSeed? ==>
        && !(dir.children[n].Directory? && HasRegular(dir.children[n]))
        && !(dir.children[n].Regular? && n == BOLT && dir.children[n].meta.size > 0)
        && !(dir.children[n].Regular? && n == DATABASE && probe.database(dir.children[n].content).InUse?)
    { EntryExact(n, dir.children[n], probe); }
  }

  /**
   Exactly which data directories may be displaced: no sidecar, only the six directories and with nothing but
   directories below them, and no file but an empty bolt file and a replaceable database. (A bolt entry that is
   neither file nor link passes as well.)
   */
  lemma ReplaceableExact(dir: Node, probe: Probe)
    requires dir.Directory?
    ensures DataReplaceable(dir.children, probe) <==>
            && "app.db-shm" !in dir.children && "app.db-wal" !in dir.children
            && (forall n | n in dir.children && dir.children[n].Directory? :: n in REPLACEABLE_DIRECTORIES)
            && forall path :: Lookup(dir, path).Some? ==> Harmless(path, Lookup(dir, path).value, probe)
  {
    hide HasRegular, HasSpecial, Harmless;
    if DataReplaceable(dir.children, probe) {
      forall path | Lookup(dir, path).Some? ensures Harmless(path, Lookup(dir, path).value, probe) {
        if path != [] { ReplaceablePath(dir, path, probe); } else { HarmlessDirectory(dir, probe); }
      }
    } else {
      var n :| n in dir.children && (Sidecar(n) || !EntryReplaceable(n, dir.children[n], probe));
      if !Sidecar(n) && (dir.children[n].Directory? ==> n in REPLACEABLE_DIRECTORIES) { Irreplaceable(dir, n, probe); }
    }
  }

  /** Nothing is lost with it: a directory by itself, an empty bolt file, a replaceable database. */
  predicate Harmless(path: seq<string>, node: Node, probe: Probe)
  {
    match node
    case Directory(_, _) => true
    case Regular(meta, content) =>
      (path == [BOLT] && meta.size <= 0) || (path == [DATABASE] && probe.database(content).Replaceable?)
    case Special(meta, symlink) => path == [BOLT] && !symlink && meta.size <= 0
  }

  lemma HarmlessDirectory(dir: Node, probe: Probe)
    requires dir.Directory?
    ensures forall path :: Harmless(path, dir, probe)
  {
  }

  lemma ReplaceablePath(dir: Node, path: seq<string>, probe: Probe)
    requires dir.Directory? && path != [] && Lookup(dir, path).Some?
    requires EntryReplaceable(path[0], dir.children[path[0]], probe)
    ensures Harmless(path, Lookup(dir, path).value, probe)
  {
    var child := dir.children[path[0]];
    if child.Directory? {
      SpecialSomewhere(child);
      FileSomewhere(child);
      assert !SpecialAt(child, path[1..]) && !FileAt(child, path[1..]);
    } else {
      assert path == [path[0]];
    }
  }

  lemma Irreplaceable(dir: Node, n: string, probe: Probe)
    requires dir.Directory? && n in dir.children && !EntryReplaceable(n, dir.children[n], probe)
    requires dir.children[n].Directory? ==> n in REPLACEABLE_DIRECTORIES
    ensures exists path :: Lookup(dir, path).Some? && !Harmless(path, Lookup(dir, path).value, probe)
  {
    var child := dir.children[n];
    OneName(dir, n);
    if child.Directory? {
      SpecialSomewhere(child);
      FileSomewhere(child);
      var rest :| SpecialAt(child, rest) || FileAt(child, rest);
      PathDown(dir, n, rest);
      assert rest != [] && |[n] + rest| > 1;
      assert !Harmless([n] + rest, Lookup(dir, [n] + rest).value, probe);
    } else {
      assert [n][0] == n && [BOLT][0] == BOLT && [DATABASE][0] == DATABASE;
      assert !Harmless([n], child, probe);
    }
  }

  /** Apart from links, what may be displaced requires a seed. */
  lemma ReplaceableRequiresSeed(dir: Node, probe: Probe)
    requires dir.Directory? && DataReplaceable(dir.children, probe)
    ensures DataState(dir.children, probe) ==
            if exists n | n in dir.children :: dir.children[n].Special? then Blocked else RequiresSeed
  {
    forall n | n in dir.children
      ensures DataEntry(n, dir.children[n], probe) == if dir.children[n].Special? then Blocked else RequiresSeed
    { assert EntryReplaceable(n, dir.children[n], probe); }
  }

  lemma OneName(dir: Node, name: string)
    requires dir.Directory?
    ensures Lookup(dir, [name]) == if name in dir.children then Some(dir.children[name]) else None
  {
    if name in dir.children {
      PathDown(dir, name, []);
      assert [name] + [] == [name];
    }
  }

  lemma TwoNames(dir: Node, name: string, inner: string)
    requires dir.Directory? && name in dir.children && dir.children[name].Directory?
    ensures Lookup(dir, [name, inner])
            == if inner in dir.children[name].children then Some(dir.children[name].children[inner]) else None
  {
    PathDown(dir, name, [inner]);
    OneName(dir.children[name], inner);
    assert [name] + [inner] == [name, inner];
  }

  lemma TwoDown(dir: Node, path: seq<string>)
    requires dir.Directory? && |path| > 1 && Lookup(dir, path).Some?
    ensures path[0] in dir.children && dir.children[path[0]].Directory? && path[1] in dir.children[path[0]].children
    ensures Lookup(dir, path) == Lookup(dir.children[path[0]].children[path[1]], path[2..])
  {
    assert path[1..][0] == path[1] && path[1..][1..] == path[2..];
    assert Lookup(dir, path) == Lookup(dir.children[path[0]], path[1..]);
  }

  /** What may stand in the root beside the data and the marker, place by place. */
  ghost predicate InPlace(path: seq<string>, node: Node)
    requires path != []
  {
    if path[0] == "license" then
      || (|path| == 1 && node.Directory?)
      || (|path| == 2 && node.Regular?
          && (path[1] == "license.tcomplicense" || (".license-" <= path[1] && path[1] != ".license-")))
    else if path[0] == "logs" then
      (|path| == 1 && node.Directory?) || (|path| == 2 && node.Regular? && path[1] == "desktop.log")
    else
      && path[0] == "proxy" && (|path| > 1 ==> path[1] == "tor-snowflake")
      && if |path| <= 2 then node.Directory?
         else if path[2] == "data" then if |path| == 3 then node.Directory? else !node.Special?
         else |path| == 3 && node.Regular? && path[2] in {"torrc", "tor-output.log", "bootstrap.log"}
  }

  ghost predicate AllInPlace(root: Node, name: string)
  {
    forall path :: path != [] && path[0] == name && Lookup(root, path).Some? ==> InPlace(path, Lookup(root, path).value)
  }

  lemma FilesInPlace(root: Node, name: string)
    requires root.Directory? && name in root.children && name in {"license", "logs"}
    ensures RuntimeFiles(root.children[name], if name == "license" then LicenseFile else LogFile)
            <==> AllInPlace(root, name)
  {
    var node := root.children[name];
    OneName(root, name);
    var allowed := if name == "license" then LicenseFile else LogFile;
    if AllInPlace(root, name) {
      assert InPlace([name], node);
      forall n | n in node.children ensures node.children[n].Regular? && allowed(n) {
        TwoNames(root, name, n);
        assert InPlace([name, n], node.children[n]);
      }
    }
    if RuntimeFiles(node, allowed) {
      forall path | path != [] && path[0] == name && Lookup(root, path).Some?
        ensures InPlace(path, Lookup(root, path).value)
      {
        if |path| > 1 { TwoDown(root, path); }
      }
    }
  }

  lemma TorInPlace(tor: Node, path: seq<string>)
    requires tor.Directory? && path != [] && Lookup(tor, path).Some?
    requires forall n | n in tor.children :: TorEntry(n, tor.children[n])
    ensures InPlace(["proxy", "tor-snowflake"] + path, Lookup(tor, path).value)
  {
    var entry := tor.children[path[0]];
    assert TorEntry(path[0], entry);
    SpecialSomewhere(entry);
    assert !SpecialAt(entry, path[1..]);
  }

  lemma ProxyInPlace(root: Node)
    requires root.Directory? && "proxy" in root.children
    ensures ProxyIntact(root.children["proxy"]) <==>
            AllInPlace(root, "proxy") && Lookup(root, ["proxy", "tor-snowflake"]).Some?
  {
    hide HasSpecial;
    var node := root.children["proxy"];
    OneName(root, "proxy");
    if AllInPlace(root, "proxy") && Lookup(root, ["proxy", "tor-snowflake"]).Some? {
      assert InPlace(["proxy"], node);
      forall n | n in node.children ensures n == "tor-snowflake" {
        TwoNames(root, "proxy", n);
        assert InPlace(["proxy", n], node.children[n]);
      }
      TwoNames(root, "proxy", "tor-snowflake");
      var tor := node.children["tor-snowflake"];
      assert InPlace(["proxy", "tor-snowflake"], tor);
      forall n | n in tor.children ensures TorEntry(n, tor.children[n]) { TorPlaced(root, n); }
    }
    if ProxyIntact(node) {
      TwoNames(root, "proxy", "tor-snowflake");
      forall path | path != [] && path[0] == "proxy" && Lookup(root, path).Some?
        ensures InPlace(path, Lookup(root, path).value)
      {
        if |path| > 1 { TwoDown(root, path); }
        if |path| > 2 {
          assert path == ["proxy", "tor-snowflake"] + path[2..];
          TorInPlace(node.children["tor-snowflake"], path[2..]);
        }
      }
    }
  }

  /** An entry of the proxy's directory, judged by the places below it. */
  lemma TorPlaced(root: Node, n: string)
    requires root.Directory? && "proxy" in root.children && root.children["proxy"].Directory?
    requires var node := root.children["proxy"];
             && "tor-snowflake" in node.children && node.children["tor-snowflake"].Directory?
             && n in node.children["tor-snowflake"].children
    requires AllInPlace(root, "proxy")
    ensures TorEntry(n, root.children["proxy"].children["tor-snowflake"].children[n])
  {
    var tor := root.children["proxy"].children["tor-snowflake"];
    var entry := tor.children[n];
    forall rest | Lookup(entry, rest).Some?
      ensures InPlace(["proxy", "tor-snowflake", n] + rest, Lookup(entry, rest).value)
    {
      PathDown(tor, n, rest);
      PathDown(root.children["proxy"], "tor-snowflake", [n] + rest);
      PathDown(root, "proxy", ["tor-snowflake"] + ([n] + rest));
      assert ["proxy"] + (["tor-snowflake"] + ([n] + rest)) == ["proxy", "tor-snowflake", n] + rest;
    }
    assert ["proxy", "tor-snowflake", n] + [] == ["proxy", "tor-snowflake", n];
    assert Lookup(entry, []).Some?;
    SpecialSomewhere(entry);
    forall path ensures !SpecialAt(entry, path) {
      if Lookup(entry, path).Some? {
        assert InPlace(["proxy", "tor-snowflake", n] + path, Lookup(entry, path).value);
      }
    }
  }

  /** Beside data and marker there is nothing in the root but what the program itself puts there. */
  ghost predicate Tidy(root: Node)
    requires root.Directory?
  {
    && root.children.Keys <= {"license", "logs", "proxy", "data", "bootstrap-state"}
    && AllInPlace(root, "license") && AllInPlace(root, "logs") && AllInPlace(root, "proxy")
    && ("proxy" in root.children ==> Lookup(root, ["proxy", "tor-snowflake"]).Some?)
  }

  lemma TidyExact(root: Node, probe: Probe)
    requires root.Directory?
    ensures Tidy(root) <==>
            forall n | n in root.children && n != "data" && n != MARKER :: EntryAccepted(n, root.children[n], probe)
  {
    hide AllInPlace, RuntimeFiles, ProxyIntact, DataState, MarkerIntact, InPlace;
    if "license" in root.children { FilesInPlace(root, "license"); } else { NothingThere(root, "license"); }
    if "logs" in root.children { FilesInPlace(root, "logs"); } else { NothingThere(root, "logs"); }
    if "proxy" in root.children { ProxyInPlace(root); } else { NothingThere(root, "proxy"); }
    if !(root.children.Keys <= {"license", "logs", "proxy", "data", "bootstrap-state"}) {
      var n :| n in root.children.Keys && n !in {"license", "logs", "proxy", "data", "bootstrap-state"};
      assert !EntryAccepted(n, root.children[n], probe);
    }
  }

  lemma NothingThere(root: Node, name: string)
    requires root.Directory? && name !in root.children
    ensures AllInPlace(root, name)
  {
  }

  /** The marker is a directory with one file in it, of 1 to 4096 bytes, that the program can have written. */
  ghost predicate MarkerInPlace(root: Node, probe: Probe)
  {
    var file := Lookup(root, ["bootstrap-state", "imported.json"]);
    && file.Some? && file.value.Regular? && 1 <= file.value.meta.size <= 4096 && probe.marker(file.value.content)
    && forall n :: Lookup(root, ["bootstrap-state", n]).Some? ==> n == "imported.json"
  }

  lemma MarkerExact(root: Node, probe: Probe)
    requires root.Directory? && "bootstrap-state" in root.children
    ensures MarkerIntact(root.children["bootstrap-state"], probe) <==> MarkerInPlace(root, probe)
  {
    var node := root.children["bootstrap-state"];
    if node.Directory? {
      forall n
        ensures Lookup(root, ["bootstrap-state", n]) == if n in node.children then Some(node.children[n]) else None
      { TwoNames(root, "bootstrap-state", n); }
      assert MarkerInPlace(root, probe) ==> "imported.json" in node.children.Keys;
    } else {
      assert Lookup(root, ["bootstrap-state", "imported.json"])
             == Lookup(node, ["bootstrap-state", "imported.json"][1..]);
    }
  }

  /** Which roots require a seed, and which hold a profile; every other one is blocked. */
  lemma RootExact(root: Node, allowRuntimeOwned: bool, probe: Probe)
    requires root.Directory?
    ensures RootState(root.children, allowRuntimeOwned, probe) == RequiresSeed <==>
            && Tidy(root) && "bootstrap-state" !in root.children && ("proxy" in root.children ==> allowRuntimeOwned)
            && ("data" in root.children ==>
                  root.children["data"].Directory? && !Foreign(root.children["data"], probe)
                  && !Lived(root.children["data"], probe))
    ensures RootState(root.children, allowRuntimeOwned, probe) == ExistingProfile <==>
            && Tidy(root) && ("bootstrap-state" in root.children ==> MarkerInPlace(root, probe))
            && "data" in root.children && root.children["data"].Directory?
            && !Foreign(root.children["data"], probe) && Lived(root.children["data"], probe)
  {
    hide Tidy, Foreign, Lived, DataState, RuntimeFiles, ProxyIntact, MarkerIntact, MarkerInPlace;
    TidyExact(root, probe);
    if "bootstrap-state" in root.children { MarkerExact(root, probe); }
    if "data" in root.children && root.children["data"].Directory? { DataExact(root.children["data"], probe); }
  }

  /** Which roots pass for published, and which for untouched; contents of data and marker are not judged. */
  lemma PublishedExact(root: Node)
    requires root.Directory?
    ensures PublishedState(root.children) != Blocked <==>
            && root.children.Keys <= {"license", "logs", "data", "bootstrap-state"}
            && ("data" in root.children <==> "bootstrap-state" in root.children)
            && (forall n | n in root.children :: root.children[n].Directory?)
            && AllInPlace(root, "license") && AllInPlace(root, "logs")
    ensures PublishedState(root.children) == ExistingProfile <==>
            PublishedState(root.children) != Blocked && "data" in root.children
  {
    hide AllInPlace, InPlace;
    if "license" in root.children { FilesInPlace(root, "license"); } else { NothingThere(root, "license"); }
    if "logs" in root.children { FilesInPlace(root, "logs"); } else { NothingThere(root, "logs"); }
    forall n | n in root.children
      ensures PublishedEntry(n, root.children[n]) <==>
        && n in {"license", "logs", "data", "bootstrap-state"} && root.children[n].Directory? && AllOf(root, n)
    {}
  }

  /** The place is one of the program's own, and all below it is in place. */
  ghost predicate AllOf(root: Node, name: string)
  {
    name in {"license", "logs"} ==> AllInPlace(root, name)
  }

  /** Once a marker stands in the root, no later inspection asks for a seed, whatever the data holds. */
  lemma MarkerEndsSeeding(children: map<string, Node>, allowRuntimeOwned: bool, probe: Probe)
    requires MARKER in children
    ensures RootState(children, allowRuntimeOwned, probe) != RequiresSeed
  {
  }

  /**
   "Requires a seed" and "may be displaced" are two tests with different lists of directories. They
   differ exactly on the drive-account directories, which the first accepts when empty.
   */
  lemma RequiresSeedReplaceable(children: map<string, Node>, probe: Probe)
    requires DataState(children, probe) == RequiresSeed
    ensures DataReplaceable(children, probe) <==> forall n | n in children :: n !in DRIVE_DIRECTORIES
  {
    forall n | n in children
      ensures !Sidecar(n) && (EntryReplaceable(n, children[n], probe) <==> n !in DRIVE_DIRECTORIES)
    {
      assert DataEntry(n, children[n], probe).RequiresSeed?;
    }
  }

  lemma RequiresSeedNotReplaceable(probe: Probe) returns (children: map<string, Node>)
    ensures DataState(children, probe) == RequiresSeed
    ensures !DataReplaceable(children, probe)
  {
    var empty := Directory(Meta(0, 0, Identity(0, 0), 0), map[]);
    children := map["drive-account-scratch" := empty];
    assert DataEntry("drive-account-scratch", empty, probe) == RequiresSeed;
    assert !EntryReplaceable("drive-account-scratch", children["drive-account-scratch"], probe);
  }

  /** At no depth does a replaceable tree hold a file other than an empty bolt file or a replaceable database. */
  lemma ReplaceableHoldsNothing(dir: Node, path: seq<string>, probe: Probe)
    requires dir.Directory? && DataReplaceable(dir.children, probe)
    requires Lookup(dir, path).Some? && Lookup(dir, path).value.Regular?
    ensures var file := Lookup(dir, path).value;
      || (path == [BOLT] && file.meta.size <= 0)
      || (path == [DATABASE] && probe.database(file.content).Replaceable?)
  {
    ReplaceableExact(dir, probe);
  }
}
