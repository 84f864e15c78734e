/**
 The tree fingerprint of a first-launch directory: the sorted pre-order walk of
 internal/app/first_launch_fingerprint_unix.go and what equality of two fingerprints
 says about the trees behind them.
 */
module Fingerprint {
  import opened Ordering

  type byte = n: nat | n < 256

  /** Device and inode, what `os.SameFile` compares. */
  datatype Identity = Identity(device: nat, inode: nat)

  /** What a stat returns. `stamp` stands for the attributes no fingerprint records (times, owner, links). */
  datatype Meta = Meta(perm: nat, size: int, id: Identity, stamp: nat)

  /** One snapshot of a file tree. `Special` is a symbolic link, or a device, socket or pipe. */
  datatype Node =
    | Directory(meta: Meta, children: map<string, Node>)
    | Regular(meta: Meta, content: seq<byte>)
    | Special(meta: Meta, symlink: bool)

  /** SHA-256, taken to be free of collisions; a directory's entry keeps the zero value. */
  datatype Digest = Zero | Sha256(content: seq<byte>)

  datatype Entry = Entry(path: string, directory: bool, perm: nat, size: int, digest: Digest, id: Identity)

  predicate ValidName(name: string)
  {
    name != "" && name != "." && name != ".." && '/' !in name
  }

  /** `filepath.Join(relativeRoot, name)` for a name without separators. */
  function ChildPrefix(rel: string): string { if rel == "." then "" else rel + "/" }

  function JoinName(rel: string, name: string): string { ChildPrefix(rel) + name }

  function EntryOf(node: Node, path: string): Entry
    requires !node.Special?
  {
    Entry(path, node.Directory?, node.meta.perm, node.meta.size,
          if node.Directory? then Zero else Sha256(node.content), node.meta.id)
  }

  ghost predicate IsSortedListing(r: seq<string>, names: set<string>)
  {
    Ascending(Less, r) && forall n :: n in r <==> n in names
  }

  lemma {:induction false} SortedListingExists(names: set<string>) returns (r: seq<string>)
    ensures IsSortedListing(r, names)
  {
    if names == {} { return []; }
    var n :| n in names;
    var rest := SortedListingExists(names - {n});
    LessIsStrictTotal(Elements(rest) + {n});
    InsertAscending(Less, n, rest);
    InsertElements(Less, n, rest);
    r := Insert(Less, n, rest);
  }

  /** The names of a directory in ascending order. */
  ghost function SortedNames(names: set<string>): (r: seq<string>)
    ensures IsSortedListing(r, names)
  {
    assert exists r :: IsSortedListing(r, names) by { var r := SortedListingExists(names); }
    var r :| IsSortedListing(r, names);
    r
  }

  /** The entries of one named child: itself, then what lies below it. None is the walk's error. */
  ghost function WalkChild(node: Node, path: string): Option<seq<Entry>>
    decreases node, 1, 0
  {
    if node.Special? then None
    else if node.Regular? then Some([EntryOf(node, path)])
    else
      var below := WalkNames(node, SortedNames(node.children.Keys), path);
      if below.None? then None else Some([EntryOf(node, path)] + below.value)
  }

  ghost function WalkNames(dir: Node, names: seq<string>, rel: string): Option<seq<Entry>>
    requires dir.Directory? && forall n | n in names :: n in dir.children
    decreases dir, 0, |names|
  {
    if names == [] then Some([])
    else if !ValidName(names[0]) then None
    else
      var first := WalkChild(dir.children[names[0]], JoinName(rel, names[0]));
      var rest := WalkNames(dir, names[1..], rel);
      if first.None? || rest.None? then None else Some(first.value + rest.value)
  }

  ghost function FingerprintOf(root: Node): Option<seq<Entry>>
  {
    if !root.Directory? then None else WalkChild(root, ".")
  }

  /** Equal in shape, names, modes, sizes, identities and file contents; time stamps may differ. */
  ghost predicate Agree(a: Node, b: Node)
  {
    && a.meta.perm == b.meta.perm && a.meta.size == b.meta.size && a.meta.id == b.meta.id
    && match (a, b)
       case (Directory(_, ca), Directory(_, cb)) =>
         ca.Keys == cb.Keys && forall n | n in ca :: Agree(ca[n], cb[n])
       case (Regular(_, ta), Regular(_, tb)) => ta == tb
       case _ => false
  }

  /** No entry of a walk below `prefix` is left over: the list is empty or goes on elsewhere. */
  ghost predicate Outside(rest: seq<Entry>, prefix: string)
  {
    rest == [] || !(prefix <= rest[0].path)
  }

  lemma NotPrefix(p: string, q: string, k: nat)
    requires k < |p| && (k < |q| ==> p[k] != q[k])
    ensures !(p <= q)
  {
    assert |p| <= |q| ==> q[..|p|][k] == q[k];
  }

  lemma PrefixesApart(prefix: string, dir: string, next: string)
    requires ValidName(next)
    ensures !(prefix + dir + "/" <= prefix + next)
  {
    var p, q, k := prefix + dir + "/", prefix + next, |prefix| + |dir|;
    assert p[k] == '/';
    if k < |q| { assert q[k] == next[|dir|]; }
    NotPrefix(p, q, k);
  }

  lemma LongerPrefix(prefix: string, more: string, path: string)
    requires !(prefix <= path)
    ensures !(prefix + more <= path)
  {
    assert |prefix + more| <= |path| ==> path[..|prefix + more|][..|prefix|] == path[..|prefix|];
    assert (prefix + more)[..|prefix|] == prefix;
  }

  lemma {:induction false} WalkHead(dir: Node, names: seq<string>, rel: string)
    requires dir.Directory? && forall n | n in names :: n in dir.children
    requires names != [] && WalkNames(dir, names, rel).Some?
    ensures ValidName(names[0]) && !dir.children[names[0]].Special?
    ensures var l := WalkNames(dir, names, rel).value;
            l != [] && l[0] == EntryOf(dir.children[names[0]], JoinName(rel, names[0]))
  {
  }

  /**
   A walk can be decoded: if two walks below the same path, each followed by entries that lie
   elsewhere, are the same list, they visited the same names, the children agree, and the
   leftovers are the same.
   */
  lemma {:induction false} WalkInjective(a: Node, na: seq<string>, ra: seq<Entry>,
                                         b: Node, nb: seq<string>, rb: seq<Entry>, rel: string)
    requires a.Directory? && forall n | n in na :: n in a.children
    requires b.Directory? && forall n | n in nb :: n in b.children
    requires WalkNames(a, na, rel).Some? && WalkNames(b, nb, rel).Some?
    requires WalkNames(a, na, rel).value + ra == WalkNames(b, nb, rel).value + rb
    requires Outside(ra, ChildPrefix(rel)) && Outside(rb, ChildPrefix(rel))
    ensures na == nb && ra == rb
    ensures forall n | n in na :: Agree(a.children[n], b.children[n])
    decreases a, 0, |na|
  {
    hide Agree, EntryOf, Outside, SortedNames, JoinName;
    SameHead(a, na, ra, b, nb, rb, rel);
    if na != [] {
      var n := na[0];
      WalkRest(a, na, ra, rel);
      WalkRest(b, nb, rb, rel);
      AfterHeadShape(a, na, ra, rel);
      AfterHeadShape(b, nb, rb, rel);
      hide AfterHead;
      var ta, tb := WalkNames(a, na[1..], rel).value + ra, WalkNames(b, nb[1..], rel).value + rb;
      ChildInjective(a.children[n], ta, b.children[n], tb, JoinName(rel, n));
      WalkInjective(a, na[1..], ra, b, nb[1..], rb, rel);
      assert na == [n] + na[1..] && nb == [n] + nb[1..];
    }
  }

  /** What follows a child's own entry: its subtree if it is a directory, then the rest. */
  ghost predicate Follows(child: Node, tail: seq<Entry>, path: string, list: seq<Entry>)
  {
    if child.Directory? then
      var below := WalkNames(child, SortedNames(child.children.Keys), path);
      below.Some? && list == below.value + tail && Outside(tail, ChildPrefix(path))
    else list == tail
  }

  lemma {:induction false} ChildInjective(ca: Node, ta: seq<Entry>, cb: Node, tb: seq<Entry>, path: string)
    requires !ca.Special? && !cb.Special? && EntryOf(ca, "") == EntryOf(cb, "")
    requires exists list :: Follows(ca, ta, path, list) && Follows(cb, tb, path, list)
    ensures Agree(ca, cb) && ta == tb
    decreases ca, 1, 0
  {
    hide Outside;
    if ca.Directory? {
      var la, lb := SortedNames(ca.children.Keys), SortedNames(cb.children.Keys);
      WalkInjective(ca, la, ta, cb, lb, tb, path);
      SortedNamesExact(ca.children.Keys, cb.children.Keys);
    }
  }

  lemma SortedNamesExact(a: set<string>, b: set<string>)
    requires SortedNames(a) == SortedNames(b)
    ensures a == b
  {
    assert forall n :: n in SortedNames(a) <==> n in a;
  }

  lemma AfterHeadShape(dir: Node, names: seq<string>, rest: seq<Entry>, rel: string)
    requires dir.Directory? && forall n | n in names :: n in dir.children
    requires names != [] && WalkNames(dir, names, rel).Some? && Outside(rest, ChildPrefix(rel)) && ValidName(names[0])
    ensures Follows(dir.children[names[0]], WalkNames(dir, names[1..], rel).value + rest, JoinName(rel, names[0]),
                    AfterHead(dir, names, rest, rel))
  {
    WalkRest(dir, names, rest, rel);
    assert ChildPrefix(JoinName(rel, names[0])) == JoinName(rel, names[0]) + "/" by { JoinedPrefix(rel, names[0]); }
    hide Outside, SortedNames, JoinName, ChildPrefix;
  }

  /** A joined name is never the root's own. */
  lemma JoinedPrefix(rel: string, name: string)
    requires ValidName(name)
    ensures ChildPrefix(JoinName(rel, name)) == JoinName(rel, name) + "/"
  {
    if rel != "." { assert JoinName(rel, name)[|rel|] == '/'; }
  }

  /** The part of a walk after the head entry: the subtree of the first child, then the rest. */
  ghost function AfterHead(dir: Node, names: seq<string>, rest: seq<Entry>, rel: string): seq<Entry>
    requires dir.Directory? && forall n | n in names :: n in dir.children
    requires names != [] && WalkNames(dir, names, rel).Some?
  {
    var child := dir.children[names[0]];
    assert WalkChild(child, JoinName(rel, names[0])).Some?;
    var tail := WalkNames(dir, names[1..], rel).value + rest;
    if child.Directory?
    then WalkNames(child, SortedNames(child.children.Keys), JoinName(rel, names[0])).value + tail
    else tail
  }

  lemma Regroup(first: seq<Entry>, tail: seq<Entry>, rest: seq<Entry>)
    requires first != []
    ensures first + tail + rest == [first[0]] + (first[1..] + (tail + rest))
  {
  }

  lemma {:induction false} WalkSplit(dir: Node, names: seq<string>, rest: seq<Entry>, rel: string)
    requires dir.Directory? && forall n | n in names :: n in dir.children
    requires names != [] && WalkNames(dir, names, rel).Some?
    ensures ValidName(names[0]) && !dir.children[names[0]].Special?
    ensures WalkNames(dir, names, rel).value + rest
            == [EntryOf(dir.children[names[0]], JoinName(rel, names[0]))] + AfterHead(dir, names, rest, rel)
  {
    var first := WalkChild(dir.children[names[0]], JoinName(rel, names[0])).value;
    var tail := WalkNames(dir, names[1..], rel).value;
    Regroup(first, tail, rest);
    assert first[1..] + (tail + rest) == AfterHead(dir, names, rest, rel);
  }

  /** Equal walks start with the same child, of the same kind, and go on equally. */
  lemma {:induction false} SameHead(a: Node, na: seq<string>, ra: seq<Entry>,
                                    b: Node, nb: seq<string>, rb: seq<Entry>, rel: string)
    requires a.Directory? && forall n | n in na :: n in a.children
    requires b.Directory? && forall n | n in nb :: n in b.children
    requires WalkNames(a, na, rel).Some? && WalkNames(b, nb, rel).Some?
    requires WalkNames(a, na, rel).value + ra == WalkNames(b, nb, rel).value + rb
    requires Outside(ra, ChildPrefix(rel)) && Outside(rb, ChildPrefix(rel))
    ensures na == [] <==> nb == []
    ensures na == [] ==> ra == rb
    ensures na != [] ==>
      && na[0] == nb[0] && ValidName(na[0])
      && !a.children[na[0]].Special? && !b.children[na[0]].Special?
      && EntryOf(a.children[na[0]], "") == EntryOf(b.children[na[0]], "")
      && AfterHead(a, na, ra, rel) == AfterHead(b, nb, rb, rel)
  {
    var wa, wb := WalkNames(a, na, rel).value + ra, WalkNames(b, nb, rel).value + rb;
    if na != [] { WalkSplit(a, na, ra, rel); assert ChildPrefix(rel) <= wa[0].path; }
    if nb != [] { WalkSplit(b, nb, rb, rel); assert ChildPrefix(rel) <= wb[0].path; }
    assert na == [] ==> wa == ra;
    assert nb == [] ==> wb == rb;
    if na != [] {
      assert na[0] == wa[0].path[|ChildPrefix(rel)|..] && nb[0] == wb[0].path[|ChildPrefix(rel)|..];
      assert AfterHead(a, na, ra, rel) == wa[1..] && AfterHead(b, nb, rb, rel) == wb[1..];
    }
  }

  /** What follows the first child's subtree lies outside that subtree. */
  lemma {:induction false} WalkRest(dir: Node, names: seq<string>, rest: seq<Entry>, rel: string)
    requires dir.Directory? && forall n | n in names :: n in dir.children
    requires names != [] && WalkNames(dir, names, rel).Some? && Outside(rest, ChildPrefix(rel))
    ensures WalkNames(dir, names[1..], rel).Some?
    ensures Outside(WalkNames(dir, names[1..], rel).value + rest, JoinName(rel, names[0]) + "/")
  {
    var tail := WalkNames(dir, names[1..], rel).value;
    var prefix, sub := ChildPrefix(rel), JoinName(rel, names[0]) + "/";
    if names[1..] != [] {
      WalkHead(dir, names[1..], rel);
      PrefixesApart(prefix, names[0], names[1..][0]);
      assert (tail + rest)[0] == tail[0];
    } else if rest != [] {
      assert (tail + rest)[0] == rest[0];
      LongerPrefix(prefix, names[0] + "/", rest[0].path);
      assert sub == prefix + (names[0] + "/");
    }
  }

  lemma {:induction false} WalkAgrees(a: Node, b: Node, path: string)
    requires Agree(a, b)
    ensures WalkChild(a, path) == WalkChild(b, path)
    decreases a, 1, 0
  {
    if a.Directory? {
      NamesAgree(a, b, SortedNames(a.children.Keys), path);
    }
  }

  lemma {:induction false} NamesAgree(a: Node, b: Node, names: seq<string>, rel: string)
    requires a.Directory? && Agree(a, b) && forall n | n in names :: n in a.children
    ensures WalkNames(a, names, rel) == WalkNames(b, names, rel)
    decreases a, 0, |names|
  {
    if names != [] {
      WalkAgrees(a.children[names[0]], b.children[names[0]], JoinName(rel, names[0]));
      NamesAgree(a, b, names[1..], rel);
    }
  }

  /** Two trees that can be fingerprinted have the same fingerprint exactly when they agree. */
  lemma FingerprintExact(a: Node, b: Node)
    requires FingerprintOf(a).Some? && FingerprintOf(b).Some?
    ensures FingerprintOf(a) == FingerprintOf(b) <==> Agree(a, b)
  {
    if Agree(a, b) { WalkAgrees(a, b, "."); }
    if FingerprintOf(a) == FingerprintOf(b) {
      var fa, fb := FingerprintOf(a).value, FingerprintOf(b).value;
      assert fa[0] == EntryOf(a, ".") && fb[0] == EntryOf(b, ".");
      var na, nb := SortedNames(a.children.Keys), SortedNames(b.children.Keys);
      assert WalkNames(a, na, ".").value == fa[1..] && WalkNames(b, nb, ".").value == fb[1..];
      assert fa[1..] + [] == fb[1..] + [];
      WalkInjective(a, na, [], b, nb, [], ".");
      assert a.children.Keys == b.children.Keys;
    }
  }

  /** The node a relative path leads to. */
  ghost function Lookup(node: Node, path: seq<string>): Option<Node>
    decreases |path|
  {
    if path == [] then Some(node)
    else if node.Directory? && path[0] in node.children then Lookup(node.children[path[0]], path[1..])
    else None
  }

  /** The walk gets through: nothing special on the way, and every name is one component. */
  ghost predicate Readable(node: Node)
  {
    match node
    case Special(_, _) => false
    case Regular(_, _) => true
    case Directory(_, children) => forall n | n in children :: ValidName(n) && Readable(children[n])
  }

  lemma {:induction false} ChildReadable(node: Node, path: string)
    ensures WalkChild(node, path).Some? <==> Readable(node)
    decreases node, 1, 0
  {
    if node.Directory? {
      NamesReadable(node, SortedNames(node.children.Keys), path);
    }
  }

  lemma {:induction false} NamesReadable(dir: Node, names: seq<string>, rel: string)
    requires dir.Directory? && forall n | n in names :: n in dir.children
    ensures WalkNames(dir, names, rel).Some? <==> forall n | n in names :: ValidName(n) && Readable(dir.children[n])
    decreases dir, 0, |names|
  {
    if names != [] {
      ChildReadable(dir.children[names[0]], JoinName(rel, names[0]));
      NamesReadable(dir, names[1..], rel);
      assert names == [names[0]] + names[1..];
    }
  }

  /** Something is in the way of the walk at the end of this path. */
  ghost predicate Obstacle(root: Node, path: seq<string>)
  {
    && Lookup(root, path).Some?
    && (Lookup(root, path).value.Special? || (path != [] && path[|path| - 1] in {"", ".", ".."})
        || (path != [] && '/' in path[|path| - 1]))
  }

  lemma {:induction false} NoObstacle(root: Node, path: seq<string>)
    requires Readable(root)
    ensures !Obstacle(root, path)
    decreases |path|
  {
    if path != [] && root.Directory? && path[0] in root.children {
      NoObstacle(root.children[path[0]], path[1..]);
      assert |path| > 1 ==> path[|path| - 1] == path[1..][|path[1..]| - 1];
    }
  }

  lemma {:induction false} SomeObstacle(root: Node) returns (path: seq<string>)
    requires !Readable(root)
    ensures Obstacle(root, path)
    decreases root
  {
    path := [];
    if root.Directory? {
      var n :| n in root.children && (!ValidName(n) || !Readable(root.children[n]));
      path := [n];
      assert Lookup(root, [n]) == Lookup(root.children[n], []);
      if ValidName(n) {
        var rest := SomeObstacle(root.children[n]);
        path := [n] + rest;
        assert path[1..] == rest && Lookup(root, path) == Lookup(root.children[n], rest);
        assert rest != [] ==> path[|path| - 1] == rest[|rest| - 1];
      }
    }
  }

  /**
   A tree has a fingerprint exactly when it is a directory and at no depth it holds a link, a special file or an entry
   whose name is not one plain component.
   */
  lemma FingerprintExists(root: Node)
    ensures FingerprintOf(root).Some? <==> root.Directory? && forall path :: !Obstacle(root, path)
  {
    if root.Directory? {
      ChildReadable(root, ".");
      if Readable(root) {
        forall path ensures !Obstacle(root, path) { NoObstacle(root, path); }
      } else {
        var path := SomeObstacle(root);
      }
    }
  }

  /**
   `walkFirstLaunchFingerprintDirectory`: list the directory in whatever order the system
   returns it, sort, and append one entry after another to the shared list.
   */
  method WalkDirectory(dir: Node, rel: string, fingerprint: seq<Entry>) returns (out: seq<Entry>, ok: bool)
    requires dir.Directory?
    ensures ok == WalkNames(dir, SortedNames(dir.children.Keys), rel).Some?
    ensures ok ==> out == fingerprint + WalkNames(dir, SortedNames(dir.children.Keys), rel).value
    decreases dir, 1
  {
    var listing := ReadDirectory(dir);
    var names := Sort(Less, listing);
    SortedListing(listing, dir.children.Keys);
    out, ok := WalkSorted(dir, names, rel, fingerprint);
  }

  method WalkSorted(dir: Node, names: seq<string>, rel: string, fingerprint: seq<Entry>)
    returns (out: seq<Entry>, ok: bool)
    requires dir.Directory? && forall n | n in names :: n in dir.children
    ensures ok == WalkNames(dir, names, rel).Some?
    ensures ok ==> out == fingerprint + WalkNames(dir, names, rel).value
    decreases dir, 0
  {
    out := fingerprint;
    ghost var walked: seq<Entry> := [];
    assert names[0..] == names;
    PrependNothing(WalkNames(dir, names, rel));
    for i := 0 to |names|
      invariant out == fingerprint + walked
      invariant WalkNames(dir, names, rel) == Prepend(walked, WalkNames(dir, names[i..], rel))
    {
      ghost var first := WalkStep(dir, names[i..], rel);
      assert names[i..][1..] == names[i + 1..];
      if !ValidName(names[i]) { return out, false; }
      var child := dir.children[names[i]];
      if child.Special? { return out, false; }
      out, ok := AppendEntry(child, JoinName(rel, names[i]), out);
      if !ok { return; }
      Assoc(fingerprint, walked, first.value);
      PrependTwice(walked, first.value, WalkNames(dir, names[i + 1..], rel));
      walked := walked + first.value;
    }
    PrependEnd(walked);
    ok := true;
  }

  ghost function Prepend(done: seq<Entry>, rest: Option<seq<Entry>>): Option<seq<Entry>>
  {
    if rest.None? then None else Some(done + rest.value)
  }

  lemma PrependNothing(rest: Option<seq<Entry>>)
    ensures Prepend([], rest) == rest
  {
    if rest.Some? { assert [] + rest.value == rest.value; }
  }

  lemma PrependEnd(done: seq<Entry>)
    ensures Prepend(done, Some([])) == Some(done)
  {
    assert done + [] == done;
  }

  lemma PrependTwice(a: seq<Entry>, b: seq<Entry>, rest: Option<seq<Entry>>)
    ensures Prepend(a, Prepend(b, rest)) == Prepend(a + b, rest)
  {
    if rest.Some? { Assoc(a, b, rest.value); }
  }

  lemma {:induction false} WalkStep(dir: Node, names: seq<string>, rel: string) returns (first: Option<seq<Entry>>)
    requires dir.Directory? && names != [] && forall n | n in names :: n in dir.children
    ensures first == WalkChild(dir.children[names[0]], JoinName(rel, names[0]))
    ensures WalkNames(dir, names, rel) ==
      if !ValidName(names[0]) || first.None? then None else Prepend(first.value, WalkNames(dir, names[1..], rel))
  {
    first := WalkChild(dir.children[names[0]], JoinName(rel, names[0]));
  }

  method AppendEntry(node: Node, path: string, fingerprint: seq<Entry>) returns (out: seq<Entry>, ok: bool)
    requires !node.Special?
    ensures ok == WalkChild(node, path).Some?
    ensures ok ==> out == fingerprint + WalkChild(node, path).value
    decreases node, 2
  {
    var entry := EntryOf(node, path);
    if node.Directory? {
      out, ok := WalkDirectory(node, path, fingerprint + [entry]);
      if ok { Assoc(fingerprint, [entry], WalkNames(node, SortedNames(node.children.Keys), path).value); }
    } else {
      out, ok := fingerprint + [entry], true;
    }
  }

  /** `Readdir(-1)`: every name once, in an order the caller cannot rely on. */
  method ReadDirectory(dir: Node) returns (listing: seq<string>)
    requires dir.Directory?
    ensures Distinct(listing) && forall n :: n in listing <==> n in dir.children
  {
    listing := [];
    var pending := dir.children.Keys;
    while pending != {}
      invariant pending <= dir.children.Keys && Distinct(listing)
      invariant forall n :: n in listing <==> n in dir.children && n !in pending
      decreases pending
    {
      var n :| n in pending;
      listing := listing + [n];
      pending := pending - {n};
    }
  }

  lemma SortedListing(listing: seq<string>, names: set<string>)
    requires Distinct(listing) && forall n :: n in listing <==> n in names
    ensures Sort(Less, listing) == SortedNames(names)
  {
    LessIsStrictTotal(Elements(listing));
    SortAscending(Less, listing);
    AscendingUnique(Less, Sort(Less, listing), SortedNames(names));
  }
}
