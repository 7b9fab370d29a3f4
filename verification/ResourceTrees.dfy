/** Directory trees as src/resource-loader.ts sees them: which trees are exact copies of one
    another, and what the content fingerprint of a tree can tell apart. */
module ResourceTrees {
  import opened Wrappers

  type Bytes = seq<bv8>
  type Path = seq<string>
  type Tree = map<string, Node>

  /** What `lstat` reports for an entry, with its contents. A symbolic link is never followed
      except to ask whether its target exists; reading a locked entry throws. */
  datatype Node =
    | File(bytes: Bytes)
    | Dir(entries: Tree)
    | Symlink(live: bool)
    | Special
    | LockedFile
    | LockedDir
  {
    predicate IsFile() { File? || LockedFile? }
    predicate IsDirectory() { Dir? || LockedDir? }
    /** `existsSync`, which follows links */
    predicate Exists() { Symlink? ==> live }
  }

  /** Regular readable files and directories only, at every level. */
  predicate Plain(node: Node)
  {
    match node
    case File(_) => true
    case Dir(entries) => forall name | name in entries :: Plain(entries[name])
    case _ => false
  }

  /** What stands at a relative path. */
  function NodeAt(node: Node, path: Path): Option<Node>
    decreases |path|
  {
    if path == [] then Some(node)
    else if node.Dir? && path[0] in node.entries then NodeAt(node.entries[path[0]], path[1..])
    else None
  }

  predicate Readable(node: Node, path: Path)
  {
    NodeAt(node, path).Some? ==> NodeAt(node, path).value.File? || NodeAt(node, path).value.Dir?
  }

  /** Whatever stands anywhere below. */
  lemma PlainAnywhere(node: Node)
    ensures Plain(node) <==> forall path :: Readable(node, path)
  {
    if Plain(node) {
      forall path ensures Readable(node, path) {
        if NodeAt(node, path).Some? { PlainAt(node, path); }
      }
    }
    if forall path :: Readable(node, path) { PlainByPaths(node); }
  }

  lemma {:induction false} PlainAt(node: Node, path: Path)
    requires Plain(node) && NodeAt(node, path).Some?
    ensures NodeAt(node, path).value.File? || NodeAt(node, path).value.Dir?
    decreases |path|
  {
    if path != [] { PlainAt(node.entries[path[0]], path[1..]); }
  }

  lemma {:induction false} PlainByPaths(node: Node)
    requires forall path :: Readable(node, path)
    ensures Plain(node)
    decreases node
  {
    assert Readable(node, []);
    if node.Dir? {
      forall name | name in node.entries ensures Plain(node.entries[name]) {
        forall path ensures Readable(node.entries[name], path) {
          assert ([name] + path)[1..] == path;
          assert Readable(node, [name] + path);
        }
        PlainByPaths(node.entries[name]);
      }
    }
  }

  lemma SubsetOfSameSize<T>(a: set<T>, b: set<T>)
    requires a <= b && |a| == |b|
    ensures a == b
  {
    assert b == a + (b - a) && |b| == |a| + |b - a|;
  }

  // ----- Exact copies

  /** Counting the entries and looking each candidate up in the reference is enough: the answer
      is yes exactly when the trees are equal and hold nothing but files and directories. */
  method IsExactDirectoryCopy(candidate: Node, reference: Node) returns (same: bool)
    requires !candidate.Symlink? && !reference.Symlink?
    ensures same <==> candidate == reference && candidate.Dir? && Plain(candidate)
    decreases candidate
  {
    if !candidate.Dir? || !reference.Dir? { return false; }
    if |candidate.entries| != |reference.entries| { return false; }
    var todo := candidate.entries.Keys;
    while todo != {}
      invariant todo <= candidate.entries.Keys
      invariant forall name | name in candidate.entries && name !in todo ::
          name in reference.entries && candidate.entries[name] == reference.entries[name]
          && Plain(candidate.entries[name])
    {
      var name :| name in todo;
      todo := todo - {name};
      if name !in reference.entries { return false; }
      var c, r := candidate.entries[name], reference.entries[name];
      if c.Symlink? || r.Symlink? { return false; }
      if c.IsDirectory() != r.IsDirectory() { return false; }
      if c.IsDirectory() {
        var equal := IsExactDirectoryCopy(c, r);
        if !equal { return false; }
      } else {
        if !c.IsFile() || !r.IsFile() { return false; }
        if c.LockedFile? || r.LockedFile? || c.bytes != r.bytes { return false; }
      }
    }
    assert |candidate.entries.Keys| == |reference.entries.Keys|;
    SubsetOfSameSize(candidate.entries.Keys, reference.entries.Keys);
    assert candidate.entries == reference.entries;
    return true;
  }

  /** The shared skills directory loses exactly the untouched copies of bundled skills. */
  method CleanupBundledSkills(bundled: Tree, ecosystem: Tree) returns (left: Tree)
    ensures forall name :: name in left <==>
              name in ecosystem
              && !(name in bundled && ecosystem[name] == bundled[name] && bundled[name].Dir? && Plain(bundled[name]))
    ensures forall name | name in left :: left[name] == ecosystem[name]
  {
    left := ecosystem;
    var todo := bundled.Keys;
    while todo != {}
      invariant todo <= bundled.Keys
      invariant forall name | name in left :: name in ecosystem && left[name] == ecosystem[name]
      invariant forall name | name in ecosystem ::
        name in left <==>
          name in todo
          || !(name in bundled && ecosystem[name] == bundled[name] && bundled[name].Dir? && Plain(bundled[name]))
    {
      var name :| name in todo;
      todo := todo - {name};
      if bundled[name].IsDirectory() && name in left && left[name].Exists() && !left[name].Symlink? {
        var exact := IsExactDirectoryCopy(left[name], bundled[name]);
        if exact { left := left - {name}; }
      }
    }
  }

  // ----- Files by relative path, and the fingerprint

  const FINGERPRINT_NAME := ".managed-resources-content-hash"

  /** The relative paths of everything below that is not a directory, passing over the names
      in `skip` at every level. */
  function Files(node: Node, skip: set<string>): (r: set<Path>)
    ensures !node.Dir? ==> r == {[]}
    ensures node.Dir? ==> forall p :: p in r <==> p != [] && p[0] in node.entries && p[0] !in skip
                                                  && p[1..] in Files(node.entries[p[0]], skip)
  {
    if !node.Dir? then {[]}
    else
      var r := set name, p | name in node.entries && name !in skip && p in Files(node.entries[name], skip)
                           :: [name] + p;
      assert forall p: Path | p != [] :: p == [p[0]] + p[1..];
      assert forall name: string, p: Path :: ([name] + p)[0] == name && ([name] + p)[1..] == p;
      r
  }

  function At(node: Node, skip: set<string>, path: Path): Node
    requires path in Files(node, skip)
    decreases node
  {
    if !node.Dir? then node else At(node.entries[path[0]], skip, path[1..])
  }

  /** What the fingerprint hashes: every path with its contents. The hash is taken to be
      injective, so this listing stands for the fingerprint itself. */
  function Listing(node: Node): map<Path, Node>
  {
    map p | p in Files(node, {FINGERPRINT_NAME}) :: At(node, {FINGERPRINT_NAME}, p)
  }

  /** The files are what stands anywhere below and is no directory, under no name passed over. */
  lemma {:induction false} FilesStandBelow(node: Node, skip: set<string>, path: Path)
    ensures path in Files(node, skip) <==>
            NodeAt(node, path).Some? && !NodeAt(node, path).value.Dir? && forall name | name in path :: name !in skip
    ensures path in Files(node, skip) ==> At(node, skip, path) == NodeAt(node, path).value
    decreases |path|
  {
    if node.Dir? && path != [] && path[0] in node.entries {
      FilesStandBelow(node.entries[path[0]], skip, path[1..]);
      assert path == [path[0]] + path[1..];
    }
  }

  /** The fingerprint shows every file, but for the record of the fingerprint itself. */
  lemma FingerprintLists(node: Node, path: Path)
    ensures path in Listing(node) <==>
            NodeAt(node, path).Some? && !NodeAt(node, path).value.Dir? && ".managed-resources-content-hash" !in path
    ensures path in Listing(node) ==> Listing(node)[path] == NodeAt(node, path).value
  {
    FilesStandBelow(node, {FINGERPRINT_NAME}, path);
  }

  /** What a release may ship: files and directories, none with the name the fingerprint passes
      over. */
  predicate Shippable(node: Node)
  {
    node.File?
    || (node.Dir? && forall name | name in node.entries :: name != FINGERPRINT_NAME && Shippable(node.entries[name]))
  }

  predicate ShippableTree(tree: Tree)
  {
    forall name | name in tree :: name != FINGERPRINT_NAME && Shippable(tree[name])
  }

  /** The node without the names the fingerprint passes over and without directories that hold
      no file. */
  function Visible(node: Node): (r: Node)
    ensures r.Dir? <==> node.Dir?
  {
    if !node.Dir? then node
    else
      Dir(map name | name in node.entries && name != FINGERPRINT_NAME
                     && Files(node.entries[name], {FINGERPRINT_NAME}) != {}
        :: Visible(node.entries[name]))
  }

  /** Nothing is hidden from the fingerprint, which is how packages are shipped. */
  predicate Packaged(tree: Tree) { Visible(Dir(tree)) == Dir(tree) }

  lemma FileBelow(node: Node, skip: set<string>, name: string, p: Path)
    requires node.Dir? && name in node.entries && name !in skip && p in Files(node.entries[name], skip)
    ensures [name] + p in Files(node, skip)
    ensures At(node, skip, [name] + p) == At(node.entries[name], skip, p)
  {
    assert ([name] + p)[1..] == p;
  }

  lemma FileIsBelow(node: Node, skip: set<string>, name: string, p: Path)
    requires node.Dir? && [name] + p in Files(node, skip)
    ensures name in node.entries && p in Files(node.entries[name], skip)
    ensures At(node, skip, [name] + p) == At(node.entries[name], skip, p)
  {
    assert ([name] + p)[1..] == p;
  }

  lemma ListingCarriesOver(a: Node, b: Node, name: string, p: Path)
    requires a.Dir? && b.Dir? && Listing(a) == Listing(b) && name != FINGERPRINT_NAME
    requires name in a.entries && p in Files(a.entries[name], {FINGERPRINT_NAME})
    ensures name in b.entries && p in Files(b.entries[name], {FINGERPRINT_NAME})
    ensures At(a.entries[name], {FINGERPRINT_NAME}, p) == At(b.entries[name], {FINGERPRINT_NAME}, p)
  {
    var skip := {FINGERPRINT_NAME};
    FileBelow(a, skip, name, p);
    assert [name] + p in Listing(a).Keys && Listing(a)[[name] + p] == At(a, skip, [name] + p);
    assert [name] + p in Listing(b).Keys && Listing(b)[[name] + p] == At(b, skip, [name] + p);
    FileIsBelow(b, skip, name, p);
  }

  lemma ListingBelow(a: Node, b: Node, name: string)
    requires a.Dir? && b.Dir? && Listing(a) == Listing(b)
    requires name in a.entries && name != FINGERPRINT_NAME && Files(a.entries[name], {FINGERPRINT_NAME}) != {}
    ensures name in b.entries && Listing(a.entries[name]) == Listing(b.entries[name])
  {
    var skip := {FINGERPRINT_NAME};
    var q :| q in Files(a.entries[name], skip);
    ListingCarriesOver(a, b, name, q);
    forall p | p in Files(a.entries[name], skip)
      ensures p in Files(b.entries[name], skip) && At(a.entries[name], skip, p) == At(b.entries[name], skip, p)
    {
      ListingCarriesOver(a, b, name, p);
    }
    forall p | p in Files(b.entries[name], skip) ensures p in Files(a.entries[name], skip) {
      ListingCarriesOver(b, a, name, p);
    }
    hide Files, At;
  }

  /** A file and a directory with a file in it are listed differently. */
  lemma SameKind(a: Node, b: Node)
    requires Listing(a) == Listing(b) && Files(a, {FINGERPRINT_NAME}) != {}
    ensures a.Dir? == b.Dir?
  {
    var skip := {FINGERPRINT_NAME};
    assert Listing(a).Keys == Files(a, skip) && Listing(b).Keys == Files(b, skip);
    assert [] in Files(a, skip) <==> !a.Dir?;
    assert [] in Files(b, skip) <==> !b.Dir?;
  }

  lemma {:induction false} ListingShows(a: Node, b: Node)
    requires a.Dir? == b.Dir? && Listing(a) == Listing(b)
    ensures Visible(a) == Visible(b)
    decreases a
  {
    if !a.Dir? {
      assert Listing(a)[[]] == Listing(b)[[]];
    } else {
      forall name | name in Visible(a).entries
        ensures name in Visible(b).entries && Visible(a.entries[name]) == Visible(b.entries[name])
      {
        ListingBelow(a, b, name);
        SameKind(a.entries[name], b.entries[name]);
        SameFiles(a.entries[name], b.entries[name]);
        ListingShows(a.entries[name], b.entries[name]);
      }
      forall name | name in Visible(b).entries ensures name in Visible(a).entries {
        ListingBelow(b, a, name);
        SameFiles(b.entries[name], a.entries[name]);
      }
      assert Visible(a).entries == Visible(b).entries;
    }
  }

  lemma SameFiles(a: Node, b: Node)
    requires Listing(a) == Listing(b)
    ensures Files(a, {FINGERPRINT_NAME}) == Files(b, {FINGERPRINT_NAME})
  {
    assert Listing(a).Keys == Files(a, {FINGERPRINT_NAME}) && Listing(b).Keys == Files(b, {FINGERPRINT_NAME});
  }

  /** Leaving the invisible part out changes no file. */
  lemma {:induction false} VisibleHasTheFiles(node: Node, p: Path)
    ensures p in Files(Visible(node), {FINGERPRINT_NAME}) <==> p in Files(node, {FINGERPRINT_NAME})
    ensures p in Files(node, {FINGERPRINT_NAME}) && p in Files(Visible(node), {FINGERPRINT_NAME}) ==>
              At(Visible(node), {FINGERPRINT_NAME}, p) == At(node, {FINGERPRINT_NAME}, p)
    decreases node
  {
    if node.Dir? && p != [] && p[0] in node.entries { VisibleHasTheFiles(node.entries[p[0]], p[1..]); }
  }

  lemma VisibleIsListedAlike(node: Node)
    ensures Listing(Visible(node)) == Listing(node)
  {
    forall p: Path
      ensures p in Files(Visible(node), {FINGERPRINT_NAME}) <==> p in Files(node, {FINGERPRINT_NAME})
      ensures p in Files(node, {FINGERPRINT_NAME}) && p in Files(Visible(node), {FINGERPRINT_NAME}) ==>
                At(Visible(node), {FINGERPRINT_NAME}, p) == At(node, {FINGERPRINT_NAME}, p)
    {
      VisibleHasTheFiles(node, p);
    }
    hide Files, At, Visible;
    assert Listing(Visible(node)).Keys == Listing(node).Keys;
  }

  /** Exactly what the fingerprint tells apart: two directories have the same one if and only if
      they agree once empty directories and the skipped name are left out. */
  lemma FingerprintShowsVisible(a: Node, b: Node)
    requires a.Dir? && b.Dir? && Plain(a) && Plain(b)
    ensures Listing(a) == Listing(b) <==> Visible(a) == Visible(b)
  {
    if Listing(a) == Listing(b) { ListingShows(a, b); }
    VisibleIsListedAlike(a);
    VisibleIsListedAlike(b);
  }

  lemma {:induction false} ShippableIsPlain(node: Node)
    requires Shippable(node)
    ensures Plain(node)
    decreases node
  {
    if node.Dir? {
      forall name | name in node.entries ensures Plain(node.entries[name]) { ShippableIsPlain(node.entries[name]); }
    }
  }

  /** `hasMissingBundledResourceFiles` */
  predicate MissingFiles(installed: Tree, bundled: Tree)
  {
    exists p :: p in Files(Dir(bundled), {}) && p !in Files(Dir(installed), {})
  }

  lemma {:induction false} NoneSkipped(node: Node, p: Path)
    requires Shippable(node) || (node.Dir? && ShippableTree(node.entries))
    ensures p in Files(node, {}) <==> p in Files(node, {FINGERPRINT_NAME})
    decreases node
  {
    if node.Dir? && p != [] && p[0] in node.entries { NoneSkipped(node.entries[p[0]], p[1..]); }
  }

  /** An installed tree with every entry of one release misses no file of another that looks the
      same to the fingerprint. */
  lemma NothingMissing(installed: Tree, copied: Tree, bundled: Tree)
    requires forall name | name in copied :: name in installed && installed[name] == copied[name]
    requires ShippableTree(copied) && ShippableTree(bundled) && Visible(Dir(copied)) == Visible(Dir(bundled))
    ensures !MissingFiles(installed, bundled)
  {
    forall p | p in Files(Dir(bundled), {}) ensures p in Files(Dir(installed), {}) {
      NoneSkipped(Dir(bundled), p);
      NoneSkipped(Dir(copied), p);
      VisibleHasTheFiles(Dir(bundled), p);
      VisibleHasTheFiles(Dir(copied), p);
      assert p in Files(Dir(copied), {});
    }
  }
}
