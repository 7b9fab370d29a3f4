/** src/resource-loader.ts: what one launch does to the installed extensions directory. */
module ResourceSync {
  import opened Wrappers
  import opened ResourceTrees

  /** What a release brings: `rest` stands for every resource outside extensions/. */
  datatype Bundle = Bundle(packageName: string, version: string, extensions: Tree, rest: map<Path, Node>)
  {
    /** Only files and directories, no name that the fingerprint passes over, and the files that
        mark an extension are files. */
    predicate Valid()
    {
      ShippableTree(extensions)
      && forall name, mark | name in extensions && extensions[name].Dir? && mark in extensions[name].entries ::
           mark in MARKS ==> extensions[name].entries[mark].File?
    }
  }

  const MARKS := {"index.js", "index.ts", "extension-manifest.json"}

  datatype Fingerprint = Fingerprint(extensions: map<Path, Node>, rest: map<Path, Node>)

  datatype Manifest = Manifest(packageName: string, version: string, contentHash: Fingerprint,
                               rootFiles: set<string>, dirs: set<string>)

  datatype Install = Install(extensions: Tree, manifest: Option<Manifest>)

  function FingerprintOf(b: Bundle): Fingerprint
  {
    Fingerprint(Listing(Dir(b.extensions)), b.rest)
  }

  function RootFiles(t: Tree): set<string>
  {
    set name | name in t && t[name].IsFile()
  }

  function RootDirs(t: Tree): set<string>
  {
    set name | name in t && t[name].IsDirectory()
  }

  /** The manifest lists only directories that look like extensions. */
  predicate Marked(node: Node)
  {
    node.Dir? && exists mark | mark in MARKS :: mark in node.entries && node.entries[mark].Exists()
  }

  lemma MarkedMeans(node: Node)
    ensures Marked(node) <==>
            node.Dir?
            && exists mark | mark in node.entries && node.entries[mark] != Symlink(false) ::
                 mark == "index.js" || mark == "index.ts" || mark == "extension-manifest.json"
  {
  }

  function ManifestOf(b: Bundle): Manifest
  {
    Manifest(b.packageName, b.version, FingerprintOf(b), RootFiles(b.extensions),
             set name | name in b.extensions && Marked(b.extensions[name]))
  }

  // ----- Pruning

  const KNOWN_STALE := "env-utils.js"

  /** `rmSync` without `recursive` throws on a directory; the error is swallowed. */
  predicate StaleFile(bundled: Tree, name: string, node: Node)
  {
    name !in RootFiles(bundled) && node.Exists() && !node.IsDirectory()
  }

  /** A locked directory cannot be removed; that error is swallowed too. */
  predicate StaleDir(bundled: Tree, name: string, node: Node)
  {
    name !in RootDirs(bundled) && node.Exists() && !node.LockedDir?
  }

  predicate IsPruned(manifest: Option<Manifest>, bundled: Tree, name: string, node: Node)
  {
    (manifest.Some? && name in manifest.value.rootFiles && StaleFile(bundled, name, node))
    || (manifest.Some? && name in manifest.value.dirs && StaleDir(bundled, name, node))
    || (name == KNOWN_STALE && StaleFile(bundled, name, node))
  }

  function Pruned(manifest: Option<Manifest>, bundled: Tree, installed: Tree): Tree
  {
    map name | name in installed && !IsPruned(manifest, bundled, name, installed[name]) :: installed[name]
  }

  /** Exactly what pruning takes: listed files the release no longer has as files, unless a directory
      or a dangling link stands there now; listed directories it no longer has as directories,
      whatever stands there now but a locked directory or a dangling link; and env-utils.js. */
  lemma PruningTakes(manifest: Option<Manifest>, bundled: Tree, installed: Tree, name: string)
    requires name in installed
    ensures var node, shipped := installed[name], if name in bundled then bundled[name] else Special;
            var fileThere := node.File? || node.LockedFile? || node == Special || node == Symlink(true);
            name !in Pruned(manifest, bundled, installed) <==>
            || (manifest.Some? && name in manifest.value.rootFiles && fileThere
                && !shipped.File? && !shipped.LockedFile?)
            || (manifest.Some? && name in manifest.value.dirs && (fileThere || node.Dir?)
                && !shipped.Dir? && !shipped.LockedDir?)
            || (name == "env-utils.js" && fileThere && !shipped.File? && !shipped.LockedFile?)
    ensures name in Pruned(manifest, bundled, installed) ==>
              Pruned(manifest, bundled, installed)[name] == installed[name]
  {
  }

  predicate EndsWith(s: string, suffix: string)
  {
    |suffix| <= |s| && s[|s| - |suffix|..] == suffix
  }

  function WithExtension(name: string, from: string, to: string): string
  {
    if EndsWith(name, from) then name[..|name| - |from|] + to else name
  }

  /** The bundle has the other compiled form of this root file, and not this one. */
  predicate StaleSibling(files: set<string>, name: string)
  {
    name !in files && (WithExtension(name, ".ts", ".js") in files || WithExtension(name, ".js", ".ts") in files)
  }

  lemma StaleSiblingMeaning(files: set<string>, name: string)
    ensures StaleSibling(files, name) <==>
            name !in files && exists stem: string :: (name == stem + ".ts" && stem + ".js" in files)
                                                  || (name == stem + ".js" && stem + ".ts" in files)
  {
    if StaleSibling(files, name) {
      var stem := name[..|name| - 3];
      assert name == stem + name[|name| - 3..];
    }
    forall stem: string | name == stem + ".ts" || name == stem + ".js"
      ensures name[..|name| - 3] == stem
      ensures EndsWith(name, ".ts") <==> name == stem + ".ts"
      ensures EndsWith(name, ".js") <==> name == stem + ".js"
    {
      assert (stem + ".ts")[|stem|..] == ".ts" && (stem + ".js")[|stem|..] == ".js";
      assert ".ts"[1] != ".js"[1];
    }
  }

  function WithoutSiblings(bundled: Tree, installed: Tree): Tree
  {
    map name | name in installed && !(installed[name].IsFile() && StaleSibling(RootFiles(bundled), name))
      :: installed[name]
  }

  // ----- Copying

  /** Whatever exists under the name of a bundled directory is removed before copying, so an entry
      cannot be copied only onto a directory in the place of a root file, or a dangling link in the
      place of a directory. */
  predicate Blocked(bundled: Tree, installed: Tree, name: string)
  {
    name in bundled && name in installed
    && if bundled[name].IsDirectory() then !installed[name].Exists() else installed[name].IsDirectory()
  }

  predicate CanCopy(bundled: Tree, installed: Tree)
  {
    forall name | name in bundled :: !Blocked(bundled, installed, name)
  }

  /** An entry of the bundle that a copy which threw has written before. */
  predicate Lands(bundled: Tree, installed: Tree, copied: set<string>, name: string)
  {
    name in bundled && name in copied && !Blocked(bundled, installed, name)
  }

  /** An entry that was there and has not been removed to make room. */
  predicate Remains(bundled: Tree, installed: Tree, name: string)
  {
    name in installed && !(name in bundled && bundled[name].IsDirectory() && installed[name].Exists())
  }

  /** What a copy that throws leaves: `copied` is whatever it has written by then. */
  function Abandoned(bundled: Tree, installed: Tree, copied: set<string>): Tree
  {
    map name | name in installed.Keys + bundled.Keys
               && (Lands(bundled, installed, copied, name) || Remains(bundled, installed, name))
      :: if Lands(bundled, installed, copied, name) then bundled[name] else installed[name]
  }

  // ----- One launch

  predicate UpToDate(manifest: Option<Manifest>, b: Bundle, installed: Tree)
  {
    manifest.Some? && manifest.value.packageName == b.packageName && manifest.value.version == b.version
    && manifest.value.contentHash == FingerprintOf(b) && !MissingFiles(installed, b.extensions)
  }

  function CleanedUp(s: Install, b: Bundle): Tree
  {
    WithoutSiblings(b.extensions, Pruned(s.manifest, b.extensions, s.extensions))
  }

  datatype Outcome = Skipped | Complete | Threw

  function OutcomeOf(s: Install, b: Bundle): Outcome
  {
    if UpToDate(s.manifest, b, CleanedUp(s, b)) then Skipped
    else if CanCopy(b.extensions, CleanedUp(s, b)) then Complete
    else Threw
  }

  /** Cleaning up comes first in any case; the manifest is written only after a complete copy. */
  function Launch(s: Install, b: Bundle, copied: set<string>): Install
  {
    match OutcomeOf(s, b)
    case Skipped => s.(extensions := CleanedUp(s, b))
    case Complete => Install(CleanedUp(s, b) + b.extensions, Some(ManifestOf(b)))
    case Threw => s.(extensions := Abandoned(b.extensions, CleanedUp(s, b), copied))
  }

  function Get(t: Tree, name: string): Option<Node>
  {
    if name in t then Some(t[name]) else None
  }

  /** What stands in the way of a shipped entry before the launch cleans up. */
  predicate InTheWay(s: Install, shipped: Node, name: string)
    requires name in s.extensions
  {
    if shipped.Dir? then !s.extensions[name].Exists()
    else s.extensions[name].LockedDir?
         || (s.extensions[name].Dir? && !(s.manifest.Some? && name in s.manifest.value.dirs))
  }

  /** A launch throws exactly when it does not skip and a root file's name is taken by a directory
      the manifest does not list, or a directory's name by a dangling link. */
  lemma LaunchThrowsExactlyWhen(s: Install, b: Bundle)
    requires b.Valid()
    ensures OutcomeOf(s, b) == Threw <==>
            !UpToDate(s.manifest, b, CleanedUp(s, b))
            && exists name :: name in b.extensions && name in s.extensions && InTheWay(s, b.extensions[name], name)
  {
    hide UpToDate;
    forall name | name in b.extensions
      ensures Blocked(b.extensions, CleanedUp(s, b), name) <==>
              name in s.extensions && InTheWay(s, b.extensions[name], name)
    {
      assert Shippable(b.extensions[name]);
    }
  }

  /** Cleaning up takes a file that is not the release's in two cases only. */
  predicate TakenFromUser(b: Bundle, name: string, node: Node)
  {
    ((node.File? || node.LockedFile?) && StaleSibling(RootFiles(b.extensions), name))
    || (name == "env-utils.js" && !node.Dir? && !node.LockedDir? && node != Symlink(false))
  }

  /** A name that neither the release nor the manifest has: whether the launch skips, copies or
      throws, cleaning up is all that happens to it. */
  lemma LaunchSparesUserNames(s: Install, b: Bundle, copied: set<string>, name: string)
    requires name !in b.extensions
    requires s.manifest.Some? ==> name !in s.manifest.value.rootFiles && name !in s.manifest.value.dirs
    ensures var had := Get(s.extensions, name);
            Get(Launch(s, b, copied).extensions, name) ==
            if had.Some? && TakenFromUser(b, name, had.value) then None else had
  {
    hide UpToDate, CanCopy;
  }

  /** What stands in the way when a launch throws still does afterwards. */
  lemma ObstaclesStay(s: Install, b: Bundle, copied: set<string>, name: string)
    requires OutcomeOf(s, b) == Threw && Blocked(b.extensions, CleanedUp(s, b), name)
    ensures Get(Launch(s, b, copied).extensions, name) == Get(CleanedUp(s, b), name)
    ensures Launch(s, b, copied).manifest == s.manifest
  {
    hide CleanedUp, UpToDate, CanCopy;
  }

  // ----- Releases that look alike

  /** Nothing that the manifest records distinguishes the two. */
  predicate SameRelease(a: Bundle, b: Bundle)
  {
    a.packageName == b.packageName && a.version == b.version && a.rest == b.rest
    && Visible(Dir(a.extensions)) == Visible(Dir(b.extensions))
  }

  /** What the manifest lists of a release. */
  predicate Listed(b: Bundle, name: string)
  {
    name in b.extensions && (b.extensions[name].File? || Marked(b.extensions[name]))
  }

  /** A root file, or a directory with a marking file, is visible to the fingerprint. */
  lemma ListedIsVisible(b: Bundle, name: string)
    requires b.Valid() && Listed(b, name)
    ensures name in Visible(Dir(b.extensions)).entries
    ensures Visible(Dir(b.extensions)).entries[name].Dir? == b.extensions[name].Dir?
  {
    var node := b.extensions[name];
    if node.Dir? {
      var mark :| mark in MARKS && mark in node.entries && node.entries[mark].Exists();
      assert Shippable(node) && mark != FINGERPRINT_NAME;
      assert node.entries[mark].File? && [] in Files(node.entries[mark], {FINGERPRINT_NAME});
      FileBelow(node, {FINGERPRINT_NAME}, mark, []);
    }
  }

  lemma ListedIsShared(last: Bundle, b: Bundle, name: string)
    requires last.Valid() && b.Valid() && SameRelease(last, b) && Listed(last, name)
    ensures name in b.extensions
    ensures if last.extensions[name].Dir? then b.extensions[name].Dir? else b.extensions[name].File?
  {
    ListedIsVisible(last, name);
    assert Shippable(b.extensions[name]) && Shippable(last.extensions[name]);
  }

  lemma CleaningSparesShared(s: Install, last: Bundle, b: Bundle, name: string)
    requires s.manifest == Some(ManifestOf(last)) && Get(s.extensions, name) == Get(last.extensions, name)
    requires name in last.extensions && (last.extensions[name].File? || last.extensions[name].Dir?)
    requires Listed(last, name) ==>
               name in b.extensions
               && if last.extensions[name].Dir? then b.extensions[name].Dir? else b.extensions[name].File?
    ensures Get(CleanedUp(s, b), name) == Some(last.extensions[name])
  {
    assert s.extensions[name] == last.extensions[name];
  }

  /** Cleaning up for a release that looks the same touches nothing the installed one shipped. */
  lemma CleaningSparesCopied(s: Install, last: Bundle, b: Bundle, name: string)
    requires s.manifest == Some(ManifestOf(last)) && last.Valid() && b.Valid() && SameRelease(last, b)
    requires name in last.extensions && name in s.extensions && s.extensions[name] == last.extensions[name]
    ensures Get(CleanedUp(s, b), name) == Some(last.extensions[name])
  {
    assert Shippable(last.extensions[name]);
    if Listed(last, name) { ListedIsShared(last, b, name); }
    hide SameRelease, ManifestOf, CleanedUp, Marked, Listed, Bundle.Valid;
    CleaningSparesShared(s, last, b, name);
  }

  lemma FingerprintsAgree(last: Bundle, b: Bundle)
    requires last.Valid() && b.Valid()
    ensures FingerprintOf(last) == FingerprintOf(b) <==>
            last.rest == b.rest && Visible(Dir(last.extensions)) == Visible(Dir(b.extensions))
  {
    forall name, c: Bundle | c in {last, b} && name in c.extensions ensures Plain(c.extensions[name]) {
      ShippableIsPlain(c.extensions[name]);
    }
    FingerprintShowsVisible(Dir(last.extensions), Dir(b.extensions));
  }

  /** A launch that skips leaves a release installed that looks like the one launched, and no file
      that the manifest lists is missing. */
  lemma SkippedLooksAlike(s: Install, last: Bundle, b: Bundle, name: string)
    requires s.manifest == Some(ManifestOf(last)) && last.Valid() && b.Valid() && OutcomeOf(s, b) == Skipped
    ensures SameRelease(last, b)
    ensures Listed(last, name) ==> name in s.extensions
  {
    FingerprintsAgree(last, b);
    if Listed(last, name) && name !in s.extensions {
      ListedIsVisible(last, name);
      ListedIsMissing(s, b, name);
    }
    hide Visible, FingerprintOf, MissingFiles, CleanedUp, Marked, Bundle.Valid;
  }

  lemma ListedIsMissing(s: Install, b: Bundle, name: string)
    requires b.Valid() && name in Visible(Dir(b.extensions)).entries && name !in s.extensions
    ensures MissingFiles(CleanedUp(s, b), b.extensions)
  {
    assert name in b.extensions && Shippable(b.extensions[name]);
    var p :| p in Files(b.extensions[name], {FINGERPRINT_NAME});
    NoneSkipped(b.extensions[name], p);
    FileBelow(Dir(b.extensions), {}, name, p);
    assert ([name] + p)[0] == name && name !in CleanedUp(s, b);
    assert [name] + p !in Files(Dir(CleanedUp(s, b)), {});
    hide CleanedUp;
  }

  /** A launch that does not throw leaves no file of the release missing, at whatever depth and
      whatever had happened to the installed ones; other contents may stand under its path only when
      the copy was skipped. */
  lemma NoFileIsMissing(s: Install, b: Bundle, copied: set<string>, p: Path)
    requires OutcomeOf(s, b) != Threw && p in Files(Dir(b.extensions), {})
    ensures var after := Launch(s, b, copied).extensions;
            && p in Files(Dir(after), {})
            && (OutcomeOf(s, b) == Complete ==> At(Dir(after), {}, p) == At(Dir(b.extensions), {}, p))
  {
    hide CleanedUp, CanCopy, FingerprintOf;
    if OutcomeOf(s, b) == Complete { assert (CleanedUp(s, b) + b.extensions)[p[0]] == b.extensions[p[0]]; }
  }

  /** Exactly when the copy is skipped, whatever had happened to the installed files. */
  lemma SkipsExactlyWhen(s: Install, last: Bundle, b: Bundle)
    requires s.manifest == Some(ManifestOf(last)) && last.Valid() && b.Valid()
    ensures OutcomeOf(s, b) == Skipped <==>
            SameRelease(last, b) && Files(Dir(b.extensions), {}) <= Files(Dir(CleanedUp(s, b)), {})
  {
    hide Visible, FingerprintOf, CleanedUp, CanCopy, Bundle.Valid, MissingFiles, Marked;
    FingerprintsAgree(last, b);
    NotMissingIsSubset(CleanedUp(s, b), b.extensions);
  }

  lemma NotMissingIsSubset(installed: Tree, bundled: Tree)
    ensures !MissingFiles(installed, bundled) <==> Files(Dir(bundled), {}) <= Files(Dir(installed), {})
  {
  }

  /** When everything the manifest records is in place, a launch skips the copy exactly if the
      release has the name, the version, the other resources and the visible tree of the one that
      was copied last. */
  lemma SkipsExactlyWhenUnchanged(s: Install, last: Bundle, b: Bundle)
    requires s.manifest == Some(ManifestOf(last)) && last.Valid() && b.Valid()
    requires forall name | name in last.extensions :: Get(s.extensions, name) == Some(last.extensions[name])
    ensures OutcomeOf(s, b) == Skipped <==> SameRelease(last, b)
  {
    SkipsExactlyWhen(s, last, b);
    if SameRelease(last, b) {
      forall name | name in last.extensions
        ensures name in CleanedUp(s, b) && CleanedUp(s, b)[name] == last.extensions[name]
      {
        CleaningSparesCopied(s, last, b, name);
      }
      NothingMissing(CleanedUp(s, b), last.extensions, b.extensions);
    }
    hide Visible, OutcomeOf, CleanedUp;
  }
}
