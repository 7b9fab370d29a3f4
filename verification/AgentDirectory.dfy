/** The agent directory as launches change it, one removal or copy at a time. Every method is
    proved to have the effect that ResourceSync gives as a function. */
module AgentDirectory {
  import opened Wrappers
  import opened ResourceTrees
  import opened ResourceSync

  /** A recursive copy onto what is already there: directories merge, anything else is replaced. */
  function Overlaid(dest: Node, src: Node): Node
    decreases src
  {
    if dest.Dir? && src.Dir? then
      Dir(map name | name in dest.entries.Keys + src.entries.Keys ::
        if name !in src.entries then dest.entries[name]
        else if name !in dest.entries then src.entries[name]
        else Overlaid(dest.entries[name], src.entries[name]))
    else src
  }

  /** A directory cannot be copied over anything else, nor anything else over a directory. */
  predicate CanOverlay(dest: Node, src: Node)
    decreases src
  {
    if dest.Dir? && src.Dir? then
      forall name | name in src.entries && name in dest.entries ::
        CanOverlay(dest.entries[name], src.entries[name])
    else !dest.IsDirectory() && !src.IsDirectory()
  }

  /** A copy that does not throw puts every file of the source in its place, and leaves every other
      file of the destination where it is. */
  lemma {:induction false} OverlayMerges(dest: Node, src: Node, path: Path)
    requires CanOverlay(dest, src)
    ensures var there, put, after := NodeAt(dest, path), NodeAt(src, path), NodeAt(Overlaid(dest, src), path);
            && (put.Some? && !put.value.Dir? ==> after == put)
            && (put.None? && there.Some? && !there.value.Dir? ==> after == there)
            && (put.None? && there.None? ==> after.None?)
    decreases |path|
  {
    if dest.Dir? && src.Dir? && path != [] && path[0] in dest.entries && path[0] in src.entries {
      OverlayMerges(dest.entries[path[0]], src.entries[path[0]], path[1..]);
    }
  }

  lemma {:induction false} CopiedOnce(node: Node)
    requires Shippable(node)
    ensures CanOverlay(node, node) && Overlaid(node, node) == node
    decreases node
  {
    if node.Dir? {
      forall name | name in node.entries
        ensures CanOverlay(node.entries[name], node.entries[name])
        ensures Overlaid(node.entries[name], node.entries[name]) == node.entries[name]
      {
        CopiedOnce(node.entries[name]);
      }
      assert Overlaid(node, node).entries == node.entries;
    }
  }

  /** The destination while a copy is under way, once the bundled directories have been removed: what
      has been written is exactly the bundle's, the rest is as it was. */
  ghost predicate UnderWay(bundled: Tree, installed: Tree, now: Tree, copied: set<string>)
  {
    now == Abandoned(bundled, installed, copied)
    && forall name | name in copied :: name in bundled && !Blocked(bundled, installed, name)
  }

  /** The next entry can be copied exactly if it is not blocked, and then it is the bundle's. */
  lemma CopyNext(bundled: Tree, installed: Tree, now: Tree, copied: set<string>, name: string)
    requires ShippableTree(bundled) && UnderWay(bundled, installed, now, copied) && name in bundled
    ensures Blocked(bundled, installed, name) <==> name in now && !CanOverlay(now[name], bundled[name])
    ensures !Blocked(bundled, installed, name) ==>
              (name in now ==> Overlaid(now[name], bundled[name]) == bundled[name])
              && UnderWay(bundled, installed, now[name := bundled[name]], copied + {name})
  {
    assert Shippable(bundled[name]);
    if name in copied {
      CopiedOnce(bundled[name]);
    }
    if !Blocked(bundled, installed, name) {
      assert now[name := bundled[name]] == Abandoned(bundled, installed, copied + {name});
    }
  }

  /** A copy that has written everything. */
  lemma CopyDone(bundled: Tree, installed: Tree, now: Tree)
    requires UnderWay(bundled, installed, now, bundled.Keys)
    ensures CanCopy(bundled, installed) && now == installed + bundled
  {
    assert forall name | name in bundled :: name in bundled.Keys;
  }

  lemma SiblingsGoOnce(bundled: Tree, installed: Tree)
    ensures WithoutSiblings(bundled, WithoutSiblings(bundled, installed)) == WithoutSiblings(bundled, installed)
  {
  }

  lemma NothingCopied(bundled: Tree, installed: Tree, now: Tree)
    requires now == map name | name in installed
      && !(name in bundled && bundled[name].IsDirectory() && installed[name].Exists()) :: installed[name]
    ensures UnderWay(bundled, installed, now, {})
  {
  }

  class AgentDirectory {
    var extensions: Tree
    var manifest: Option<Manifest>

    ghost function View(): Install
      reads this
    {
      Install(extensions, manifest)
    }

    constructor (before: Tree)
      ensures View() == Install(before, None)
    {
      extensions, manifest := before, None;
    }

    method RemoveFileIfStale(bundled: Tree, name: string)
      modifies this`extensions
      ensures extensions == if name in old(extensions) && StaleFile(bundled, name, old(extensions)[name])
                            then old(extensions) - {name} else old(extensions)
    {
      if name in RootFiles(bundled) { return; }
      if name in extensions && extensions[name].Exists() && !extensions[name].IsDirectory() {
        extensions := extensions - {name};
      }
    }

    method RemoveDirIfStale(bundled: Tree, name: string)
      modifies this`extensions
      ensures extensions == if name in old(extensions) && StaleDir(bundled, name, old(extensions)[name])
                            then old(extensions) - {name} else old(extensions)
    {
      if name in RootDirs(bundled) { return; }
      if name in extensions && extensions[name].Exists() && !extensions[name].LockedDir? {
        extensions := extensions - {name};
      }
    }

    method PruneListedFiles(bundled: Tree, listed: set<string>)
      modifies this`extensions
      ensures extensions == map name | name in old(extensions)
        && !(name in listed && StaleFile(bundled, name, old(extensions)[name])) :: old(extensions)[name]
    {
      hide StaleFile;
      var todo := listed;
      while todo != {}
        invariant todo <= listed
        invariant extensions == map name | name in old(extensions)
          && !(name in listed && name !in todo && StaleFile(bundled, name, old(extensions)[name]))
          :: old(extensions)[name]
      {
        var name :| name in todo;
        todo := todo - {name};
        RemoveFileIfStale(bundled, name);
      }
    }

    method PruneListedDirs(bundled: Tree, listed: set<string>)
      modifies this`extensions
      ensures extensions == map name | name in old(extensions)
        && !(name in listed && StaleDir(bundled, name, old(extensions)[name])) :: old(extensions)[name]
    {
      hide StaleDir;
      var todo := listed;
      while todo != {}
        invariant todo <= listed
        invariant extensions == map name | name in old(extensions)
          && !(name in listed && name !in todo && StaleDir(bundled, name, old(extensions)[name]))
          :: old(extensions)[name]
      {
        var name :| name in todo;
        todo := todo - {name};
        RemoveDirIfStale(bundled, name);
      }
    }

    method PruneRemovedBundledExtensions(bundled: Tree)
      modifies this`extensions
      ensures extensions == Pruned(manifest, bundled, old(extensions))
    {
      hide StaleFile, StaleDir;
      if manifest.Some? {
        PruneListedFiles(bundled, manifest.value.rootFiles);
        PruneListedDirs(bundled, manifest.value.dirs);
      }
      RemoveFileIfStale(bundled, KNOWN_STALE);
    }

    method PruneStaleSiblingFiles(bundled: Tree)
      modifies this`extensions
      ensures extensions == WithoutSiblings(bundled, old(extensions))
    {
      var todo := extensions.Keys;
      while todo != {}
        invariant todo <= old(extensions).Keys
        invariant extensions == map name | name in old(extensions)
          && (name in todo || !(old(extensions)[name].IsFile() && StaleSibling(RootFiles(bundled), name)))
          :: old(extensions)[name]
      {
        var name :| name in todo;
        todo := todo - {name};
        if extensions[name].IsFile() && name !in RootFiles(bundled)
           && (WithExtension(name, ".ts", ".js") in RootFiles(bundled)
               || WithExtension(name, ".js", ".ts") in RootFiles(bundled)) {
          extensions := extensions - {name};
        }
      }
    }

    /** Directories of the bundle that exist in the destination are removed, so that nothing of
        an older version stays inside them. */
    method RemoveBundledDirs(bundled: Tree)
      modifies this`extensions
      ensures extensions == map name | name in old(extensions)
        && !(name in bundled && bundled[name].IsDirectory() && old(extensions)[name].Exists()) :: old(extensions)[name]
    {
      var todo := bundled.Keys;
      while todo != {}
        invariant todo <= bundled.Keys
        invariant extensions == map name | name in old(extensions)
          && !(name in bundled && name !in todo && bundled[name].IsDirectory() && old(extensions)[name].Exists())
          :: old(extensions)[name]
      {
        var name :| name in todo;
        todo := todo - {name};
        if bundled[name].IsDirectory() && name in extensions && extensions[name].Exists() {
          extensions := extensions - {name};
        }
      }
    }

    /** A recursive copy of the bundle, entry by entry in some order; false when it throws. `written`
        says what has been copied, also by an earlier attempt. */
    method CopyTree(bundled: Tree, ghost installed: Tree, ghost before: set<string>)
      returns (ok: bool, ghost written: set<string>)
      requires ShippableTree(bundled) && UnderWay(bundled, installed, extensions, before)
      modifies this`extensions
      ensures UnderWay(bundled, installed, extensions, written)
      ensures ok <==> CanCopy(bundled, installed)
      ensures ok ==> extensions == installed + bundled
    {
      hide Overlaid, CanOverlay, ShippableTree, Abandoned, Blocked;
      var todo := bundled.Keys;
      written := before;
      while todo != {}
        invariant todo <= bundled.Keys && bundled.Keys - todo <= written
        invariant UnderWay(bundled, installed, extensions, written)
      {
        var name :| name in todo;
        todo := todo - {name};
        CopyNext(bundled, installed, extensions, written, name);
        if name in extensions && !CanOverlay(extensions[name], bundled[name]) { return false, written; }
        var copy := if name in extensions then Overlaid(extensions[name], bundled[name]) else bundled[name];
        extensions := extensions[name := copy];
        written := written + {name};
      }
      assert written == bundled.Keys;
      CopyDone(bundled, installed, extensions);
      ok := true;
    }

    /** False when both the copy and its fallback throw. */
    method SyncResourceDir(bundled: Tree) returns (ok: bool, ghost copied: set<string>)
      requires ShippableTree(bundled)
      modifies this`extensions
      ensures ok <==> CanCopy(bundled, WithoutSiblings(bundled, old(extensions)))
      ensures extensions == if ok then WithoutSiblings(bundled, old(extensions)) + bundled
                            else Abandoned(bundled, WithoutSiblings(bundled, old(extensions)), copied)
    {
      PruneStaleSiblingFiles(bundled);
      ghost var installed := extensions;
      RemoveBundledDirs(bundled);
      NothingCopied(bundled, installed, extensions);
      hide Abandoned, Blocked, CanCopy, WithoutSiblings, ShippableTree;
      ok, copied := CopyTree(bundled, installed, {});
      if !ok { ok, copied := CopyTree(bundled, installed, copied); }
    }

    /** False when the launch throws. */
    method InitResources(b: Bundle) returns (ok: bool, ghost copied: set<string>)
      requires b.Valid()
      modifies this
      ensures ok <==> OutcomeOf(old(View()), b) != Threw
      ensures View() == Launch(old(View()), b, copied)
    {
      hide Pruned, WithoutSiblings, CanCopy, MissingFiles, FingerprintOf, ManifestOf, ShippableTree, Abandoned;
      SiblingsGoOnce(b.extensions, Pruned(manifest, b.extensions, extensions));
      copied := {};
      PruneRemovedBundledExtensions(b.extensions);
      PruneStaleSiblingFiles(b.extensions);
      var currentHash := FingerprintOf(b);
      if manifest.Some? && manifest.value.packageName == b.packageName && manifest.value.version == b.version {
        if manifest.value.contentHash == currentHash && !MissingFiles(extensions, b.extensions) {
          return true, copied;
        }
      }
      ok, copied := SyncResourceDir(b.extensions);
      if ok { manifest := Some(ManifestOf(b)); }
    }
  }
}
