/** Short histories in which a launch leaves something behind, takes something, or throws. */
module ResourceExamples {
  import opened Wrappers
  import opened ResourceTrees
  import opened ResourceSync
  import opened ResourceHistory

  function Release(version: string, extensions: Tree): Bundle
  {
    Bundle("gsd", version, extensions, map[])
  }

  /** An extensions directory with one directory in it, which holds one file. */
  function OneFolder(name: string, fileName: string, code: Bytes): Tree
  {
    map[name := Dir(map[fileName := File(code)])]
  }

  predicate Differ(a: string, b: string)
  {
    a != [] && b != [] && a[0] != b[0]
  }

  lemma Names()
    ensures "notes.md" !in MARKS && "index.js" in MARKS
    ensures FINGERPRINT_NAME !in {"tool", "index.js", "notes.md"} && "tool" != KNOWN_STALE
  {
    assert Differ("notes.md", "index.js") && Differ("notes.md", "index.ts")
           && Differ("notes.md", "extension-manifest.json") && Differ("tool", FINGERPRINT_NAME)
           && Differ("notes.md", FINGERPRINT_NAME) && Differ("index.js", FINGERPRINT_NAME)
           && Differ("tool", KNOWN_STALE);
  }

  lemma FolderIsValid(version: string, name: string, fileName: string, code: Bytes)
    requires name != FINGERPRINT_NAME && fileName != FINGERPRINT_NAME
    ensures Release(version, OneFolder(name, fileName, code)).Valid()
    ensures Marked(OneFolder(name, fileName, code)[name]) <==> fileName in MARKS
  {
    assert Shippable(File(code));
    assert Shippable(Dir(map[fileName := File(code)]));
  }

  lemma FolderIsVisible(fileName: string, code: Bytes)
    requires fileName != FINGERPRINT_NAME
    ensures Visible(Dir(map[fileName := File(code)])) == Dir(map[fileName := File(code)])
    ensures [fileName] in Files(Dir(map[fileName := File(code)]), {FINGERPRINT_NAME})
  {
    var folder := Dir(map[fileName := File(code)]);
    assert Files(File(code), {FINGERPRINT_NAME}) == {[]} && Visible(File(code)) == File(code);
    FileBelow(folder, {FINGERPRINT_NAME}, fileName, []);
    assert [fileName] + [] == [fileName];
    assert Visible(folder).entries == folder.entries;
  }

  lemma FolderIsPackaged(name: string, fileName: string, code: Bytes)
    requires name != FINGERPRINT_NAME && fileName != FINGERPRINT_NAME
    ensures Packaged(OneFolder(name, fileName, code))
  {
    FolderIsVisible(fileName, code);
    var tree := OneFolder(name, fileName, code);
    assert Visible(Dir(tree)).entries == tree by { hide Files; }
  }

  // ----- Launches one after the other

  predicate OnlyDirectories(t: Tree)
  {
    forall name | name in t :: t[name].Dir?
  }

  /** A history without a throw whose last launch leaves only directories. */
  ghost predicate Quiet(history: seq<Event>)
  {
    var past := History(map[], history);
    Undisturbed(history) && past.strays == {} && OnlyDirectories(past.install.extensions)
  }

  function Launching(b: Bundle): Event { Launched(b, {}) }

  lemma DirectoriesCopy(s: Install, b: Bundle)
    requires OnlyDirectories(s.extensions) && OnlyDirectories(b.extensions)
    ensures OutcomeOf(s, b) != Threw && OnlyDirectories(Launch(s, b, {}).extensions)
  {
    hide UpToDate;
  }

  lemma QuietLaunch(history: seq<Event>, b: Bundle)
    requires Quiet(history) && b.Valid() && OnlyDirectories(b.extensions)
    ensures OutcomeOf(History(map[], history).install, b) != Threw
    ensures Quiet(history + [Launching(b)]) && Bundles(history + [Launching(b)]) == Bundles(history) + [b]
  {
    hide History, Undisturbed, Bundles, Launch, OutcomeOf, Bundle.Valid;
    OneMore(map[], history, Launching(b));
    DirectoriesCopy(History(map[], history).install, b);
  }

  // ----- A directory that stays

  function Extension(code: Bytes): Tree { OneFolder("tool", "index.js", code) }
  function Remnant(code: Bytes): Tree { OneFolder("tool", "notes.md", code) }
  function First(code: Bytes): Bundle { Release("1.0.0", Extension(code)) }
  function Second(code: Bytes): Bundle { Release("1.1.0", Remnant(code)) }
  const THIRD := Release("1.2.0", map[])

  lemma BothAreValid(code: Bytes)
    ensures First(code).Valid() && Second(code).Valid() && THIRD.Valid()
    ensures OnlyDirectories(Extension(code)) && OnlyDirectories(Remnant(code)) && OnlyDirectories(THIRD.extensions)
    ensures Marked(Extension(code)["tool"]) && !Marked(Remnant(code)["tool"]) && Remnant(code)["tool"].Dir?
  {
    Names();
    FolderIsValid("1.0.0", "tool", "index.js", code);
    FolderIsValid("1.1.0", "tool", "notes.md", code);
  }

  lemma AllArePackaged(code: Bytes)
    ensures AllPackaged([First(code), Second(code)] + [THIRD])
  {
    Names();
    FolderIsPackaged("tool", "index.js", code);
    FolderIsPackaged("tool", "notes.md", code);
    assert Packaged(THIRD.extensions);
    hide Packaged;
  }

  function TwoLaunches(code: Bytes): seq<Event> { [] + [Launching(First(code))] + [Launching(Second(code))] }

  lemma TwoLaunchesAreQuiet(code: Bytes)
    ensures Quiet(TwoLaunches(code)) && Bundles(TwoLaunches(code)) == [First(code), Second(code)]
    ensures OutcomeOf(History(map[], TwoLaunches(code)).install, THIRD) != Threw
    ensures Quiet(TwoLaunches(code) + [Launching(THIRD)])
  {
    assert Quiet([]) && Bundles([]) == [];
    BothAreValid(code);
    hide Quiet, Bundles, Bundle.Valid, Remnant, Extension, OutcomeOf;
    QuietLaunch([], First(code));
    QuietLaunch([] + [Launching(First(code))], Second(code));
    QuietLaunch(TwoLaunches(code), THIRD);
    assert [] + [First(code)] + [Second(code)] == [First(code), Second(code)];
  }

  lemma ToolWasShipped(code: Bytes)
    ensures LastShipped([First(code), Second(code)], "tool") == Some(Remnant(code)["tool"])
  {
    OneMoreBundle([First(code)], Second(code), "tool");
    assert [First(code)] + [Second(code)] == [First(code), Second(code)];
  }

  /** A directory that was once a listed extension can outlive every release that shipped it: the
      release in between kept the directory but none of the files that mark it. */
  lemma OnceListedCanStay(code: Bytes)
    ensures var now := TwoLaunches(code) + [Launching(THIRD)];
            Marked(Extension(code)["tool"]) && Undisturbed(now)
            && OutcomeOf(History(map[], TwoLaunches(code)).install, THIRD) != Threw
            && Get(History(map[], now).install.extensions, "tool") == Some(Remnant(code)["tool"])
  {
    BothAreValid(code);
    AllArePackaged(code);
    TwoLaunchesAreQuiet(code);
    ToolWasShipped(code);
    hide AllPackaged, History, Undisturbed, Marked, Bundle.Valid, TwoLaunches, First, Second, Remnant, LastShipped,
         Bundles, OutcomeOf;
    AfterEveryPackagedLaunch(map[], TwoLaunches(code), THIRD, {}, "tool");
  }

  // ----- A launch that throws

  function FileInstead(code: Bytes): Bundle { Release("1.2.0", map["tool" := File(code)]) }

  lemma FileIsValid(code: Bytes)
    ensures FileInstead(code).Valid()
  {
    Names();
    assert Shippable(File(code));
  }

  lemma FirstLaunch(b: Bundle)
    requires b.Valid()
    ensures Undisturbed([Launching(b)])
    ensures History(map[], [Launching(b)]) == Past(Install(b.extensions, Some(ManifestOf(b))), [b], {}, false)
  {
    OneMore(map[], [], Launching(b));
    assert [] + [Launching(b)] == [Launching(b)];
    assert CleanedUp(Install(map[], None), b) == map[] && map[] + b.extensions == b.extensions;
    hide CleanedUp, ManifestOf, Bundle.Valid;
    assert [] + [b] == [b];
  }

  lemma RemnantIsInTheWay(code: Bytes)
    ensures var s := Install(Remnant(code), Some(ManifestOf(Second(code))));
            && "tool" in s.extensions && InTheWay(s, FileInstead(code).extensions["tool"], "tool")
            && !UpToDate(s.manifest, FileInstead(code), CleanedUp(s, FileInstead(code)))
  {
    BothAreValid(code);
    assert Differ("1.2.0"[2..], "1.1.0"[2..]);
    hide Marked, Visible, FingerprintOf, MissingFiles, CleanedUp;
  }

  /** An unlisted directory of one release makes the launch of a later one throw that ships a file
      of its name. */
  lemma RemnantMakesLaunchThrow(code: Bytes)
    ensures var history := [Launching(Second(code))];
            Undisturbed(history + [Launching(FileInstead(code))])
            && OutcomeOf(History(map[], history).install, FileInstead(code)) == Threw
  {
    BothAreValid(code);
    FileIsValid(code);
    RemnantIsInTheWay(code);
    FirstLaunch(Second(code));
    hide History, Undisturbed, OutcomeOf, Bundle.Valid, Marked, UpToDate, InTheWay, ManifestOf, CleanedUp;
    LaunchThrowsExactlyWhen(Install(Remnant(code), Some(ManifestOf(Second(code)))), FileInstead(code));
    OneMore(map[], [Launching(Second(code))], Launching(FileInstead(code)));
  }

  // ----- A file that is taken

  /** A user's `env-utils.js` is gone after the first launch. */
  lemma EnvUtilsIsTaken(code: Bytes)
    ensures var past := History(map[KNOWN_STALE := File(code)], [Launching(THIRD)]);
            Undisturbed([Launching(THIRD)]) && past.copies == [THIRD] && KNOWN_STALE !in past.install.extensions
  {
    var before := map[KNOWN_STALE := File(code)];
    OneMore(before, [], Launching(THIRD));
    assert [] + [Launching(THIRD)] == [Launching(THIRD)] && [] + [THIRD] == [THIRD];
    LaunchSparesUserNames(Install(before, None), THIRD, {}, KNOWN_STALE);
    assert OutcomeOf(Install(before, None), THIRD) == Complete by { hide CleanedUp; }
    hide Launch, OutcomeOf;
  }

  // ----- A directory that is not installed

  lemma EmptyDirectoryIsInvisible(tree: Tree, name: string)
    requires name !in tree
    ensures Visible(Dir(tree[name := Dir(map[])])) == Visible(Dir(tree))
  {
    assert Files(Dir(map[]), {FINGERPRINT_NAME}) == {};
    assert Visible(Dir(tree[name := Dir(map[])])).entries == Visible(Dir(tree)).entries;
  }

  /** An empty directory added to any release without a new version is not installed. */
  lemma EmptyDirectoryIsNotInstalled(b: Bundle, name: string)
    requires b.Valid() && name !in b.extensions && name != FINGERPRINT_NAME
    ensures var changed := b.(extensions := b.extensions[name := Dir(map[])]);
            var past := History(map[], [Launching(b)] + [Launching(changed)]);
            Undisturbed([Launching(b)] + [Launching(changed)]) && !past.dirty && name !in past.install.extensions
  {
    var changed := b.(extensions := b.extensions[name := Dir(map[])]);
    var s := Install(b.extensions, Some(ManifestOf(b)));
    assert changed.Valid() by { assert Shippable(Dir(map[])); }
    EmptyDirectoryIsInvisible(b.extensions, name);
    FirstLaunch(b);
    OneMore(map[], [Launching(b)], Launching(changed));
    hide History, Undisturbed, Bundle.Valid, ManifestOf, Visible, MissingFiles, FingerprintOf, OutcomeOf;
    SkipsExactlyWhenUnchanged(s, b, changed);
    assert name !in CleanedUp(s, changed);
  }

  // ----- A launch that throws, and the older release again

  /** The newer release changes the extension and adds a file whose name the user has taken. */
  function Newer(code: Bytes, menu: Bytes): Bundle
  {
    Release("2.0.0", Extension(code) + map["menu" := File(menu)])
  }

  lemma NewerIsValid(code: Bytes, menu: Bytes)
    ensures Newer(code, menu).Valid() && Differ("menu", "tool")
    ensures Differ("menu", KNOWN_STALE) && Differ("tool", KNOWN_STALE)
  {
    Names();
    assert Differ("menu", FINGERPRINT_NAME);
    assert Shippable(File(menu)) && Shippable(File(code));
    assert Shippable(Dir(map["index.js" := File(code)]));
  }

  const USERS_MENU: Tree := map["menu" := Dir(map[])]

  /** The extensions directory with the user's directory and the extension in it. */
  function WithMenu(code: Bytes): Tree
  {
    USERS_MENU + Extension(code)
  }

  lemma DirectoriesAreNotCleaned(s: Install, b: Bundle)
    requires OnlyDirectories(s.extensions) && KNOWN_STALE !in s.extensions
    requires s.manifest.Some? ==>
               forall name | name in s.extensions ::
                 name !in s.manifest.value.rootFiles
                 && (name in s.manifest.value.dirs ==> name in b.extensions && b.extensions[name].Dir?)
    ensures CleanedUp(s, b) == s.extensions
  {
  }

  lemma OlderIsInstalled(was: Bytes)
    ensures Undisturbed([Launching(First(was))])
    ensures History(USERS_MENU, [Launching(First(was))])
            == Past(Install(WithMenu(was), Some(ManifestOf(First(was)))), [First(was)], {}, false)
  {
    BothAreValid(was);
    NewerIsValid(was, was);
    var s := Install(USERS_MENU, None);
    DirectoriesAreNotCleaned(s, First(was));
    OneMore(USERS_MENU, [], Launching(First(was)));
    assert [] + [Launching(First(was))] == [Launching(First(was))] && [] + [First(was)] == [First(was)];
    assert USERS_MENU + Extension(was) == WithMenu(was);
    hide CleanedUp, ManifestOf, Bundle.Valid;
  }

  function InstalledWithMenu(was: Bytes, code: Bytes): Install
  {
    Install(WithMenu(code), Some(ManifestOf(First(was))))
  }

  /** As long as the release has the extension too. */
  lemma MenuIsNotCleaned(was: Bytes, code: Bytes, b: Bundle)
    requires "tool" in b.extensions && b.extensions["tool"].Dir?
    ensures CleanedUp(InstalledWithMenu(was, code), b) == WithMenu(code)
  {
    hide CleanedUp, FingerprintOf, Marked;
    NewerIsValid(was, was);
    DirectoriesAreNotCleaned(InstalledWithMenu(was, code), b);
  }

  lemma NewerIsAbandoned(was: Bytes, now: Bytes, menu: Bytes)
    ensures !CanCopy(Newer(now, menu).extensions, WithMenu(was))
    ensures Abandoned(Newer(now, menu).extensions, WithMenu(was), {"tool"}) == WithMenu(now)
  {
    NewerIsValid(now, menu);
    assert Blocked(Newer(now, menu).extensions, WithMenu(was), "menu");
    hide Bundle.Valid, Differ;
  }

  lemma NewerThrows(was: Bytes, now: Bytes, menu: Bytes)
    ensures var s := InstalledWithMenu(was, was);
            OutcomeOf(s, Newer(now, menu)) == Threw
            && Launch(s, Newer(now, menu), {"tool"}) == InstalledWithMenu(was, now)
  {
    hide CleanedUp, FingerprintOf, Bundle.Valid, CanCopy, Abandoned, MissingFiles, Marked, WithMenu;
    NewerIsValid(now, menu);
    assert Newer(now, menu).extensions["tool"].Dir?;
    MenuIsNotCleaned(was, was, Newer(now, menu));
    NewerIsAbandoned(was, now, menu);
    assert Differ("1.0.0", "2.0.0");
  }

  lemma MenuMissesNothing(was: Bytes, now: Bytes)
    ensures !MissingFiles(WithMenu(now), Extension(was))
  {
    forall p | p in Files(Dir(Extension(was)), {}) ensures p in Files(Dir(WithMenu(now)), {}) {
      assert p[0] == "tool" && p[1..][0] == "index.js";
    }
  }

  lemma OlderSkips(was: Bytes, now: Bytes)
    ensures var s := InstalledWithMenu(was, now);
            OutcomeOf(s, First(was)) == Skipped && Launch(s, First(was), {}) == s
  {
    hide CleanedUp, FingerprintOf, CanCopy, Abandoned, MissingFiles, Marked, WithMenu;
    MenuIsNotCleaned(was, now, First(was));
    MenuMissesNothing(was, now);
  }

  function NewerAfterOlder(was: Bytes, now: Bytes, menu: Bytes): seq<Event>
  {
    [Launching(First(was))] + [Launched(Newer(now, menu), {"tool"})]
  }

  lemma NewerIsUnderWay(was: Bytes, now: Bytes, menu: Bytes)
    ensures Undisturbed(NewerAfterOlder(was, now, menu))
    ensures History(USERS_MENU, NewerAfterOlder(was, now, menu))
            == Past(InstalledWithMenu(was, now), [First(was)], {"tool", "menu"}, true)
  {
    hide History, Undisturbed, OutcomeOf, Launch, Bundle.Valid, Differ, ManifestOf, WithMenu;
    OlderIsInstalled(was);
    NewerThrows(was, now, menu);
    NewerIsValid(now, menu);
    OneMore(USERS_MENU, [Launching(First(was))], Launched(Newer(now, menu), {"tool"}));
    assert Newer(now, menu).extensions.Keys == {"tool", "menu"};
  }

  /** A launch of a newer release that throws leaves what it has written, and going back to the
      older release does not put it right: the manifest is still the older release's, no file is
      missing, and so the launch skips. */
  lemma OlderReleaseKeepsNewerFiles(was: Bytes, now: Bytes, menu: Bytes)
    ensures var events := NewerAfterOlder(was, now, menu);
            var past := History(USERS_MENU, events + [Launching(First(was))]);
            && Undisturbed(events + [Launching(First(was))])
            && OutcomeOf(History(USERS_MENU, events).install, First(was)) == Skipped
            && past.install.extensions == WithMenu(now) && past.strays == {"tool", "menu"}
  {
    hide History, Undisturbed, OutcomeOf, Launch, Bundle.Valid, Differ, ManifestOf, NewerAfterOlder;
    NewerIsUnderWay(was, now, menu);
    OlderSkips(was, now);
    BothAreValid(was);
    OneMore(USERS_MENU, NewerAfterOlder(was, now, menu), Launching(First(was)));
  }
}
