/** What the installed extensions directory holds after any history of launches, some of which may
    throw while they copy, and of edits by the user. */
module ResourceHistory {
  import opened Wrappers
  import opened ResourceTrees
  import opened ResourceSync

  // ----- Histories

  /** `copied` matters only to a launch that throws: what it has written by then. */
  datatype Event =
    | Launched(bundle: Bundle, copied: set<string>)
    | UserEdit(name: string, node: Option<Node>)

  function Edited(t: Tree, name: string, node: Option<Node>): Tree
  {
    if node.Some? then t[name := node.value] else t - {name}
  }

  /** The directory with a record of what led to it: the releases whose copy was completed, the
      names shipped by a launch that threw and by no completed copy since, and whether a launch has
      thrown since the last one that did not. */
  datatype Past = Past(install: Install, copies: seq<Bundle>, strays: set<string>, dirty: bool)

  function AfterLaunch(past: Past, b: Bundle, copied: set<string>): Past
  {
    var install := Launch(past.install, b, copied);
    match OutcomeOf(past.install, b)
    case Skipped => past.(install := install, dirty := false)
    case Complete => Past(install, past.copies + [b], past.strays - b.extensions.Keys, false)
    case Threw => past.(install := install, strays := past.strays + b.extensions.Keys, dirty := true)
  }

  function Next(past: Past, e: Event): Past
  {
    match e
    case Launched(b, copied) => AfterLaunch(past, b, copied)
    case UserEdit(name, node) =>
      past.(install := past.install.(extensions := Edited(past.install.extensions, name, node)))
  }

  /** From a directory that holds whatever the user put there, before any release. */
  function History(before: Tree, events: seq<Event>): Past
  {
    if events == [] then Past(Install(before, None), [], {}, false)
    else Next(History(before, events[..|events| - 1]), events[|events| - 1])
  }

  function Bundles(events: seq<Event>): seq<Bundle>
  {
    if events == [] then []
    else
      var e := events[|events| - 1];
      Bundles(events[..|events| - 1]) + if e.Launched? then [e.bundle] else []
  }

  /** What the last of these bundles that had an entry of this name had there. */
  function LastShipped(bundles: seq<Bundle>, name: string): Option<Node>
  {
    if bundles == [] then None
    else
      var b := bundles[|bundles| - 1];
      if name in b.extensions then Some(b.extensions[name]) else LastShipped(bundles[..|bundles| - 1], name)
  }

  /** No outside edits: bundles are valid and users touch only names no bundle has had so far. */
  predicate Undisturbed(events: seq<Event>)
  {
    events == []
    || (Undisturbed(events[..|events| - 1])
        && match events[|events| - 1]
           case Launched(b, _) => b.Valid()
           case UserEdit(name, _) => forall b | b in Bundles(events[..|events| - 1]) :: name !in b.extensions)
  }

  lemma OneMore(before: Tree, events: seq<Event>, e: Event)
    ensures Undisturbed(events + [e]) <==>
            Undisturbed(events) && (e.Launched? ==> e.bundle.Valid())
            && (e.UserEdit? ==> forall b | b in Bundles(events) :: e.name !in b.extensions)
    ensures History(before, events + [e]) == Next(History(before, events), e)
    ensures Bundles(events + [e]) == Bundles(events) + if e.Launched? then [e.bundle] else []
  {
    var all := events + [e];
    assert all[..|all| - 1] == events && all[|all| - 1] == e;
    hide Next;
  }

  lemma OneMoreBundle(bundles: seq<Bundle>, b: Bundle, name: string)
    ensures LastShipped(bundles + [b], name) ==
            if name in b.extensions then Some(b.extensions[name]) else LastShipped(bundles, name)
  {
    var all := bundles + [b];
    assert all[..|all| - 1] == bundles && all[|all| - 1] == b;
  }

  // ----- What every history keeps

  /** Installed exactly if the release copied last has it; otherwise gone, unless it was shipped as
      a directory the manifest does not list. */
  predicate Settled(copies: seq<Bundle>, s: Install, name: string)
  {
    var last := LastShipped(copies, name);
    last.Some? ==>
      Get(s.extensions, name) ==
      if name in copies[|copies| - 1].extensions || (last.value.Dir? && !Marked(last.value)) then last else None
  }

  /** A launch that threw has removed what the manifest lists and it did not ship itself. */
  predicate Cleared(past: Past, name: string)
  {
    past.dirty && past.copies != [] && Listed(past.copies[|past.copies| - 1], name)
    && name !in past.install.extensions
  }

  ghost predicate Consistent(past: Past)
  {
    && (past.copies == [] <==> past.install.manifest.None?)
    && (forall b | b in past.copies :: b.Valid())
    && (past.copies != [] ==> past.install.manifest == Some(ManifestOf(past.copies[|past.copies| - 1])))
    && forall name | name !in past.strays :: Settled(past.copies, past.install, name) || Cleared(past, name)
  }

  lemma LastOf(copies: seq<Bundle>)
    requires copies != []
    ensures copies[|copies| - 1] in copies
  {
  }

  lemma {:induction false} ShippedIsPlain(bundles: seq<Bundle>, name: string)
    requires (forall b | b in bundles :: b.Valid()) && LastShipped(bundles, name).Some?
    ensures var node := LastShipped(bundles, name).value; node.File? || node.Dir?
  {
    LastOf(bundles);
    var b := bundles[|bundles| - 1];
    if name in b.extensions {
      assert Shippable(b.extensions[name]);
    } else {
      ShippedIsPlain(bundles[..|bundles| - 1], name);
    }
  }

  lemma {:induction false} ShippedByOne(bundles: seq<Bundle>, name: string)
    ensures LastShipped(bundles, name).None? <==> forall b | b in bundles :: name !in b.extensions
  {
    if bundles != [] {
      var n := |bundles| - 1;
      ShippedByOne(bundles[..n], name);
      assert bundles == bundles[..n] + [bundles[n]];
    }
  }

  lemma {:induction false} CopiesAreBundles(before: Tree, events: seq<Event>)
    ensures forall b | b in History(before, events).copies :: b in Bundles(events)
  {
    if events != [] { CopiesAreBundles(before, events[..|events| - 1]); }
  }

  /** What cleaning up for any release does to an entry that is settled. */
  lemma CleaningSettled(past: Past, b: Bundle, name: string)
    requires Consistent(past) && name !in past.strays && name !in b.extensions && LastShipped(past.copies, name).Some?
    ensures var last := LastShipped(past.copies, name).value;
            Get(CleanedUp(past.install, b), name) == if last.Dir? && !Marked(last) then Some(last) else None
  {
    ShippedIsPlain(past.copies, name);
    LastOf(past.copies);
    assert Settled(past.copies, past.install, name) || Cleared(past, name);
  }

  lemma SkipSettles(past: Past, b: Bundle, name: string)
    requires Consistent(past) && b.Valid() && OutcomeOf(past.install, b) == Skipped && name !in past.strays
    ensures past.copies != [] && Settled(past.copies, Launch(past.install, b, {}), name)
  {
    LastOf(past.copies);
    var last := past.copies[|past.copies| - 1];
    SkippedLooksAlike(past.install, last, b, name);
    assert Settled(past.copies, past.install, name);
    if name in last.extensions {
      CleaningSparesCopied(past.install, last, b, name);
    } else if LastShipped(past.copies, name).Some? {
      ShippedIsPlain(past.copies, name);
    }
  }

  lemma CompleteSettles(past: Past, b: Bundle, name: string)
    requires Consistent(past) && b.Valid() && OutcomeOf(past.install, b) == Complete
    requires name in b.extensions || name !in past.strays
    ensures Settled(past.copies + [b], Launch(past.install, b, {}), name)
  {
    OneMoreBundle(past.copies, b, name);
    if name !in b.extensions && LastShipped(past.copies, name).Some? { CleaningSettled(past, b, name); }
    hide CleanedUp, UpToDate, CanCopy;
  }

  lemma ThrowSettles(past: Past, b: Bundle, copied: set<string>, name: string)
    requires Consistent(past) && b.Valid() && OutcomeOf(past.install, b) == Threw
    requires name !in b.extensions && name !in past.strays
    ensures var after := AfterLaunch(past, b, copied);
            Settled(after.copies, after.install, name) || Cleared(after, name)
  {
    var after := AfterLaunch(past, b, copied);
    assert Get(after.install.extensions, name) == Get(CleanedUp(past.install, b), name) by { hide CleanedUp, UpToDate; }
    if LastShipped(past.copies, name).Some? {
      CleaningSettled(past, b, name);
      ShippedIsPlain(past.copies, name);
    }
    hide CleanedUp, UpToDate, CanCopy, Launch;
  }

  lemma LaunchKeepsConsistency(past: Past, b: Bundle, copied: set<string>)
    requires Consistent(past) && b.Valid()
    ensures Consistent(AfterLaunch(past, b, copied))
  {
    var after := AfterLaunch(past, b, copied);
    forall name | name !in after.strays
      ensures Settled(after.copies, after.install, name) || Cleared(after, name)
    {
      match OutcomeOf(past.install, b)
      case Skipped => SkipSettles(past, b, name);
      case Complete => CompleteSettles(past, b, name);
      case Threw => ThrowSettles(past, b, copied, name);
    }
    hide Settled, Cleared, OutcomeOf, CleanedUp, Bundle.Valid;
  }

  lemma EditKeepsConsistency(past: Past, name: string, node: Option<Node>)
    requires Consistent(past) && forall b | b in past.copies :: name !in b.extensions
    ensures Consistent(Next(past, UserEdit(name, node)))
  {
    var after := Next(past, UserEdit(name, node));
    ShippedByOne(past.copies, name);
    if past.copies != [] { LastOf(past.copies); }
    forall other | other !in past.strays
      ensures Settled(after.copies, after.install, other) || Cleared(after, other)
    {
      assert Settled(past.copies, past.install, other) || Cleared(past, other);
    }
  }

  /** After any undisturbed history the manifest is that of the release copied last, and every name
      a copied release ever had is settled, but for strays and for what a launch that threw has
      cleared. */
  lemma {:induction false} EveryHistoryIsConsistent(before: Tree, events: seq<Event>)
    requires Undisturbed(events)
    ensures Consistent(History(before, events))
  {
    hide Consistent, AfterLaunch;
    if events == [] {
      NothingIsConsistent(before);
    } else {
      var prefix, e := events[..|events| - 1], events[|events| - 1];
      EveryHistoryIsConsistent(before, prefix);
      match e
      case Launched(b, copied) => LaunchKeepsConsistency(History(before, prefix), b, copied);
      case UserEdit(name, node) =>
        CopiesAreBundles(before, prefix);
        EditKeepsConsistency(History(before, prefix), name, node);
    }
  }

  lemma NothingIsConsistent(before: Tree)
    ensures Consistent(Past(Install(before, None), [], {}, false))
  {
  }

  // ----- After every launch

  /** After a launch that did not throw, whether it copied or skipped and whatever went before: the
      release copied last looks like the current one to the fingerprint; and of every name that is
      no stray, what that release ships is installed exactly, and what only earlier copied releases
      shipped is still there exactly when its last shipped form was a directory that the manifest
      does not list. A launch that copied leaves no name of its release a stray. */
  lemma AfterEveryLaunch(before: Tree, events: seq<Event>, b: Bundle, copied: set<string>, name: string)
    requires Undisturbed(events + [Launched(b, copied)])
    requires OutcomeOf(History(before, events).install, b) != Threw
    ensures var past := History(before, events + [Launched(b, copied)]);
            && past.copies != [] && !past.dirty
            && var current, last := past.copies[|past.copies| - 1], LastShipped(past.copies, name);
            && Visible(Dir(current.extensions)) == Visible(Dir(b.extensions))
            && (OutcomeOf(History(before, events).install, b) == Complete ==>
                  current == b && forall shipped | shipped in b.extensions :: shipped !in past.strays)
            && (name !in past.strays && name in current.extensions ==>
                  Get(past.install.extensions, name) == Some(current.extensions[name]))
            && (name !in past.strays && name !in current.extensions && last.Some? ==>
                  Get(past.install.extensions, name) == if last.value.Dir? && !Marked(last.value) then last else None)
  {
    hide Consistent, History, Undisturbed, AfterLaunch;
    OneMore(before, events, Launched(b, copied));
    EveryHistoryIsConsistent(before, events);
    EveryHistoryIsConsistent(before, events + [Launched(b, copied)]);
    SettledAfterLaunch(History(before, events), b, copied, name);
  }

  lemma SettledAfterLaunch(past: Past, b: Bundle, copied: set<string>, name: string)
    requires Consistent(past) && b.Valid() && OutcomeOf(past.install, b) != Threw
    requires Consistent(AfterLaunch(past, b, copied))
    ensures var after := AfterLaunch(past, b, copied);
            && after.copies != [] && !after.dirty
            && var current, last := after.copies[|after.copies| - 1], LastShipped(after.copies, name);
            && Visible(Dir(current.extensions)) == Visible(Dir(b.extensions))
            && (OutcomeOf(past.install, b) == Complete ==>
                  current == b && forall shipped | shipped in b.extensions :: shipped !in after.strays)
            && (name !in after.strays && name in current.extensions ==>
                  Get(after.install.extensions, name) == Some(current.extensions[name]))
            && (name !in after.strays && name !in current.extensions && last.Some? ==>
                  Get(after.install.extensions, name) == if last.value.Dir? && !Marked(last.value) then last else None)
  {
    var after := AfterLaunch(past, b, copied);
    if OutcomeOf(past.install, b) == Skipped { SkipHasManifest(past, b, name); }
    assert name !in after.strays ==> Settled(after.copies, after.install, name);
    hide OutcomeOf, Launch, Visible, Marked, Bundle.Valid, ManifestOf;
  }

  lemma SkipHasManifest(past: Past, b: Bundle, name: string)
    requires Consistent(past) && b.Valid() && OutcomeOf(past.install, b) == Skipped
    ensures past.copies != [] && SameRelease(past.copies[|past.copies| - 1], b)
  {
    assert past.copies != [];
    LastOf(past.copies);
    SkippedLooksAlike(past.install, past.copies[|past.copies| - 1], b, name);
    hide UpToDate, SameRelease;
  }

  /** Strays included, no file of the release launched last is missing, unless that launch threw. */
  lemma NoFileIsMissingAfter(before: Tree, events: seq<Event>, b: Bundle, copied: set<string>, p: Path)
    requires OutcomeOf(History(before, events).install, b) != Threw && p in Files(Dir(b.extensions), {})
    ensures p in Files(Dir(History(before, events + [Launched(b, copied)]).install.extensions), {})
  {
    hide History, OutcomeOf, Launch;
    OneMore(before, events, Launched(b, copied));
    NoFileIsMissing(History(before, events).install, b, copied, p);
  }

  /** If no launch of the history threw, there are no strays. */
  lemma {:induction false} NoThrowNoStrays(before: Tree, events: seq<Event>)
    requires forall k | 0 <= k < |events| && events[k].Launched? ::
               OutcomeOf(History(before, events[..k]).install, events[k].bundle) != Threw
    ensures History(before, events).strays == {} && !History(before, events).dirty
  {
    hide OutcomeOf, Launch;
    if events != [] {
      var n := |events| - 1;
      forall k | 0 <= k < n ensures events[..n][..k] == events[..k] && events[..n][k] == events[k] { }
      NoThrowNoStrays(before, events[..n]);
    }
  }

  // ----- Where an entry comes from

  /** An entry some release shipped, or something the user put there. */
  ghost predicate HasSource(before: Tree, events: seq<Event>, name: string, node: Node)
  {
    (exists b | b in Bundles(events) :: Get(b.extensions, name) == Some(node))
    || Get(before, name) == Some(node) || UserEdit(name, Some(node)) in events
  }

  lemma SourceStays(before: Tree, events: seq<Event>, e: Event, name: string, node: Node)
    requires HasSource(before, events, name, node)
    ensures HasSource(before, events + [e], name, node)
  {
    OneMore(before, events, e);
    hide History, Undisturbed, Bundles;
    if b :| b in Bundles(events) && Get(b.extensions, name) == Some(node) { assert b in Bundles(events + [e]); }
  }

  lemma NewSource(before: Tree, events: seq<Event>, e: Event, name: string, node: Node)
    requires match e case Launched(b, _) => Get(b.extensions, name) == Some(node)
                     case UserEdit(edited, put) => edited == name && put == Some(node)
    ensures HasSource(before, events + [e], name, node)
  {
    OneMore(before, events, e);
    hide History, Undisturbed, Bundles;
    if e.Launched? { assert e.bundle in Bundles(events + [e]); }
  }

  /** Whatever throws and whenever: every entry is what some release shipped under its name, or the
      user's. */
  lemma {:induction false} NothingIsInvented(before: Tree, events: seq<Event>, name: string)
    ensures var entry := Get(History(before, events).install.extensions, name);
            entry.Some? ==> HasSource(before, events, name, entry.value)
  {
    if events != [] {
      var prefix, e := events[..|events| - 1], events[|events| - 1];
      var past, entry := History(before, prefix), Get(History(before, events).install.extensions, name);
      NothingIsInvented(before, prefix, name);
      assert events == prefix + [e];
      hide HasSource, Launch, OutcomeOf;
      if e.Launched? { LaunchInventsNothing(past.install, e.bundle, e.copied, name); }
      if entry.Some? {
        if entry == Get(past.install.extensions, name) {
          SourceStays(before, prefix, e, name, entry.value);
        } else {
          NewSource(before, prefix, e, name, entry.value);
        }
      }
    }
  }

  lemma LaunchInventsNothing(s: Install, b: Bundle, copied: set<string>, name: string)
    ensures var entry := Get(Launch(s, b, copied).extensions, name);
            entry.Some? ==> entry in {Get(s.extensions, name), Get(b.extensions, name)}
  {
    hide UpToDate, CanCopy, Blocked;
  }

  // ----- Packaged releases

  ghost predicate AllPackaged(bundles: seq<Bundle>)
  {
    forall b | b in bundles :: Packaged(b.extensions)
  }

  /** When nothing is hidden from the fingerprint, a skipped release ships what was copied last; so
      the copied releases and all releases tell the same of a name that is no stray. */
  lemma {:induction false} PackagedCopies(before: Tree, events: seq<Event>, name: string)
    requires Undisturbed(events) && AllPackaged(Bundles(events)) && name !in History(before, events).strays
    ensures LastShipped(History(before, events).copies, name) == LastShipped(Bundles(events), name)
  {
    hide LastShipped, AfterLaunch;
    if events != [] {
      var prefix, e := events[..|events| - 1], events[|events| - 1];
      assert forall b | b in Bundles(prefix) :: b in Bundles(events);
      EveryHistoryIsConsistent(before, prefix);
      CopiesAreBundles(before, prefix);
      var past := History(before, prefix);
      if e.Launched? {
        assert e.bundle in Bundles(events);
        StraysBefore(past, e.bundle, e.copied, name);
        if name !in past.strays { PackagedCopies(before, prefix, name); }
        PackagedLaunch(past, Bundles(prefix), e.bundle, e.copied, name);
      } else {
        PackagedCopies(before, prefix, name);
        assert Bundles(events) == Bundles(prefix);
      }
    } else {
      NothingShipped(name);
    }
  }

  lemma NothingShipped(name: string)
    ensures LastShipped([], name).None?
  {
  }

  lemma StraysBefore(past: Past, b: Bundle, copied: set<string>, name: string)
    requires name !in AfterLaunch(past, b, copied).strays
    ensures name !in past.strays || (name in b.extensions && OutcomeOf(past.install, b) == Complete)
    ensures name in b.extensions ==> OutcomeOf(past.install, b) != Threw
  {
    hide OutcomeOf, Launch;
  }

  lemma PackagedLaunch(past: Past, bundles: seq<Bundle>, b: Bundle, copied: set<string>, name: string)
    requires Consistent(past) && b.Valid() && Packaged(b.extensions) && AllPackaged(past.copies)
    requires name !in AfterLaunch(past, b, copied).strays
    requires name !in past.strays ==> LastShipped(past.copies, name) == LastShipped(bundles, name)
    ensures LastShipped(AfterLaunch(past, b, copied).copies, name) == LastShipped(bundles + [b], name)
  {
    StraysBefore(past, b, copied, name);
    OneMoreBundle(bundles, b, name);
    match OutcomeOf(past.install, b)
    case Skipped =>
      SkipHasManifest(past, b, name);
      LastOf(past.copies);
      assert past.copies[|past.copies| - 1].extensions == b.extensions;
      hide OutcomeOf, Launch, Visible;
    case Complete => OneMoreBundle(past.copies, b, name); hide OutcomeOf, Launch, Visible;
    case Threw => hide OutcomeOf, Launch, Visible;
  }

  /** On packaged releases, after a launch that did not throw, for every name that is no stray: what
      the release ships is installed exactly, and an entry an earlier release shipped is still there
      exactly when its last shipped form was a directory that the manifest does not list. */
  lemma AfterEveryPackagedLaunch(before: Tree, events: seq<Event>, b: Bundle, copied: set<string>, name: string)
    requires Undisturbed(events + [Launched(b, copied)]) && AllPackaged(Bundles(events) + [b])
    requires OutcomeOf(History(before, events).install, b) != Threw
    requires name !in History(before, events + [Launched(b, copied)]).strays
    requires name in b.extensions || LastShipped(Bundles(events), name).Some?
    ensures var installed := History(before, events + [Launched(b, copied)]).install.extensions;
            var last := LastShipped(Bundles(events), name);
            if name in b.extensions then Get(installed, name) == Some(b.extensions[name])
            else if last.value.Dir? && !Marked(last.value) then Get(installed, name) == last
            else name !in installed
  {
    hide History, Undisturbed, Marked, Bundles, LastShipped, AfterLaunch, OutcomeOf, Visible;
    var all := events + [Launched(b, copied)];
    AfterEveryLaunch(before, events, b, copied, name);
    OneMore(before, events, Launched(b, copied));
    OneMoreBundle(Bundles(events), b, name);
    PackagedCopies(before, all, name);
    CopiesAreBundles(before, all);
    LastOf(History(before, all).copies);
    assert Packaged(History(before, all).copies[|History(before, all).copies| - 1].extensions);
    assert Packaged(b.extensions);
  }

  // ----- What no completed copy ever shipped

  /** What becomes of an entry that only edits and cleaning up can touch. */
  function Outlives(entry: Option<Node>, events: seq<Event>, name: string): Option<Node>
  {
    if events == [] then entry
    else
      var kept := Outlives(entry, events[..|events| - 1], name);
      match events[|events| - 1]
      case UserEdit(other, node) => if other == name then node else kept
      case Launched(b, _) => if kept.Some? && TakenFromUser(b, name, kept.value) then None else kept
  }

  /** What a launch that threw has written under a name that no completed copy shipped stays there
      through all later launches that do not ship it: no manifest lists it. */
  lemma {:induction false} NeverCopiedSurvives(before: Tree, events: seq<Event>, later: seq<Event>, name: string)
    requires Undisturbed(events + later) && forall b | b in Bundles(later) :: name !in b.extensions
    requires forall b | b in History(before, events).copies :: name !in b.extensions
    ensures forall b | b in History(before, events + later).copies :: name !in b.extensions
    ensures Get(History(before, events + later).install.extensions, name)
            == Outlives(Get(History(before, events).install.extensions, name), later, name)
  {
    hide Launch, OutcomeOf, TakenFromUser, Consistent, Undisturbed, History, AfterLaunch;
    if later == [] {
      assert events + later == events;
    } else {
      var prefix, e := later[..|later| - 1], later[|later| - 1];
      assert events + later == events + prefix + [e];
      OneMore(before, events + prefix, e);
      assert forall b | b in Bundles(prefix) :: b in Bundles(later);
      NeverCopiedSurvives(before, events, prefix, name);
      if e.Launched? {
        assert e.bundle in Bundles(later);
        EveryHistoryIsConsistent(before, events + prefix);
        LaunchLeavesUncopied(History(before, events + prefix), e.bundle, e.copied, name);
      }
    }
  }

  lemma LaunchLeavesUncopied(past: Past, b: Bundle, copied: set<string>, name: string)
    requires Consistent(past) && name !in b.extensions && forall c | c in past.copies :: name !in c.extensions
    ensures var had, after := Get(past.install.extensions, name), AfterLaunch(past, b, copied);
            && (forall c | c in after.copies :: name !in c.extensions)
            && Get(after.install.extensions, name) ==
               if had.Some? && TakenFromUser(b, name, had.value) then None else had
  {
    hide Launch, OutcomeOf, TakenFromUser;
    NotListed(past, name);
    LaunchSparesUserNames(past.install, b, copied, name);
  }

  lemma NotListed(past: Past, name: string)
    requires Consistent(past) && forall b | b in past.copies :: name !in b.extensions
    ensures var m := past.install.manifest;
            m.Some? ==> name !in m.value.rootFiles && name !in m.value.dirs
  {
    if past.copies != [] { LastOf(past.copies); }
  }

  /** A name no release ever had holds what the user last put there, unless cleaning up took it. */
  lemma NeverBundledSurvives(before: Tree, events: seq<Event>, name: string)
    requires Undisturbed(events) && forall b | b in Bundles(events) :: name !in b.extensions
    ensures Get(History(before, events).install.extensions, name) == Outlives(Get(before, name), events, name)
  {
    assert [] + events == events;
    NeverCopiedSurvives(before, [], events, name);
    hide Outlives, Undisturbed;
  }
}
