/** The veto on automatic restore: while resume stays disabled, the bridge sets no binding again
    until the one that cmux reported as automatic is known to be cleared. */
module CmuxRestore {
  import opened Wrappers
  import opened CmuxVault
  import opened CmuxPresence

  /** The last identity reported automatic since resume was last read as enabled. */
  function LastAutomatic(trail: seq<Act>): Option<Identity>
  {
    if trail == [] then None
    else
      match trail[|trail| - 1]
      case Policy(t) => if t.resume then None else LastAutomatic(trail[..|trail| - 1])
      case FoundAutomatic(i, _) => Some(i)
      case _ => LastAutomatic(trail[..|trail| - 1])
  }

  /** ... and no successful clear has been reported after it. */
  predicate Uncleared(trail: seq<Act>)
  {
    trail != [] &&
    match trail[|trail| - 1]
    case Policy(t) => !t.resume && Uncleared(trail[..|trail| - 1])
    case FoundAutomatic(_, _) => true
    case Cleared(_) => false
    case _ => Uncleared(trail[..|trail| - 1])
  }

  ghost predicate Vetoed(trail: seq<Act>)
  {
    trail == [] ||
    (Vetoed(trail[..|trail| - 1])
     && match trail[|trail| - 1]
        case AskedSet(i) => !Uncleared(trail[..|trail| - 1]) && LastAutomatic(trail[..|trail| - 1]) != Some(i)
        case _ => true)
  }

  lemma {:induction false} UnclearedWasReported(trail: seq<Act>)
    requires Uncleared(trail)
    ensures LastAutomatic(trail).Some?
  {
    if !trail[|trail| - 1].FoundAutomatic? {
      UnclearedWasReported(trail[..|trail| - 1]);
    }
  }

  /** What one more act does to the three readings of the trail. */
  lemma TrailStep(trail: seq<Act>, a: Act)
    ensures LastAutomatic(trail + [a])
         == match a case Policy(t) => if t.resume then None else LastAutomatic(trail)
                    case FoundAutomatic(i, _) => Some(i) case _ => LastAutomatic(trail)
    ensures Uncleared(trail + [a])
        <==> match a case Policy(t) => !t.resume && Uncleared(trail) case FoundAutomatic(_, _) => true
                     case Cleared(_) => false case _ => Uncleared(trail)
    ensures Vetoed(trail + [a])
        <==> Vetoed(trail) && (a.AskedSet? ==> !Uncleared(trail) && LastAutomatic(trail) != Some(a.identity))
  {
    assert (trail + [a])[..|trail|] == trail;
  }

  /** Between turns: the report is remembered as unsafe while uncleared, as blocked after. */
  ghost predicate Remembered(b: Bridge)
  {
    && Vetoed(b.trail)
    && (Uncleared(b.trail) ==> b.unsafe.Some? && b.binding.Some?)
    && (LastAutomatic(b.trail).Some? ==> LastAutomatic(b.trail) == if b.unsafe.Some? then b.unsafe else b.blocked)
  }

  ghost predicate PolicyRead(b: Bridge, t: Turn)
  {
    t.resume ==> LastAutomatic(b.trail).None?
  }

  /** A turn that may go on to set a binding. */
  ghost predicate MaySet(b: Bridge, t: Turn)
  {
    PolicyRead(b, t) && (!t.resume ==> b.unsafe.None? && b.blocked != Some(t.identity))
  }

  ghost predicate ClearOk(b: Bridge, after: AfterClear)
  {
    match after
    case ClearThenLoop => true
    case ClearAutomaticThen(turn) => b.unsafe.Some? && (turn.Some? ==> !turn.value.resume)
  }

  ghost predicate RestoreInv(b: Bridge)
  {
    match b.wait
    case AwaitStat(t) => Remembered(b) && MaySet(b, t)
    case AwaitShow(t) => Remembered(b) && MaySet(b, t)
    case AwaitClear(after) => Remembered(b) && ClearOk(b, after)
    case AwaitFeed(FeedThenPolicy(t)) => Remembered(b) && PolicyRead(b, t)
    case AwaitFeed(FeedThenForget(after)) => Remembered(b) && ClearOk(b, after) && !Uncleared(b.trail)
    case AwaitFeed(FeedThenClearAutomatic(turn)) => Remembered(b) && ClearOk(b, ClearAutomaticThen(turn))
    case AwaitFeed(FeedThenTrack(i, _)) => Vetoed(b.trail) && LastAutomatic(b.trail) == Some(i)
    case _ => Remembered(b)
  }

  lemma ProceedKeepsRestore(b: Bridge, t: Turn)
    requires Remembered(b) && PolicyRead(b, t) && (!t.resume ==> b.unsafe.None?)
    ensures RestoreInv(Proceed(b, t))
  {
    hide Vetoed, Uncleared, LastAutomatic;
    if b.binding.Some? { NoteKeeps(b, AskedClear(b.binding.value.updatedAt)); }
    NoteKeeps(b, AskedBinding);
    NoteKeeps(b, AskedFile(t.identity.path));
  }

  lemma AfterClearedKeepsRestore(b: Bridge, after: AfterClear, cleared: bool)
    requires Remembered(b) && ClearOk(b, after) && (cleared ==> !Uncleared(b.trail))
    ensures RestoreInv(AfterCleared(b, after, cleared))
  {
    hide Vetoed, Uncleared, LastAutomatic, Proceed;
    if after.ClearAutomaticThen? && cleared {
      var b' := Note(b.(blocked := b.unsafe, unsafe := None), Blocks(after.pendingTurn));
      NoteKeeps(b, Blocks(after.pendingTurn));
      if after.pendingTurn.Some? { ProceedKeepsRestore(b', after.pendingTurn.value); }
    }
  }

  lemma IssueClearKeepsRestore(b: Bridge, after: AfterClear)
    requires Remembered(b) && ClearOk(b, after)
    ensures RestoreInv(IssueClear(b, after))
  {
    hide Vetoed, Uncleared, LastAutomatic, AfterCleared;
    if b.binding.None? {
      AfterClearedKeepsRestore(b, after, true);
    } else {
      NoteKeeps(b, AskedClear(b.binding.value.updatedAt));
    }
  }

  /** Most acts change none of the readings. */
  predicate Neutral(a: Act)
  {
    !a.AskedSet? && !a.FoundAutomatic? && !a.Cleared? && (a.Policy? ==> !a.turn.resume)
  }

  lemma NoteKeeps(b: Bridge, a: Act)
    requires Neutral(a)
    ensures var trail := Note(b, a).trail;
            LastAutomatic(trail) == LastAutomatic(b.trail) && Uncleared(trail) == Uncleared(b.trail)
            && Vetoed(trail) == Vetoed(b.trail)
  {
    TrailStep(b.trail, a);
  }

  lemma ClearAutomaticKeepsRestore(b: Bridge, turn: Option<Turn>)
    requires Remembered(b) && ClearOk(b, ClearAutomaticThen(turn))
    ensures RestoreInv(ClearAutomatic(b, turn))
  {
    hide Vetoed, Uncleared, LastAutomatic, IssueClear;
    if !Present(b.binding) { IssueClearKeepsRestore(b, ClearAutomaticThen(turn)); }
  }

  lemma CheckUnsafeKeepsRestore(b: Bridge, t: Turn)
    requires Remembered(b) && PolicyRead(b, t)
    ensures RestoreInv(CheckUnsafe(b, t))
  {
    hide Vetoed, Uncleared, LastAutomatic, ClearAutomatic, Proceed;
    if !t.resume && b.unsafe.Some? {
      ClearAutomaticKeepsRestore(b, Some(t));
    } else {
      ProceedKeepsRestore(b, t);
    }
  }

  lemma AnnounceKeepsRestore(b: Bridge)
    requires Remembered(b)
    ensures RestoreInv(AnnounceStart(b))
  {
    hide Vetoed, Uncleared, LastAutomatic;
  }

  lemma TrackAutomaticKeepsRestore(b: Bridge, i: Identity, updatedAt: int)
    requires Vetoed(b.trail) && LastAutomatic(b.trail) == Some(i)
    ensures RestoreInv(TrackAutomatic(b, i, updatedAt))
  {
    hide Vetoed, Uncleared, LastAutomatic, ClearAutomatic;
    var current := VaultBinding(i.path, i.cwd, updatedAt, false);
    NoteKeeps(b, Tracks(current, Some(i)));
    ClearAutomaticKeepsRestore(Note(b.(binding := Some(current), unsafe := Some(i)), Tracks(current, Some(i))), None);
  }

  /** What must hold to continue after `feed` or an `endPresence` that had nothing to end. */
  ghost predicate FeedOk(b: Bridge, next: AfterFeed)
  {
    match next
    case FeedThenPolicy(t) => Remembered(b) && PolicyRead(b, t)
    case FeedThenForget(after) => Remembered(b) && ClearOk(b, after) && !Uncleared(b.trail)
    case FeedThenClearAutomatic(turn) => Remembered(b) && ClearOk(b, ClearAutomaticThen(turn))
    case FeedThenTrack(i, _) => Vetoed(b.trail) && LastAutomatic(b.trail) == Some(i)
    case _ => Remembered(b)
  }

  lemma AfterFedKeepsRestore(b: Bridge, next: AfterFeed)
    requires FeedOk(b, next)
    ensures RestoreInv(AfterFed(b, next))
  {
    hide Vetoed, Uncleared, LastAutomatic;
    hide IssueClear, CheckUnsafe, AfterCleared, TrackAutomatic, AnnounceStart;
    match next
    case FeedThenClear => IssueClearKeepsRestore(b, ClearThenLoop);
    case FeedThenPolicy(t) => CheckUnsafeKeepsRestore(b, t);
    case FeedThenForget(after) => AfterClearedKeepsRestore(b.(binding := None), after, true);
    case FeedThenClearAutomatic(turn) => IssueClearKeepsRestore(b, ClearAutomaticThen(turn));
    case FeedThenTrack(i, updatedAt) => TrackAutomaticKeepsRestore(b, i, updatedAt);
    case FeedThenStart => AnnounceKeepsRestore(b);
    case FeedThenLoop =>
  }

  lemma EndPresenceKeepsRestore(b: Bridge, next: AfterFeed)
    requires FeedOk(b, next)
    ensures RestoreInv(EndPresence(b, next))
  {
    hide Vetoed, Uncleared, LastAutomatic, AfterFed;
    if !Present(b.binding) { AfterFedKeepsRestore(b, next); }
  }

  lemma OnPreferencesKeepsRestore(c: Config, b: Bridge, i: Identity, prefs: Option<Preferences>)
    requires Remembered(b)
    ensures RestoreInv(OnPreferences(c, b, i, prefs))
  {
    hide Vetoed, Uncleared, LastAutomatic, VaultEnabled, ResumeConfigured, EndPresence, CheckUnsafe;
    var t := Turn(i, VaultEnabled(c, prefs), ResumeConfigured(c, prefs));
    var b' := ReadPolicy(b, t);
    TrailStep(b.trail, Policy(t));
    if t.vault {
      CheckUnsafeKeepsRestore(b', t);
    } else {
      EndPresenceKeepsRestore(b', FeedThenPolicy(t));
    }
  }

  lemma OnShowKeepsRestore(b: Bridge, t: Turn, o: Option<ServerBinding>)
    requires Remembered(b) && MaySet(b, t)
    ensures RestoreInv(OnShow(b, t, o))
  {
    hide Vetoed, Uncleared, LastAutomatic, MayReplace;
    TrailStep(b.trail, AskedSet(t.identity));
    if Uncleared(b.trail) { UnclearedWasReported(b.trail); }
  }

  lemma OnSetKeepsRestore(b: Bridge, t: Turn, reply: Option<ServerBinding>)
    requires Remembered(b)
    ensures RestoreInv(OnSet(b, t, reply))
  {
    hide Vetoed, Uncleared, LastAutomatic, EndPresence;
    if reply.Some? && reply.value.updatedAt.Some? {
      NoteKeeps(b, Tracks(VaultBinding(t.identity.path, t.identity.cwd, reply.value.updatedAt.value, t.vault), None));
      TrailStep(b.trail, FoundAutomatic(t.identity, reply.value.updatedAt.value));
      EndPresenceKeepsRestore(Note(b, FoundAutomatic(t.identity, reply.value.updatedAt.value)),
                              FeedThenTrack(t.identity, reply.value.updatedAt.value));
    }
  }

  lemma OnMetadataKeepsRestore(b: Bridge, t: Turn, previous: Option<VaultBinding>)
    requires Remembered(b)
    ensures RestoreInv(OnMetadata(b, t, previous))
  {
    hide Vetoed, Uncleared, LastAutomatic, AnnounceStart;
    AnnounceKeepsRestore(b);
  }

  lemma OnClearedKeepsRestore(b: Bridge, after: AfterClear, cleared: bool)
    requires Remembered(b) && ClearOk(b, after)
    ensures RestoreInv(OnCleared(b, after, cleared))
  {
    TrailStep(b.trail, Cleared(after));
    hide Vetoed, Uncleared, LastAutomatic, EndPresence, AfterCleared;
    if cleared {
      EndPresenceKeepsRestore(Note(b, Cleared(after)), FeedThenForget(after));
    } else {
      AfterClearedKeepsRestore(b.(lastIdentity := None), after, false);
    }
  }

  lemma OnPersistedShowKeepsRestore(b: Bridge, i: Identity, o: Option<ServerBinding>)
    requires Remembered(b)
    ensures RestoreInv(OnPersistedShow(b, i, o))
  {
    hide Vetoed, Uncleared, LastAutomatic, TrackAutomatic;
    if o.Some? && o.value.updatedAt.Some? {
      TrailStep(b.trail, FoundAutomatic(i, o.value.updatedAt.value));
      TrackAutomaticKeepsRestore(Note(b, FoundAutomatic(i, o.value.updatedAt.value)), i, o.value.updatedAt.value);
    }
  }

  lemma OnStatKeepsRestore(b: Bridge, t: Turn, persisted: bool)
    requires Remembered(b) && MaySet(b, t)
    ensures RestoreInv(OnStat(b, t, persisted))
  {
    hide Vetoed, Uncleared, LastAutomatic, IssueClear;
    var b' := Note(b, FileIs(persisted));
    NoteKeeps(b, FileIs(persisted));
    NoteKeeps(b', AskedBinding);
    IssueClearKeepsRestore(b', ClearThenLoop);
  }

  lemma ReplyKeepsRestore(c: Config, b: Bridge, r: Reply)
    requires RestoreInv(b)
    ensures RestoreInv(OnReply(c, b, r))
  {
    hide Vetoed, Uncleared, LastAutomatic;
    hide OnPreferences, OnSet, OnMetadata, OnPersistedShow, OnShow, OnCleared, AfterFed, IssueClear;
    match (b.wait, r)
    case (AwaitPreferences(i), PreferencesAre(p)) => OnPreferencesKeepsRestore(c, b, i, p);
    case (AwaitStat(t), _) => OnStatKeepsRestore(b, t, r == IsFile(true)); hide OnStat;
    case (AwaitFeed(next), _) => AfterFedKeepsRestore(b, next);
    case (AwaitMetadata(t, previous), _) => OnMetadataKeepsRestore(b, t, previous);
    case (AwaitClear(after), ClearedIs(cleared)) => OnClearedKeepsRestore(b, after, cleared);
    case (AwaitPersistedShow(i), BindingIs(o)) => OnPersistedShowKeepsRestore(b, i, o);
    case (AwaitShow(t), BindingIs(o)) => OnShowKeepsRestore(b, t, o);
    case (AwaitSet(t), BindingIs(o)) => OnSetKeepsRestore(b, t, o);
    case _ => FailureKeepsRestore(b);
  }

  lemma FailureKeepsRestore(b: Bridge)
    requires RestoreInv(b) && !b.wait.AwaitFeed?
    ensures RestoreInv(OnFailure(b))
  {
    hide Vetoed, Uncleared, LastAutomatic;
  }

  lemma TakeTurnKeepsRestore(b: Bridge)
    requires Remembered(b)
    ensures RestoreInv(TakeTurn(b))
  {
    hide Vetoed, Uncleared, LastAutomatic, EndPresence;
    NoteKeeps(b, Took(b.pending));
    EndPresenceKeepsRestore(Note(b.(pending := Empty, taken := b.taken + [b.pending]),
                                 Took(b.pending)), FeedThenClear);
  }

  lemma SubmitKeepsRestore(b: Bridge, slot: Slot)
    requires RestoreInv(b) && (!b.running ==> Remembered(b))
    ensures RestoreInv(Submit(b, slot))
  {
    hide Vetoed, Uncleared, LastAutomatic, TakeTurn;
    var b' := b.(pending := slot, submitted := b.submitted + [slot]);
    if !b.running {
      TakeTurnKeepsRestore(b'.(running := true, drains := b'.drains + 1));
    }
  }

  lemma StepKeepsRestore(c: Config, b: Bridge, i: Input)
    requires WakeInv(c, b) && RestoreInv(b)
    ensures RestoreInv(Step(c, b, i))
  {
    hide Vetoed, Uncleared, LastAutomatic, Submit, OnReply, TakeTurn, SlotInv;
    match i
    case DoUpdate(stamp, identity, hasUI, refresh) =>
      SubmitKeepsRestore(b.(lastIdentity := Some(stamp)),
                         if identity.Some? then Publish(identity.value) else EndSession);
    case DoStop => SubmitKeepsRestore(b.(stopped := true), EndSession);
    case DoResume(reply) =>
      match b.wait {
        case NotRunning =>
        case AtLoop => TakeTurnKeepsRestore(b);
        case Finishing => TakeTurnKeepsRestore(b.(running := true, wait := NotRunning, drains := 1));
        case _ => ReplyKeepsRestore(c, b, reply);
      }
  }

  lemma {:induction false} RunIsVetoed(c: Config, inputs: seq<Input>)
    ensures RestoreInv(Run(c, inputs)) && Vetoed(Run(c, inputs).trail)
  {
    hide Vetoed, Uncleared, LastAutomatic;
    if inputs == [] {
      EmptyLog();
    } else {
      var n := |inputs| - 1;
      hide Step, RestoreInv, WakeInv;
      RunKeepsWake(c, inputs[..n]);
      RunIsVetoed(c, inputs[..n]);
      StepKeepsRestore(c, Run(c, inputs[..n]), inputs[n]);
      VetoedBySound(Run(c, inputs));
    }
  }

  lemma VetoedBySound(b: Bridge)
    requires RestoreInv(b)
    ensures Vetoed(b.trail)
  {
    hide Vetoed, Uncleared, LastAutomatic;
  }

  lemma EmptyLog()
    ensures Vetoed([]) && !Uncleared([]) && LastAutomatic([]) == None
  {
  }

  // ----- Read act by act

  predicate EnablesResume(a: Act)
  {
    a.Policy? && a.turn.resume
  }

  ghost predicate ClearedBetween(trail: seq<Act>, m: nat, n: nat)
  {
    exists k :: m < k < n && k < |trail| && trail[k].Cleared?
  }

  ghost predicate OtherReportedBetween(trail: seq<Act>, m: nat, n: nat, i: Identity)
  {
    exists k :: m < k < n && k < |trail| && trail[k].FoundAutomatic? && trail[k].identity != i
  }

  /** What the readings of a trail say when an automatic report at `m` was not followed by a policy
      that enables resume. */
  lemma {:induction false} SinceReport(trail: seq<Act>, m: nat)
    requires m < |trail| && trail[m].FoundAutomatic? && forall k | m < k < |trail| :: !EnablesResume(trail[k])
    ensures Uncleared(trail) || ClearedBetween(trail, m, |trail|)
    ensures LastAutomatic(trail) == Some(trail[m].identity)
            || OtherReportedBetween(trail, m, |trail|, trail[m].identity)
  {
    var n := |trail| - 1;
    if m < n {
      SinceReport(trail[..n], m);
      if ClearedBetween(trail[..n], m, n) {
        var k :| m < k < n && k < |trail[..n]| && trail[..n][k].Cleared?;
        assert trail[k].Cleared?;
      }
      if OtherReportedBetween(trail[..n], m, n, trail[m].identity) {
        var k :| m < k < n && k < |trail[..n]| && trail[..n][k].FoundAutomatic?
                  && trail[..n][k].identity != trail[m].identity;
        assert trail[k].FoundAutomatic?;
      }
    }
  }

  lemma {:induction false} VetoedPrefix(trail: seq<Act>, n: nat)
    requires Vetoed(trail) && n <= |trail|
    ensures Vetoed(trail[..n])
    decreases |trail|
  {
    if n < |trail| {
      var m := |trail| - 1;
      VetoedPrefix(trail[..m], n);
      assert trail[..m][..n] == trail[..n];
    } else {
      assert trail[..n] == trail;
    }
  }

  /** In every run: between an automatic report and a later set, with resume disabled throughout,
      a clear succeeded; and if both are of one session, another session was reported between. */
  lemma NoSetWhileAutomatic(c: Config, inputs: seq<Input>, m: nat, n: nat)
    requires m < n < |Run(c, inputs).trail|
    requires Run(c, inputs).trail[m].FoundAutomatic? && Run(c, inputs).trail[n].AskedSet?
    requires forall k | m < k < n :: !EnablesResume(Run(c, inputs).trail[k])
    ensures var trail := Run(c, inputs).trail;
      && ClearedBetween(trail, m, n)
      && (trail[n].identity == trail[m].identity ==> OtherReportedBetween(trail, m, n, trail[m].identity))
  {
    var trail := Run(c, inputs).trail;
    RunIsVetoed(c, inputs);
    hide Run;
    VetoedPrefix(trail, n + 1);
    assert trail[..n + 1][..n] == trail[..n];
    SinceReport(trail[..n], m);
    if ClearedBetween(trail[..n], m, n) {
      var k :| m < k < n && k < |trail[..n]| && trail[..n][k].Cleared?;
      assert trail[k].Cleared?;
    }
    if OtherReportedBetween(trail[..n], m, n, trail[m].identity) {
      var k :| m < k < n && k < |trail[..n]| && trail[..n][k].FoundAutomatic?
               && trail[..n][k].identity != trail[m].identity;
      assert trail[k].FoundAutomatic?;
    }
  }

  // ----- What does not count as a report

  /** The first turn of a session with the vault on and resume off, up to the `show` that precedes
      its `set`. */
  function FirstTurn(stamp: Stamp, i: Identity): seq<Input>
  {
    [DoUpdate(stamp, Some(i), true, false)] + [DoResume(PreferencesAre(Some(Preferences(true, true, false))))]
    + [DoResume(IsFile(true))]
  }

  const OWNER := Config(true, false, Unset, Unset, false)

  lemma FirstTurnShows(stamp: Stamp, i: Identity)
    ensures var b := Run(OWNER, FirstTurn(stamp, i));
            && b.wait == AwaitShow(Turn(i, true, false)) && b.binding.None?
            && b.trail == [Took(Publish(i)), Policy(Turn(i, true, false)), AskedFile(i.path), FileIs(true),
                           AskedBinding]
  {
    hide Run;
    var first := DoUpdate(stamp, Some(i), true, false);
    var second := DoResume(PreferencesAre(Some(Preferences(true, true, false))));
    RunOneMore(OWNER, [], first);
    assert Run(OWNER, []) == FRESH by { NothingRun(); }
    assert [] + [first] == [first];
    RunOneMore(OWNER, [first], second);
    RunOneMore(OWNER, [first] + [second], DoResume(IsFile(true)));
  }

  lemma NothingRun()
    ensures Run(OWNER, []) == FRESH
  {
  }

  /** Exactly when a `set` follows the `show` that precedes it, for every reachable bridge, resume
      enabled or not, and whatever the observed binding says of automatic restore: over nothing; over
      a binding of this program's agents, if it is the tracked one; or with none tracked, if it
      relaunches the very session being published. */
  lemma SetAfterShowExactlyWhen(c: Config, inputs: seq<Input>, observed: Option<ServerBinding>)
    requires Run(c, inputs).wait.AwaitShow?
    ensures var b, after := Run(c, inputs), Run(c, inputs + [DoResume(BindingIs(observed))]);
            var i := b.wait.turn.identity;
            var issued := observed.None?
              || (observed.value.isGsd && observed.value.fromAgentHook
                  && if b.binding.None?
                     then observed.value.checkpoint == i.path && observed.value.launch == Launch.Resume(i.path, i.id)
                     else observed.value.checkpoint == b.binding.value.path
                          && observed.value.updatedAt == Some(b.binding.value.updatedAt));
            after.trail == b.trail + (if issued then [AskedSet(i)] else []) && (after.wait.AwaitSet? <==> issued)
  {
    RunOneMore(c, inputs, DoResume(BindingIs(observed)));
    hide Run;
  }

  /** In particular it can follow a `show` that reports the session's own binding as automatic while
      resume is disabled. */
  lemma SetAfterAutomaticShow(stamp: Stamp, i: Identity, generation: int)
    ensures var observed :=
              ServerBinding(true, true, i.path, i.cwd, Some(generation), Launch.Resume(i.path, i.id), Some(true));
            var b := Run(OWNER, FirstTurn(stamp, i) + [DoResume(BindingIs(Some(observed)))]);
            MatchesIdentity(i, observed) && |b.trail| == 6 && b.trail[5] == AskedSet(i)
            && b.trail[1] == Policy(Turn(i, true, false))
  {
    hide Run, FirstTurn;
    FirstTurnShows(stamp, i);
    var observed := ServerBinding(true, true, i.path, i.cwd, Some(generation), Launch.Resume(i.path, i.id), Some(true));
    SetAfterShowExactlyWhen(OWNER, FirstTurn(stamp, i), Some(observed));
  }
}
