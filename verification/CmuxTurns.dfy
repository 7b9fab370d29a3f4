/** What each turn of the drain must do: the act that is due after every other one, in every run, and
    what the bridge tracks and blocks, read from its trail alone. */
module CmuxTurns {
  import opened Wrappers
  import opened CmuxVault
  import opened CmuxPresence

  // ----- What a trail says

  datatype Record = Record(path: Path, cwd: Directory, updatedAt: int)

  /** The binding tracked since it was last set or found, until it was cleared. */
  function TrackedBy(trail: seq<Act>): Option<Record>
  {
    if trail == [] then None
    else
      match trail[|trail| - 1]
      case Tracks(b, _) => Some(Record(b.path, b.cwd, b.updatedAt))
      case Cleared(_) => None
      case _ => TrackedBy(trail[..|trail| - 1])
  }

  /** The identity of an automatic binding that is still to be cleared. */
  function UnsafeBy(trail: seq<Act>): Option<Identity>
  {
    if trail == [] then None
    else
      match trail[|trail| - 1]
      case Policy(t) => if t.resume then None else UnsafeBy(trail[..|trail| - 1])
      case Tracks(_, Some(i)) => Some(i)
      case Blocks(_) => None
      case _ => UnsafeBy(trail[..|trail| - 1])
  }

  /** The identity whose automatic binding was cleared, until resume is enabled. */
  function BlockedBy(trail: seq<Act>): Option<Identity>
  {
    if trail == [] then None
    else
      match trail[|trail| - 1]
      case Policy(t) => if t.resume then None else BlockedBy(trail[..|trail| - 1])
      case Blocks(_) => UnsafeBy(trail[..|trail| - 1])
      case _ => BlockedBy(trail[..|trail| - 1])
  }

  /** Clear the tracked binding, if there is one. */
  function ClearTracked(trail: seq<Act>): Option<Act>
  {
    var tracked := TrackedBy(trail);
    if tracked.Some? then Some(AskedClear(tracked.value.updatedAt)) else None
  }

  /** What a turn asks for when no unsafe binding is left: with both features off, to clear the
      tracked binding, or else to be shown what the server has; otherwise whether the session file
      exists. A blocked session asks for nothing as long as resume is disabled. */
  function Goal(trail: seq<Act>, t: Turn): Option<Act>
  {
    if !t.vault && !t.resume && TrackedBy(trail).Some? then ClearTracked(trail)
    else if !t.resume && BlockedBy(trail) == Some(t.identity) then None
    else if t.vault || t.resume then Some(AskedFile(t.identity.path))
    else Some(AskedBinding)
  }

  /** What is due after the last act. */
  function Due(trail: seq<Act>): Option<Act>
  {
    if trail == [] then None
    else
      match trail[|trail| - 1]
      case Took(EndSession) => ClearTracked(trail)
      case Policy(t) =>
        if t.resume || UnsafeBy(trail).None? then Goal(trail, t)
        else if TrackedBy(trail).Some? then ClearTracked(trail)
        else Some(Blocks(Some(t)))
      case FileIs(persisted) => if persisted then Some(AskedBinding) else ClearTracked(trail)
      case FoundAutomatic(i, g) => Some(Tracks(VaultBinding(i.path, i.cwd, g, false), Some(i)))
      case Tracks(_, unsafe) => if unsafe.Some? then ClearTracked(trail) else None
      case Cleared(after) => if after.ClearAutomaticThen? then Some(Blocks(after.pendingTurn)) else None
      case Blocks(turn) => if turn.Some? then Goal(trail, turn.value) else None
      case _ => None
  }

  /** Whatever is due comes next. */
  ghost predicate Honoured(trail: seq<Act>)
  {
    trail == []
    || (Honoured(trail[..|trail| - 1]) && Due(trail[..|trail| - 1]) in {None, Some(trail[|trail| - 1])})
  }

  lemma NextAct(trail: seq<Act>, a: Act)
    ensures Honoured(trail + [a]) <==> Honoured(trail) && Due(trail) in {None, Some(a)}
    ensures TrackedBy(trail + [a]) == match a case Tracks(b, _) => Some(Record(b.path, b.cwd, b.updatedAt))
                                              case Cleared(_) => None case _ => TrackedBy(trail)
    ensures UnsafeBy(trail + [a]) ==
            match a case Policy(t) => if t.resume then None else UnsafeBy(trail)
                    case Tracks(_, Some(i)) => Some(i) case Blocks(_) => None case _ => UnsafeBy(trail)
    ensures BlockedBy(trail + [a]) == match a case Policy(t) => if t.resume then None else BlockedBy(trail)
                                              case Blocks(_) => UnsafeBy(trail) case _ => BlockedBy(trail)
  {
    assert (trail + [a])[..|trail|] == trail;
  }

  // ----- What the bridge keeps

  function Kept(b: Option<VaultBinding>): Option<Record>
  {
    if b.Some? then Some(Record(b.value.path, b.value.cwd, b.value.updatedAt)) else None
  }

  /** The fields are what the trail says, but for the binding while the end of its presence is sent. */
  ghost predicate Told(b: Bridge)
  {
    && Honoured(b.trail) && UnsafeBy(b.trail) == b.unsafe && BlockedBy(b.trail) == b.blocked
    && TrackedBy(b.trail) == Kept(b.binding)
  }

  /** What is due is what the drain goes on to do. */
  ghost predicate TurnInv(b: Bridge)
  {
    match b.wait
    case AwaitFeed(FeedThenClear) => Told(b) && Due(b.trail) == ClearTracked(b.trail)
    case AwaitFeed(FeedThenPolicy(t)) => Told(b) && DueAt(b, t)
    case AwaitFeed(FeedThenForget(after)) => Forgetting(b) && Due(b.trail) == DueCleared(after)
    case AwaitFeed(FeedThenClearAutomatic(turn)) => Told(b) && ClearsAutomatic(b, turn)
    case AwaitFeed(FeedThenTrack(i, g)) => Told(b) && Due(b.trail) == DueFound(i, g)
    case _ => Told(b) && Due(b.trail).None?
  }

  ghost predicate Forgetting(b: Bridge)
  {
    Told(b.(binding := None))
  }

  function DueFound(i: Identity, g: int): Option<Act>
  {
    Some(Tracks(VaultBinding(i.path, i.cwd, g, false), Some(i)))
  }

  function DueCleared(after: AfterClear): Option<Act>
  {
    if after.ClearAutomaticThen? then Some(Blocks(after.pendingTurn)) else None
  }

  ghost predicate DueAt(b: Bridge, t: Turn)
  {
    Due(b.trail) == if t.resume || b.unsafe.None? then Goal(b.trail, t)
                    else if b.binding.Some? then ClearTracked(b.trail)
                    else Some(Blocks(Some(t)))
  }

  ghost predicate ClearsAutomatic(b: Bridge, turn: Option<Turn>)
  {
    Due(b.trail) == if b.binding.Some? then ClearTracked(b.trail) else Some(Blocks(turn))
  }

  lemma ProceedIsDue(b: Bridge, t: Turn)
    requires Told(b) && Due(b.trail) == Goal(b.trail, t)
    ensures TurnInv(Proceed(b, t))
  {
    hide Honoured, Due, TrackedBy, UnsafeBy, BlockedBy;
    if Goal(b.trail, t).Some? { NextAct(b.trail, Goal(b.trail, t).value); Undue(b.trail, Goal(b.trail, t).value); }
  }

  /** These acts leave nothing due. */
  lemma Undue(trail: seq<Act>, a: Act)
    ensures a.AskedFile? || a.AskedBinding? || a.AskedSet? || a.AskedClear? ==> Due(trail + [a]).None?
  {
  }

  lemma SendClearIsDue(b: Bridge, after: AfterClear)
    requires b.binding.Some? && Told(b) && Due(b.trail) == ClearTracked(b.trail)
    ensures TurnInv(SendClear(b, after))
  {
    hide Honoured, Due, TrackedBy, UnsafeBy, BlockedBy;
    NextAct(b.trail, AskedClear(b.binding.value.updatedAt));
    Undue(b.trail, AskedClear(b.binding.value.updatedAt));
  }

  lemma BlocksIsDue(b: Bridge, turn: Option<Turn>)
    requires Told(b) && b.binding.None? && Due(b.trail) == Some(Blocks(turn))
    ensures TurnInv(AfterCleared(b, ClearAutomaticThen(turn), true))
  {
    var b' := Note(b.(blocked := b.unsafe, unsafe := None), Blocks(turn));
    NextAct(b.trail, Blocks(turn));
    DueAfterBlocks(b.trail, turn);
    hide Honoured, Due, TrackedBy, UnsafeBy, BlockedBy, Proceed;
    if turn.Some? { ProceedIsDue(b', turn.value); }
  }

  lemma DueAfterBlocks(trail: seq<Act>, turn: Option<Turn>)
    ensures Due(trail + [Blocks(turn)]) == if turn.Some? then Goal(trail + [Blocks(turn)], turn.value) else None
  {
    hide Goal;
  }

  lemma IssueClearIsDue(b: Bridge)
    requires Told(b) && Due(b.trail) == ClearTracked(b.trail)
    ensures TurnInv(IssueClear(b, ClearThenLoop))
  {
    hide Honoured, Due, TrackedBy, UnsafeBy, BlockedBy;
    if b.binding.Some? { SendClearIsDue(b, ClearThenLoop); }
  }

  lemma IssueAutomaticIsDue(b: Bridge, turn: Option<Turn>)
    requires Told(b) && ClearsAutomatic(b, turn)
    ensures TurnInv(IssueClear(b, ClearAutomaticThen(turn)))
  {
    hide Honoured, Due, TrackedBy, UnsafeBy, BlockedBy, AfterCleared, SendClear;
    if b.binding.Some? { SendClearIsDue(b, ClearAutomaticThen(turn)); } else { BlocksIsDue(b, turn); }
  }

  lemma ClearAutomaticIsDue(b: Bridge, turn: Option<Turn>)
    requires Told(b) && ClearsAutomatic(b, turn)
    ensures TurnInv(ClearAutomatic(b, turn))
  {
    hide Honoured, Due, TrackedBy, UnsafeBy, BlockedBy, IssueClear;
    IssueAutomaticIsDue(b, turn);
  }

  lemma CheckUnsafeIsDue(b: Bridge, t: Turn)
    requires Told(b) && DueAt(b, t)
    ensures TurnInv(CheckUnsafe(b, t))
  {
    hide Honoured, Due, TrackedBy, UnsafeBy, BlockedBy, ClearAutomatic, Proceed, Goal;
    if !t.resume && b.unsafe.Some? { ClearAutomaticIsDue(b, Some(t)); } else { ProceedIsDue(b, t); }
  }

  lemma TrackAutomaticIsDue(b: Bridge, i: Identity, g: int)
    requires Told(b) && Due(b.trail) == DueFound(i, g)
    ensures TurnInv(TrackAutomatic(b, i, g))
  {
    var current := VaultBinding(i.path, i.cwd, g, false);
    NextAct(b.trail, Tracks(current, Some(i)));
    DueAfterTracking(b.trail, current, Some(i));
    hide Honoured, Due, TrackedBy, UnsafeBy, BlockedBy, ClearAutomatic;
    ClearAutomaticIsDue(Note(b.(binding := Some(current), unsafe := Some(i)), Tracks(current, Some(i))), None);
  }

  lemma DueAfterTracking(trail: seq<Act>, current: VaultBinding, unsafe: Option<Identity>)
    ensures Due(trail + [Tracks(current, unsafe)]) ==
            if unsafe.Some? then ClearTracked(trail + [Tracks(current, unsafe)]) else None
  {
    hide TrackedBy;
  }

  lemma ForgetIsDue(b: Bridge, after: AfterClear)
    requires Forgetting(b) && Due(b.trail) == DueCleared(after)
    ensures TurnInv(AfterCleared(b.(binding := None), after, true))
  {
    hide Honoured, Due, TrackedBy, UnsafeBy, BlockedBy;
    if after.ClearAutomaticThen? { BlocksIsDue(b.(binding := None), after.pendingTurn); }
  }

  /** What must be due to go on after `feed`, or after an `endPresence` that had nothing to end. */
  ghost predicate FedDue(b: Bridge, next: AfterFeed)
  {
    match next
    case FeedThenClear => Told(b) && Due(b.trail) == ClearTracked(b.trail)
    case FeedThenPolicy(t) => Told(b) && DueAt(b, t)
    case FeedThenForget(after) => Forgetting(b) && Due(b.trail) == DueCleared(after)
    case FeedThenClearAutomatic(turn) => Told(b) && ClearsAutomatic(b, turn)
    case FeedThenTrack(i, g) => Told(b) && Due(b.trail) == DueFound(i, g)
    case _ => Told(b) && Due(b.trail).None?
  }

  lemma AfterFedIsDue(b: Bridge, next: AfterFeed)
    requires FedDue(b, next)
    ensures TurnInv(AfterFed(b, next))
  {
    hide Honoured, Due, TrackedBy, UnsafeBy, BlockedBy;
    hide IssueClear, CheckUnsafe, AfterCleared, TrackAutomatic;
    match next
    case FeedThenClear => IssueClearIsDue(b);
    case FeedThenPolicy(t) => CheckUnsafeIsDue(b, t);
    case FeedThenForget(after) => ForgetIsDue(b, after);
    case FeedThenClearAutomatic(turn) => IssueAutomaticIsDue(b, turn);
    case FeedThenTrack(i, g) => TrackAutomaticIsDue(b, i, g);
    case FeedThenStart =>
    case FeedThenLoop =>
  }

  lemma EndPresenceIsDue(b: Bridge, next: AfterFeed)
    requires FedDue(b, next)
    ensures TurnInv(EndPresence(b, next))
  {
    hide Honoured, Due, TrackedBy, UnsafeBy, BlockedBy, AfterFed;
    AfterFedIsDue(b, next);
  }

  lemma OnPreferencesIsDue(c: Config, b: Bridge, i: Identity, prefs: Option<Preferences>)
    requires Told(b) && Due(b.trail).None?
    ensures TurnInv(OnPreferences(c, b, i, prefs))
  {
    hide VaultEnabled, ResumeConfigured, EndPresence, CheckUnsafe, Goal;
    var t := Turn(i, VaultEnabled(c, prefs), ResumeConfigured(c, prefs));
    var b' := ReadPolicy(b, t);
    NextAct(b.trail, Policy(t));
    DueAfterPolicy(b.trail, t);
    hide Honoured, Due, TrackedBy, UnsafeBy, BlockedBy;
    if t.vault { CheckUnsafeIsDue(b', t); } else { EndPresenceIsDue(b', FeedThenPolicy(t)); }
  }

  lemma DueAfterPolicy(trail: seq<Act>, t: Turn)
    ensures var next := trail + [Policy(t)];
            Due(next) == if t.resume || UnsafeBy(next).None? then Goal(next, t)
                         else if TrackedBy(next).Some? then ClearTracked(next)
                         else Some(Blocks(Some(t)))
  {
    hide Goal, TrackedBy, UnsafeBy;
  }

  lemma OnStatIsDue(b: Bridge, t: Turn, persisted: bool)
    requires Told(b) && Due(b.trail).None?
    ensures TurnInv(OnStat(b, t, persisted))
  {
    var b' := Note(b, FileIs(persisted));
    NextAct(b.trail, FileIs(persisted));
    assert Due(b'.trail) == if persisted then Some(AskedBinding) else ClearTracked(b'.trail) by { hide TrackedBy; }
    hide Honoured, Due, TrackedBy, UnsafeBy, BlockedBy, IssueClear;
    NextAct(b'.trail, AskedBinding);
    Undue(b'.trail, AskedBinding);
    if !persisted { IssueClearIsDue(b'); }
  }

  lemma FoundIsDue(b: Bridge, i: Identity, g: int)
    requires Told(b) && Due(b.trail).None?
    ensures Told(Note(b, FoundAutomatic(i, g))) && Due(Note(b, FoundAutomatic(i, g)).trail) == DueFound(i, g)
  {
    NextAct(b.trail, FoundAutomatic(i, g));
    hide Honoured, TrackedBy, UnsafeBy, BlockedBy;
  }

  lemma OnShowIsDue(b: Bridge, t: Turn, o: Option<ServerBinding>)
    requires Told(b) && Due(b.trail).None?
    ensures TurnInv(OnShow(b, t, o))
  {
    hide Honoured, Due, TrackedBy, UnsafeBy, BlockedBy, MayReplace;
    NextAct(b.trail, AskedSet(t.identity));
    Undue(b.trail, AskedSet(t.identity));
  }

  lemma OnSetIsDue(b: Bridge, t: Turn, reply: Option<ServerBinding>)
    requires Told(b) && Due(b.trail).None?
    ensures TurnInv(OnSet(b, t, reply))
  {
    hide Honoured, Due, TrackedBy, UnsafeBy, BlockedBy, EndPresence, MatchesIdentity;
    if reply.Some? && MatchesIdentity(t.identity, reply.value) {
      MatchHasGeneration(t.identity, reply.value);
      var g := reply.value.updatedAt.value;
      var current := VaultBinding(t.identity.path, t.identity.cwd, g, t.vault);
      FoundIsDue(b, t.identity, g);
      EndPresenceIsDue(Note(b, FoundAutomatic(t.identity, g)), FeedThenTrack(t.identity, g));
      NextAct(b.trail, Tracks(current, None));
      DueAfterTracking(b.trail, current, None);
    }
  }

  lemma MatchHasGeneration(i: Identity, o: ServerBinding)
    ensures MatchesIdentity(i, o) ==> o.updatedAt.Some?
  {
  }

  lemma OnPersistedShowIsDue(b: Bridge, i: Identity, o: Option<ServerBinding>)
    requires Told(b) && Due(b.trail).None?
    ensures TurnInv(OnPersistedShow(b, i, o))
  {
    hide Honoured, Due, TrackedBy, UnsafeBy, BlockedBy, TrackAutomatic, MatchesIdentity;
    if o.Some? && MatchesIdentity(i, o.value) {
      MatchHasGeneration(i, o.value);
      FoundIsDue(b, i, o.value.updatedAt.value);
      TrackAutomaticIsDue(Note(b, FoundAutomatic(i, o.value.updatedAt.value)), i, o.value.updatedAt.value);
    }
  }

  lemma OnClearedIsDue(b: Bridge, after: AfterClear, cleared: bool)
    requires Told(b) && Due(b.trail).None?
    ensures TurnInv(OnCleared(b, after, cleared))
  {
    NextAct(b.trail, Cleared(after));
    assert Due(b.trail + [Cleared(after)]) == DueCleared(after) by { hide TrackedBy, UnsafeBy; }
    hide Honoured, Due, TrackedBy, UnsafeBy, BlockedBy, EndPresence;
    EndPresenceIsDue(Note(b, Cleared(after)), FeedThenForget(after));
  }

  lemma ReplyIsDue(c: Config, b: Bridge, r: Reply)
    requires TurnInv(b)
    ensures TurnInv(OnReply(c, b, r))
  {
    hide Honoured, Due, TrackedBy, UnsafeBy, BlockedBy;
    hide OnPreferences, OnStat, OnSet, OnPersistedShow, OnShow, OnCleared, AfterFed;
    match (b.wait, r)
    case (AwaitPreferences(i), PreferencesAre(p)) => OnPreferencesIsDue(c, b, i, p);
    case (AwaitStat(t), _) => OnStatIsDue(b, t, r == IsFile(true));
    case (AwaitFeed(next), _) => AfterFedIsDue(b, next);
    case (AwaitMetadata(t, previous), _) =>
    case (AwaitClear(after), ClearedIs(cleared)) => OnClearedIsDue(b, after, cleared);
    case (AwaitPersistedShow(i), BindingIs(o)) => OnPersistedShowIsDue(b, i, o);
    case (AwaitShow(t), BindingIs(o)) => OnShowIsDue(b, t, o);
    case (AwaitSet(t), BindingIs(o)) => OnSetIsDue(b, t, o);
    case _ =>
  }

  lemma TakeTurnIsDue(b: Bridge)
    requires Told(b) && Due(b.trail).None?
    ensures TurnInv(TakeTurn(b))
  {
    NextAct(b.trail, Took(b.pending));
    DueAfterTaking(b.trail, b.pending);
    hide Honoured, Due, TrackedBy, UnsafeBy, BlockedBy, EndPresence;
    if b.pending == EndSession {
      EndPresenceIsDue(Note(b.(pending := Empty, taken := b.taken + [b.pending]), Took(b.pending)), FeedThenClear);
    }
  }

  lemma DueAfterTaking(trail: seq<Act>, slot: Slot)
    ensures Due(trail + [Took(slot)]) == if slot == EndSession then ClearTracked(trail + [Took(slot)]) else None
  {
    hide TrackedBy;
  }

  lemma SubmitIsDue(b: Bridge, slot: Slot)
    requires TurnInv(b) && (!b.running ==> b.wait == NotRunning)
    ensures TurnInv(Submit(b, slot))
  {
    hide Honoured, Due, TrackedBy, UnsafeBy, BlockedBy, TakeTurn;
    var b' := b.(pending := slot, submitted := b.submitted + [slot]);
    if !b.running { TakeTurnIsDue(b'.(running := true, drains := b'.drains + 1)); }
  }

  lemma StepIsDue(c: Config, b: Bridge, i: Input)
    requires WakeInv(c, b) && TurnInv(b)
    ensures TurnInv(Step(c, b, i))
  {
    hide Honoured, Due, TrackedBy, UnsafeBy, BlockedBy, Submit, OnReply, TakeTurn, SlotInv;
    match i
    case DoUpdate(stamp, identity, hasUI, refresh) =>
      SubmitIsDue(b.(lastIdentity := Some(stamp)), if identity.Some? then Publish(identity.value) else EndSession);
    case DoStop => SubmitIsDue(b.(stopped := true), EndSession);
    case DoResume(reply) =>
      match b.wait {
        case NotRunning =>
        case AtLoop => TakeTurnIsDue(b);
        case Finishing => TakeTurnIsDue(b.(running := true, wait := NotRunning, drains := 1));
        case _ => ReplyIsDue(c, b, reply);
      }
  }

  lemma {:induction false} RunIsDue(c: Config, inputs: seq<Input>)
    ensures TurnInv(Run(c, inputs))
  {
    if inputs != [] {
      var n := |inputs| - 1;
      RunKeepsWake(c, inputs[..n]);
      RunIsDue(c, inputs[..n]);
      StepIsDue(c, Run(c, inputs[..n]), inputs[n]);
      hide Step, TurnInv;
    }
  }

  // ----- What every run does

  lemma {:induction false} HonouredAt(trail: seq<Act>, m: nat)
    requires Honoured(trail) && m + 1 < |trail|
    ensures Due(trail[..m + 1]) in {None, Some(trail[m + 1])}
    decreases |trail|
  {
    var n := |trail| - 1;
    if m + 1 < n {
      HonouredAt(trail[..n], m);
      assert trail[..n][..m + 1] == trail[..m + 1];
    } else {
      assert trail[..n] == trail[..m + 1];
    }
    hide Due;
  }

  /** In every run, what is due after an act is the very next one; it is still to come only while the
      end of a presence is being sent. */
  lemma DutiesAreDone(c: Config, inputs: seq<Input>, m: nat)
    requires m < |Run(c, inputs).trail| && Due(Run(c, inputs).trail[..m + 1]).Some?
    ensures var b := Run(c, inputs);
            var due := Due(b.trail[..m + 1]).value;
            if m + 1 < |b.trail| then b.trail[m + 1] == due else b.wait.AwaitFeed?
  {
    var b := Run(c, inputs);
    RunIsDue(c, inputs);
    hide Run, Due;
    if m + 1 < |b.trail| { HonouredAt(b.trail, m); } else { assert b.trail[..m + 1] == b.trail; }
  }

  /** In every run, the fields are what the trail says; a cleared binding is given up at the latest
      when the end of its presence has been sent. */
  lemma FieldsAreTold(c: Config, inputs: seq<Input>)
    ensures var b := Run(c, inputs);
            && b.unsafe == UnsafeBy(b.trail) && b.blocked == BlockedBy(b.trail)
            && (Kept(b.binding) == TrackedBy(b.trail)
                || (TrackedBy(b.trail).None? && b.wait.AwaitFeed? && b.wait.next.FeedThenForget?))
  {
    RunIsDue(c, inputs);
    hide Run, Honoured, Due, TrackedBy, UnsafeBy, BlockedBy;
  }

  /** The bindings that are to go: when a session ends; when both features are off; when the session
      file does not exist; and when an automatic one was found. A clear of the tracked generation is
      then the next thing asked for. */
  lemma TrackedIsCleared(c: Config, inputs: seq<Input>, m: nat)
    requires m + 1 < |Run(c, inputs).trail| && TrackedBy(Run(c, inputs).trail[..m + 1]).Some?
    requires match Run(c, inputs).trail[m]
             case Took(slot) => slot == EndSession
             case Policy(t) => !t.vault && !t.resume
             case FileIs(persisted) => !persisted
             case Tracks(_, unsafe) => unsafe.Some?
             case _ => false
    ensures var trail := Run(c, inputs).trail;
            trail[m + 1] == AskedClear(TrackedBy(trail[..m + 1]).value.updatedAt)
  {
    var trail := Run(c, inputs).trail;
    hide Run;
    assert trail[..m + 1][|trail[..m + 1]| - 1] == trail[m];
    assert Due(trail[..m + 1]) == ClearTracked(trail[..m + 1]) by { hide TrackedBy; }
    DutiesAreDone(c, inputs, m);
  }

  // ----- What each input does, in every run

  /** The policy of a turn, from the environment and the preferences. */
  lemma PolicyIsRead(c: Config, inputs: seq<Input>, prefs: Option<Preferences>)
    requires Run(c, inputs).wait.AwaitPreferences?
    ensures var b, after := Run(c, inputs), Run(c, inputs + [DoResume(PreferencesAre(prefs))]);
            var on := prefs.Some? && prefs.value.enabled;
            var vault := on && (c.vaultFlag == One || (c.vaultFlag == Unset && prefs.value.vault))
                         && c.owner && !c.externalBridge && !c.injected;
            var resume := on && (c.resumeFlag == One || (c.resumeFlag == Unset && prefs.value.resume));
            b.trail + [Policy(Turn(b.wait.identity, vault, resume))] <= after.trail
  {
    RunOneMore(c, inputs, DoResume(PreferencesAre(prefs)));
    hide Run, CheckUnsafe, EndPresence;
  }

  /** What a session file that exists, or does not, comes to. */
  lemma FileIsRead(c: Config, inputs: seq<Input>, reply: Reply)
    requires Run(c, inputs).wait.AwaitStat?
    ensures var b, after := Run(c, inputs), Run(c, inputs + [DoResume(reply)]);
            b.trail + [FileIs(reply == IsFile(true))] <= after.trail
  {
    RunOneMore(c, inputs, DoResume(reply));
    hide Run, IssueClear;
  }

  /** The server's binding is that of the identity, in every field the bridge looks at. */
  predicate Is(i: Identity, o: Option<ServerBinding>)
  {
    o.Some? && o.value.isGsd && o.value.fromAgentHook && o.value.checkpoint == i.path && o.value.cwd == i.cwd
    && o.value.updatedAt.Some? && o.value.launch == Launch.Resume(i.path, i.id)
  }

  /** A `set` is accepted if the reply is the binding asked for, and says whether cmux restores it
      automatically; when it does although resume is disabled, an automatic binding is found. Any
      other reply ends the turn with nothing changed. */
  lemma SetIsAnswered(c: Config, inputs: seq<Input>, reply: Option<ServerBinding>)
    requires Run(c, inputs).wait.AwaitSet?
    ensures var b, after := Run(c, inputs), Run(c, inputs + [DoResume(BindingIs(reply))]);
            var t := b.wait.turn;
            var i := t.identity;
            if Is(i, reply) && reply.value.autoResume == Some(true) && !t.resume
            then b.trail + [FoundAutomatic(i, reply.value.updatedAt.value)] <= after.trail
            else if Is(i, reply) && reply.value.autoResume.Some?
            then
              after.trail == b.trail + [Tracks(VaultBinding(i.path, i.cwd, reply.value.updatedAt.value, t.vault), None)]
            else after == b.(wait := AtLoop)
  {
    RunOneMore(c, inputs, DoResume(BindingIs(reply)));
    hide Run, AfterFed;
  }

  /** With both features off, only the session's own automatic binding is found. */
  lemma ShowIsAnswered(c: Config, inputs: seq<Input>, reply: Option<ServerBinding>)
    requires Run(c, inputs).wait.AwaitPersistedShow?
    ensures var b, after := Run(c, inputs), Run(c, inputs + [DoResume(BindingIs(reply))]);
            var i := b.wait.identity;
            if Is(i, reply) && reply.value.autoResume == Some(true)
            then b.trail + [FoundAutomatic(i, reply.value.updatedAt.value)] <= after.trail
            else after == b.(wait := AtLoop)
  {
    RunOneMore(c, inputs, DoResume(BindingIs(reply)));
    hide Run, ClearAutomatic;
  }

  /** A clear that succeeded is followed up; one that was declined, or failed, ends the turn, and
      leaves the binding tracked for a later update. */
  lemma ClearIsAnswered(c: Config, inputs: seq<Input>, reply: Reply)
    requires Run(c, inputs).wait.AwaitClear?
    ensures var b, after := Run(c, inputs), Run(c, inputs + [DoResume(reply)]);
            if reply == ClearedIs(true) then b.trail + [Cleared(b.wait.after)] <= after.trail
            else after == b.(wait := AtLoop, lastIdentity := after.lastIdentity)
  {
    RunOneMore(c, inputs, DoResume(reply));
    hide Run, EndPresence;
  }

  /** Which updates are taken up, and as what. */
  lemma UpdateIsTaken(c: Config, inputs: seq<Input>, stamp: Stamp, identity: Option<Identity>, hasUI: bool,
                      refresh: bool)
    ensures var b, after := Run(c, inputs), Run(c, inputs + [DoUpdate(stamp, identity, hasUI, refresh)]);
            var slot := if identity.Some? then Publish(identity.value) else EndSession;
            if !b.stopped && hasUI && c.owner && (refresh || b.lastIdentity != Some(stamp))
            then after.submitted == b.submitted + [slot] && after.lastIdentity == Some(stamp)
            else after == b
  {
    RunOneMore(c, inputs, DoUpdate(stamp, identity, hasUI, refresh));
    hide Run;
  }

  /** A first stop of the owner ends the session; nothing else does. */
  lemma StopIsTaken(c: Config, inputs: seq<Input>)
    ensures var b, after := Run(c, inputs), Run(c, inputs + [DoStop]);
            after.stopped && after.submitted == b.submitted + if c.owner && !b.stopped then [EndSession] else []
  {
    RunOneMore(c, inputs, DoStop);
    hide Run;
  }

  /** Whatever a step announces or asks for is waited for, and nothing recorded is ever rewritten. */
  lemma AskingWaits(c: Config, inputs: seq<Input>, input: Input)
    ensures var b, after := Run(c, inputs), Run(c, inputs + [input]);
            && b.log <= after.log && (after.log != b.log ==> after.wait.AwaitFeed?)
            && b.trail <= after.trail && (after.trail != b.trail ==> Waiting(after))
  {
    RunOneMore(c, inputs, input);
    RunKeepsWake(c, inputs);
    var b := Run(c, inputs);
    hide Run, EndPresence, OnReply, Waiting, SlotInv;
    match input
    case DoUpdate(stamp, identity, hasUI, refresh) =>
      var slot := if identity.Some? then Publish(identity.value) else EndSession;
      TakingWaits(b.(lastIdentity := Some(stamp), pending := slot, submitted := b.submitted + [slot],
                     running := true, drains := b.drains + 1));
    case DoStop =>
      TakingWaits(b.(stopped := true, pending := EndSession, submitted := b.submitted + [EndSession],
                     running := true, drains := b.drains + 1));
    case DoResume(_) =>
      TakingWaits(b);
      TakingWaits(b.(running := true, wait := NotRunning, drains := b.drains));
  }

  lemma TakingWaits(b: Bridge)
    ensures var r := TakeTurn(b);
            && b.log <= r.log && (r.log != b.log ==> r.wait.AwaitFeed?)
            && b.trail <= r.trail && (r.trail != b.trail ==> Waiting(r))
  {
    hide EndPresence;
  }

  /** After the metadata files: the end of the presence of another session comes first, and then, or
      at once, the start of this one's, if the vault is on. */
  lemma MetadataIsFollowed(c: Config, inputs: seq<Input>, reply: Reply)
    requires Run(c, inputs).wait.AwaitMetadata?
    ensures var b, after := Run(c, inputs), Run(c, inputs + [DoResume(reply)]);
            var previous, path := b.wait.previous, b.wait.turn.identity.path;
            if !b.wait.turn.vault then after == b.(wait := AtLoop)
            else if Present(previous) && previous.value.path != path
            then after == b.(wait := AwaitFeed(FeedThenStart), log := b.log + [SessionEnd(previous.value.path)])
            else after == b.(wait := AwaitFeed(FeedThenLoop), log := b.log + [SessionStart(path)])
  {
    RunOneMore(c, inputs, DoResume(reply));
    RunKeepsPresence(c, inputs);
    hide Run, Bracketed, OpenPath;
  }

  // ----- A drain ends

  /** How many replies a turn can still take, at most. */
  function ForClear(after: AfterClear): nat
  {
    if after.ClearAutomaticThen? && after.pendingTurn.Some? then 11 else 4
  }

  function ForFeed(next: AfterFeed): nat
  {
    match next
    case FeedThenPolicy(_) => 13
    case FeedThenClearAutomatic(turn) => if turn.Some? then 12 else 5
    case FeedThenForget(after) => if after.ClearAutomaticThen? && after.pendingTurn.Some? then 10 else 3
    case FeedThenTrack(_, _) => 6
    case FeedThenClear => 5
    case FeedThenStart => 4
    case FeedThenLoop => 3
  }

  function ForWait(wait: Wait): nat
  {
    match wait
    case NotRunning => 0
    case Finishing => 1
    case AtLoop => 2
    case AwaitMetadata(_, _) => 5
    case AwaitPersistedShow(_) => 7
    case AwaitSet(_) => 7
    case AwaitShow(_) => 8
    case AwaitStat(_) => 9
    case AwaitPreferences(_) => 14
    case AwaitClear(after) => ForClear(after)
    case AwaitFeed(next) => ForFeed(next)
  }

  function Remaining(b: Bridge): nat
  {
    ForWait(b.wait) + if b.pending == Empty then 0 else 14
  }

  lemma ProceedingEnds(b: Bridge, t: Turn)
    ensures ForWait(Proceed(b, t).wait) <= 9
  {
  }

  lemma ClearingEnds(b: Bridge, after: AfterClear, cleared: bool)
    ensures ForWait(AfterCleared(b, after, cleared).wait) <= 9
    ensures after.ClearThenLoop? || after.pendingTurn.None? || !cleared ==>
              AfterCleared(b, after, cleared).wait == AtLoop
    ensures ForWait(IssueClear(b, after).wait) <= ForClear(after)
  {
    hide Proceed;
    if after.ClearAutomaticThen? && after.pendingTurn.Some? {
      ProceedingEnds(Note(b.(blocked := b.unsafe, unsafe := None), Blocks(after.pendingTurn)), after.pendingTurn.value);
    }
  }

  lemma AutomaticEnds(b: Bridge, turn: Option<Turn>)
    ensures ForWait(ClearAutomatic(b, turn).wait) <= ForFeed(FeedThenClearAutomatic(turn))
    ensures !Present(b.binding) ==> ForWait(ClearAutomatic(b, turn).wait) <= ForClear(ClearAutomaticThen(turn))
  {
    hide IssueClear;
    ClearingEnds(b, ClearAutomaticThen(turn), true);
  }

  lemma ForgettingEnds(b: Bridge, after: AfterClear)
    requires b.binding.None?
    ensures ForWait(AfterCleared(b, after, true).wait) < ForFeed(FeedThenForget(after))
  {
    hide Proceed;
    if after.ClearAutomaticThen? && after.pendingTurn.Some? {
      ProceedingEnds(Note(b.(blocked := b.unsafe, unsafe := None), Blocks(after.pendingTurn)), after.pendingTurn.value);
    }
  }

  lemma FeedingEnds(b: Bridge, next: AfterFeed)
    ensures ForWait(AfterFed(b, next).wait) < ForFeed(next)
  {
    hide IssueClear, AfterCleared, ClearAutomatic, Proceed;
    match next
    case FeedThenClear => ClearingEnds(b, ClearThenLoop, true);
    case FeedThenForget(after) => ForgettingEnds(b.(binding := None), after);
    case FeedThenClearAutomatic(turn) => ClearingEnds(b, ClearAutomaticThen(turn), true);
    case FeedThenPolicy(t) =>
      AutomaticEnds(b, Some(t));
      ProceedingEnds(b, t);
    case FeedThenTrack(i, g) =>
      var current := VaultBinding(i.path, i.cwd, g, false);
      AutomaticEnds(Note(b.(binding := Some(current), unsafe := Some(i)), Tracks(current, Some(i))), None);
    case FeedThenStart =>
    case FeedThenLoop =>
  }

  lemma EndingEnds(b: Bridge, next: AfterFeed)
    ensures ForWait(EndPresence(b, next).wait) <= ForFeed(next)
  {
    hide AfterFed;
    FeedingEnds(b, next);
  }

  lemma TakingEnds(b: Bridge)
    ensures ForWait(TakeTurn(b).wait) <= (if b.pending == Empty then 1 else 14) && TakeTurn(b).pending == Empty
  {
    hide EndPresence;
    EndingEnds(Note(b.(pending := Empty, taken := b.taken + [b.pending]), Took(b.pending)), FeedThenClear);
  }

  lemma TrackingEnds(b: Bridge, i: Identity, g: int)
    ensures ForWait(TrackAutomatic(b, i, g).wait) <= 5
  {
    hide ClearAutomatic;
    var current := VaultBinding(i.path, i.cwd, g, false);
    AutomaticEnds(Note(b.(binding := Some(current), unsafe := Some(i)), Tracks(current, Some(i))), None);
  }

  lemma PolicyEnds(c: Config, b: Bridge, i: Identity, prefs: Option<Preferences>)
    ensures ForWait(OnPreferences(c, b, i, prefs).wait) <= 13
  {
    hide EndPresence, ClearAutomatic, Proceed, VaultEnabled, ResumeConfigured;
    var t := Turn(i, VaultEnabled(c, prefs), ResumeConfigured(c, prefs));
    EndingEnds(ReadPolicy(b, t), FeedThenPolicy(t));
    AutomaticEnds(ReadPolicy(b, t), Some(t));
    ProceedingEnds(ReadPolicy(b, t), t);
  }

  lemma SettingEnds(b: Bridge, t: Turn, reply: Option<ServerBinding>)
    ensures ForWait(OnSet(b, t, reply).wait) <= 6
  {
    hide EndPresence, MatchesIdentity;
    if reply.Some? && reply.value.updatedAt.Some? {
      var g := reply.value.updatedAt.value;
      EndingEnds(Note(b, FoundAutomatic(t.identity, g)), FeedThenTrack(t.identity, g));
    }
    if reply.Some? { MatchHasGeneration(t.identity, reply.value); }
  }

  lemma FindingEnds(b: Bridge, i: Identity, reply: Option<ServerBinding>)
    ensures ForWait(OnPersistedShow(b, i, reply).wait) <= 5
  {
    hide TrackAutomatic, MatchesIdentity;
    if reply.Some? && reply.value.updatedAt.Some? {
      var g := reply.value.updatedAt.value;
      TrackingEnds(Note(b, FoundAutomatic(i, g)), i, g);
    }
    if reply.Some? { MatchHasGeneration(i, reply.value); }
  }

  lemma ClearedEnds(b: Bridge, after: AfterClear, cleared: bool)
    ensures ForWait(OnCleared(b, after, cleared).wait) < ForClear(after)
  {
    hide EndPresence, AfterCleared;
    EndingEnds(Note(b, Cleared(after)), FeedThenForget(after));
    ClearingEnds(b.(lastIdentity := None), after, false);
  }

  lemma AnsweringEnds(c: Config, b: Bridge, r: Reply)
    requires b.wait != NotRunning && b.wait != AtLoop && b.wait != Finishing
    ensures ForWait(OnReply(c, b, r).wait) < ForWait(b.wait)
  {
    hide AfterFed, IssueClear, OnPreferences, OnSet, OnPersistedShow, OnCleared;
    match (b.wait, r)
    case (AwaitPreferences(i), PreferencesAre(p)) => PolicyEnds(c, b, i, p);
    case (AwaitStat(t), _) => ClearingEnds(Note(b, FileIs(false)), ClearThenLoop, true);
    case (AwaitFeed(next), _) => FeedingEnds(b, next);
    case (AwaitClear(after), ClearedIs(cleared)) => ClearedEnds(b, after, cleared);
    case (AwaitPersistedShow(i), BindingIs(o)) => FindingEnds(b, i, o);
    case (AwaitSet(t), BindingIs(o)) => SettingEnds(b, t, o);
    case _ =>
  }

  /** Every reply, also a failure, brings the drain nearer to its end, until the next update. */
  lemma ReplyProceeds(c: Config, b: Bridge, reply: Reply)
    requires b.wait != NotRunning
    ensures Remaining(Resumed(c, b, reply)) < Remaining(b)
  {
    hide TakeTurn, OnReply, ForWait;
    match b.wait {
      case AtLoop => TakingEnds(b); WaitCosts();
      case Finishing => TakingEnds(b.(running := true, wait := NotRunning, drains := b.drains)); WaitCosts();
      case _ => AnsweringEnds(c, b, reply);
    }
  }

  lemma WaitCosts()
    ensures ForWait(NotRunning) == 0 && ForWait(Finishing) == 1 && ForWait(AtLoop) == 2
  {
  }

  /** Once no more updates come, thirty replies, whatever they are, end the drain. */
  lemma {:induction false} DrainEnds(c: Config, inputs: seq<Input>, replies: seq<Input>)
    requires forall r | r in replies :: r.DoResume?
    ensures var b, after := Run(c, inputs), Run(c, inputs + replies);
            Remaining(after) == 0 || Remaining(after) + |replies| <= Remaining(b)
    ensures |replies| >= 30 ==> !Run(c, inputs + replies).running && Run(c, inputs + replies).pending == Empty
  {
    hide Run, Resumed, Remaining;
    if replies == [] {
      assert inputs + replies == inputs;
    } else {
      var n := |replies| - 1;
      assert replies[n] in replies && forall r | r in replies[..n] :: r in replies;
      DrainEnds(c, inputs, replies[..n]);
      RunOneMore(c, inputs + replies[..n], replies[n]);
      assert inputs + replies[..n] + [replies[n]] == inputs + replies;
      var b := Run(c, inputs + replies[..n]);
      RunKeepsWake(c, inputs + replies[..n]);
      if b.wait != NotRunning { ReplyProceeds(c, b, replies[n].reply); } else { RestStays(c, b, replies[n].reply); }
    }
    RemainingIsBounded(Run(c, inputs));
    RunKeepsWake(c, inputs + replies);
    NothingRemains(c, Run(c, inputs + replies));
  }

  lemma RestStays(c: Config, b: Bridge, reply: Reply)
    requires b.wait == NotRunning && WakeInv(c, b)
    ensures Resumed(c, b, reply) == b && Remaining(b) == 0
  {
    hide Subsequence;
  }

  lemma RemainingIsBounded(b: Bridge)
    ensures Remaining(b) <= 28
  {
  }

  lemma NothingRemains(c: Config, b: Bridge)
    requires WakeInv(c, b)
    ensures Remaining(b) == 0 ==> !b.running && b.pending == Empty
  {
    hide Subsequence;
  }
}
