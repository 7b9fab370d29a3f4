/** What every interleaving of updates, a stop and replies keeps true of the cmux bridge:
    no update is lost, and presence events are well bracketed. */
module CmuxPresence {
  import opened Wrappers
  import opened CmuxVault

  // ----- Runs

  /** What can happen next; replies are arbitrary, so the server is unconstrained here. */
  datatype Input =
    | DoUpdate(stamp: Stamp, identity: Option<Identity>, hasUI: bool, refresh: bool)
    | DoStop
    | DoResume(reply: Reply)

  function Step(c: Config, b: Bridge, i: Input): Bridge
  {
    match i
    case DoUpdate(stamp, identity, hasUI, refresh) => Update(c, b, stamp, identity, hasUI, refresh)
    case DoStop => Stop(c, b)
    case DoResume(reply) => Resumed(c, b, reply)
  }

  function Run(c: Config, inputs: seq<Input>): Bridge
  {
    if inputs == [] then FRESH
    else Step(c, Run(c, inputs[..|inputs| - 1]), inputs[|inputs| - 1])
  }

  lemma RunOneMore(c: Config, inputs: seq<Input>, i: Input)
    ensures Run(c, inputs + [i]) == Step(c, Run(c, inputs), i)
  {
    assert (inputs + [i])[..|inputs|] == inputs;
  }

  // ----- No lost wake-up

  ghost predicate Subsequence<T>(a: seq<T>, b: seq<T>)
  {
    a == [] ||
    (b != [] &&
     (Subsequence(a, b[..|b| - 1])
      || (a[|a| - 1] == b[|b| - 1] && Subsequence(a[..|a| - 1], b[..|b| - 1]))))
  }

  lemma SubsequenceSkips<T>(a: seq<T>, b: seq<T>, x: T)
    requires Subsequence(a, b)
    ensures Subsequence(a, b + [x])
  {
    assert (b + [x])[..|b|] == b;
  }

  lemma SubsequenceTakes<T>(a: seq<T>, b: seq<T>, x: T)
    requires Subsequence(a, b)
    ensures Subsequence(a + [x], b + [x])
  {
    assert (b + [x])[..|b|] == b && (a + [x])[..|a|] == a;
  }

  /** What was submitted before the slot's present content. */
  function Passed(b: Bridge): seq<Slot>
  {
    if b.pending == Empty || b.submitted == [] then b.submitted else b.submitted[..|b.submitted| - 1]
  }

  ghost predicate SlotInv(b: Bridge)
  {
    && Subsequence(b.taken, Passed(b))
    && (b.pending != Empty ==> b.submitted != [] && b.submitted[|b.submitted| - 1] == b.pending)
    && (b.pending == Empty && b.submitted != [] ==>
          b.taken != [] && b.taken[|b.taken| - 1] == b.submitted[|b.submitted| - 1])
  }

  ghost predicate WakeInv(c: Config, b: Bridge)
  {
    && SlotInv(b)
    && (b.running <==> b.wait != NotRunning)
    && b.drains == (if b.running then 1 else 0)
    && (!b.running ==> b.pending == Empty)
    && (b.stopped && c.owner ==> StopSubmitted(b))
  }

  ghost predicate StopSubmitted(b: Bridge)
  {
    b.submitted != [] && b.submitted[|b.submitted| - 1] == EndSession
  }

  lemma TakingKeepsSlot(b: Bridge)
    requires SlotInv(b) && b.pending != Empty
    ensures SlotInv(b.(pending := Empty, taken := b.taken + [b.pending]))
  {
    hide Subsequence;
    PassedIsAllButPending(b);
    SubsequenceTakes(b.taken, Passed(b), b.pending);
  }

  lemma PassedIsAllButPending(b: Bridge)
    requires SlotInv(b) && b.pending != Empty
    ensures b.submitted == Passed(b) + [b.pending]
  {
    hide Subsequence;
  }

  lemma TakeTurnKeepsSlot(c: Config, b: Bridge)
    requires SlotInv(b) && b.running && b.drains == 1 && (b.stopped && c.owner ==> StopSubmitted(b))
    ensures WakeInv(c, TakeTurn(b))
  {
    hide Subsequence, EndPresence;
    if b.pending != Empty { TakingKeepsSlot(b); }
  }

  lemma SubmittingKeepsSlot(b: Bridge, slot: Slot)
    requires SlotInv(b) && slot != Empty
    ensures SlotInv(b.(pending := slot, submitted := b.submitted + [slot]))
  {
    hide Subsequence;
    assert Passed(b.(pending := slot, submitted := b.submitted + [slot])) == b.submitted;
    if b.pending != Empty {
      SubsequenceSkips(b.taken, Passed(b), b.pending);
      PassedIsAllButPending(b);
    }
  }

  lemma SubmitKeepsSlot(c: Config, b: Bridge, slot: Slot)
    requires slot != Empty && (b.stopped ==> slot == EndSession)
    requires SlotInv(b) && (b.running <==> b.wait != NotRunning) && b.drains == (if b.running then 1 else 0)
    ensures WakeInv(c, Submit(b, slot))
  {
    hide Subsequence, TakeTurn;
    SubmittingKeepsSlot(b, slot);
    var b' := b.(pending := slot, submitted := b.submitted + [slot]);
    if !b'.running {
      TakeTurnKeepsSlot(c, b'.(running := true, drains := b'.drains + 1));
    }
  }

  lemma StepKeepsWake(c: Config, b: Bridge, i: Input)
    requires WakeInv(c, b)
    ensures WakeInv(c, Step(c, b, i))
  {
    hide Subsequence, TakeTurn, Submit;
    match i
    case DoUpdate(stamp, identity, hasUI, refresh) =>
      if !(b.stopped || !hasUI || !c.owner || (!refresh && b.lastIdentity == Some(stamp))) {
        SubmitKeepsSlot(c, b.(lastIdentity := Some(stamp)),
                        if identity.Some? then Publish(identity.value) else EndSession);
      }
    case DoStop =>
      if !b.stopped && c.owner {
        SubmitKeepsSlot(c, b.(stopped := true), EndSession);
      }
    case DoResume(reply) =>
      match b.wait {
        case NotRunning =>
        case AtLoop => TakeTurnKeepsSlot(c, b);
        case Finishing =>
          var b' := b.(running := false, wait := NotRunning, drains := b.drains - 1);
          if b.pending != Empty { TakeTurnKeepsSlot(c, b'.(running := true, drains := 1)); }
        case _ => hide OnReply;
      }
  }

  lemma {:induction false} RunKeepsWake(c: Config, inputs: seq<Input>)
    ensures WakeInv(c, Run(c, inputs))
  {
    if inputs != [] {
      var n := |inputs| - 1;
      RunKeepsWake(c, inputs[..n]);
      StepKeepsWake(c, Run(c, inputs[..n]), inputs[n]);
    }
  }

  // ----- Presence

  /** The session path announced as present by the events so far. */
  function OpenPath(log: seq<Event>): Option<Path>
  {
    if log == [] then None
    else
      match log[|log| - 1]
      case SessionStart(p) => Some(p)
      case SessionEnd(_) => None
  }

  /** A start announces a path when none, or the same one, is open; an end closes the open path. */
  ghost predicate Bracketed(log: seq<Event>)
  {
    log == [] ||
    (Bracketed(log[..|log| - 1])
     && match log[|log| - 1]
        case SessionStart(p) => OpenPath(log[..|log| - 1]) in {None, Some(p)}
        case SessionEnd(p) => OpenPath(log[..|log| - 1]) == Some(p))
  }

  function PresentPath(b: Option<VaultBinding>): Option<Path>
  {
    if Present(b) then Some(b.value.path) else None
  }

  ghost predicate Announced(b: Bridge, open: Option<Path>)
  {
    Bracketed(b.log) && OpenPath(b.log) == open
  }

  lemma EmitKeeps(b: Bridge, e: Event)
    requires Bracketed(b.log)
    requires match e case SessionStart(p) => OpenPath(b.log) in {None, Some(p)}
                     case SessionEnd(p) => OpenPath(b.log) == Some(p)
    ensures Announced(Emit(b, e), match e case SessionStart(p) => Some(p)
                                         case SessionEnd(_) => None)
  {
    assert (b.log + [e])[..|b.log|] == b.log;
  }

  /** Without the vault flag, the presence has been ended before anything else is done. */
  ghost predicate TurnOk(b: Bridge, t: Turn)
  {
    !t.vault ==> !Present(b.binding)
  }

  ghost predicate Settled(b: Bridge)
  {
    Announced(b, PresentPath(b.binding))
  }

  /** Which path is announced, wherever the drain stands. */
  ghost predicate PresenceInv(b: Bridge)
  {
    match b.wait
    case AwaitMetadata(t, previous) =>
      && Announced(b, PresentPath(previous))
      && b.binding.Some? && b.binding.value.path == t.identity.path && b.binding.value.vaultEnabled == t.vault
      && (!t.vault ==> !Present(previous))
    case AwaitFeed(FeedThenStart) => Announced(b, None) && Present(b.binding)
    case AwaitFeed(FeedThenLoop) => Settled(b)
    case AwaitFeed(_) => Settled(b) && !Present(b.binding)
    case AwaitClear(ClearAutomaticThen(_)) => Settled(b) && !Present(b.binding)
    case AwaitPersistedShow(_) => Settled(b) && b.binding.None?
    case AwaitStat(t) => Settled(b) && TurnOk(b, t)
    case AwaitShow(t) => Settled(b) && TurnOk(b, t)
    case AwaitSet(t) => Settled(b) && TurnOk(b, t)
    case _ => Settled(b)
  }

  lemma ProceedKeepsPresence(b: Bridge, t: Turn)
    requires Settled(b) && TurnOk(b, t)
    ensures PresenceInv(Proceed(b, t))
  {
    hide Bracketed, OpenPath;
  }

  lemma IssueClearKeepsPresence(b: Bridge, after: AfterClear)
    requires Settled(b) && (after.ClearAutomaticThen? ==> !Present(b.binding))
    ensures PresenceInv(IssueClear(b, after))
    ensures PresenceInv(AfterCleared(b, after, true)) && PresenceInv(AfterCleared(b, after, false))
  {
    hide Bracketed, OpenPath;
    if after.ClearAutomaticThen? && after.pendingTurn.Some? {
      ProceedKeepsPresence(Note(b.(blocked := b.unsafe, unsafe := None), Blocks(after.pendingTurn)),
                           after.pendingTurn.value);
    }
    hide Proceed;
  }

  lemma EndNowKeepsPresence(b: Bridge, next: AfterFeed)
    requires Settled(b) && Present(b.binding) && next != FeedThenStart
    ensures PresenceInv(EndNow(b, next))
  {
    EmitKeeps(b.(binding := Some(b.binding.value.(vaultEnabled := false)), wait := AwaitFeed(next)),
              SessionEnd(b.binding.value.path));
    hide Bracketed, OpenPath;
  }

  lemma ClearAutomaticKeepsPresence(b: Bridge, turn: Option<Turn>)
    requires Settled(b)
    ensures PresenceInv(ClearAutomatic(b, turn))
  {
    hide Bracketed, OpenPath;
    if Present(b.binding) {
      EndNowKeepsPresence(b, FeedThenClearAutomatic(turn));
    } else {
      IssueClearKeepsPresence(b, ClearAutomaticThen(turn));
    }
    hide EndNow, IssueClear;
  }

  lemma CheckUnsafeKeepsPresence(b: Bridge, t: Turn)
    requires Settled(b) && TurnOk(b, t)
    ensures PresenceInv(CheckUnsafe(b, t))
  {
    ClearAutomaticKeepsPresence(b, Some(t));
    ProceedKeepsPresence(b, t);
    hide ClearAutomatic, Proceed;
  }

  lemma AnnounceKeepsPresence(b: Bridge)
    requires Present(b.binding) && Bracketed(b.log) && OpenPath(b.log) in {None, Some(b.binding.value.path)}
    ensures PresenceInv(AnnounceStart(b))
  {
    EmitKeeps(b.(wait := AwaitFeed(FeedThenLoop)), SessionStart(b.binding.value.path));
  }

  lemma TrackAutomaticKeepsPresence(b: Bridge, i: Identity, updatedAt: int)
    requires Settled(b) && !Present(b.binding)
    ensures PresenceInv(TrackAutomatic(b, i, updatedAt))
  {
    hide Bracketed, OpenPath, ClearAutomatic;
    var current := VaultBinding(i.path, i.cwd, updatedAt, false);
    ClearAutomaticKeepsPresence(Note(b.(binding := Some(current), unsafe := Some(i)), Tracks(current, Some(i))), None);
  }

  lemma AfterFedKeepsPresence(b: Bridge, next: AfterFeed)
    requires if next == FeedThenStart then Announced(b, None) && Present(b.binding) else Settled(b)
    requires next == FeedThenLoop || next == FeedThenStart || !Present(b.binding)
    ensures PresenceInv(AfterFed(b, next))
  {
    hide Bracketed, OpenPath;
    match next
    case FeedThenClear => IssueClearKeepsPresence(b, ClearThenLoop); hide IssueClear;
    case FeedThenPolicy(t) => CheckUnsafeKeepsPresence(b, t); hide CheckUnsafe;
    case FeedThenForget(after) => IssueClearKeepsPresence(b.(binding := None), after); hide AfterCleared;
    case FeedThenClearAutomatic(turn) => IssueClearKeepsPresence(b, ClearAutomaticThen(turn)); hide IssueClear;
    case FeedThenTrack(i, updatedAt) => TrackAutomaticKeepsPresence(b, i, updatedAt); hide TrackAutomatic;
    case FeedThenStart => AnnounceKeepsPresence(b); hide AnnounceStart;
    case FeedThenLoop =>
  }

  lemma EndPresenceKeepsPresence(b: Bridge, next: AfterFeed)
    requires Settled(b) && next != FeedThenStart
    ensures PresenceInv(EndPresence(b, next))
  {
    hide Bracketed, OpenPath, EndNow, AfterFed;
    if Present(b.binding) {
      EndNowKeepsPresence(b, next);
    } else {
      AfterFedKeepsPresence(b, next);
    }
  }

  lemma OnPreferencesKeepsPresence(c: Config, b: Bridge, i: Identity, prefs: Option<Preferences>)
    requires Settled(b)
    ensures PresenceInv(OnPreferences(c, b, i, prefs))
  {
    hide Bracketed, OpenPath, VaultEnabled, ResumeConfigured, EndPresence, CheckUnsafe;
    var t := Turn(i, VaultEnabled(c, prefs), ResumeConfigured(c, prefs));
    var b' := ReadPolicy(b, t);
    if t.vault {
      CheckUnsafeKeepsPresence(b', t);
    } else {
      EndPresenceKeepsPresence(b', FeedThenPolicy(t));
    }
  }

  lemma OnSetKeepsPresence(b: Bridge, t: Turn, reply: Option<ServerBinding>)
    requires Settled(b) && TurnOk(b, t)
    ensures PresenceInv(OnSet(b, t, reply))
  {
    hide Bracketed, OpenPath, EndPresence;
    if reply.Some? && reply.value.updatedAt.Some? {
      EndPresenceKeepsPresence(Note(b, FoundAutomatic(t.identity, reply.value.updatedAt.value)),
                               FeedThenTrack(t.identity, reply.value.updatedAt.value));
    }
  }

  lemma OnMetadataKeepsPresence(b: Bridge, t: Turn, previous: Option<VaultBinding>)
    requires PresenceInv(b) && b.wait == AwaitMetadata(t, previous)
    ensures PresenceInv(OnMetadata(b, t, previous))
  {
    if Present(previous) && (previous.value.path != t.identity.path || !t.vault) {
      EmitKeeps(b.(wait := AwaitFeed(FeedThenStart)), SessionEnd(previous.value.path));
    } else if t.vault {
      AnnounceKeepsPresence(b);
    }
    hide Bracketed, OpenPath;
  }

  lemma ReplyKeepsPresence(c: Config, b: Bridge, r: Reply)
    requires PresenceInv(b)
    requires b.wait != NotRunning && b.wait != AtLoop && b.wait != Finishing
    ensures PresenceInv(OnReply(c, b, r))
  {
    hide Bracketed, OpenPath, OnPreferences, OnSet, OnMetadata, OnPersistedShow, OnShow, OnCleared, AfterFed,
         IssueClear;
    match (b.wait, r)
    case (AwaitPreferences(i), PreferencesAre(p)) => OnPreferencesKeepsPresence(c, b, i, p);
    case (AwaitStat(t), _) => IssueClearKeepsPresence(Note(b, FileIs(false)), ClearThenLoop);
    case (AwaitFeed(next), _) => AfterFedKeepsPresence(b, next);
    case (AwaitMetadata(t, previous), _) => OnMetadataKeepsPresence(b, t, previous);
    case (AwaitClear(after), ClearedIs(cleared)) => OnClearedKeepsPresence(b, after, cleared);
    case (AwaitPersistedShow(i), BindingIs(o)) => OnPersistedShowKeepsPresence(b, i, o);
    case (AwaitShow(t), BindingIs(o)) => OnShowKeepsPresence(b, t, o);
    case (AwaitSet(t), BindingIs(o)) => OnSetKeepsPresence(b, t, o);
    case _ =>
  }

  lemma OnClearedKeepsPresence(b: Bridge, after: AfterClear, cleared: bool)
    requires Settled(b) && (after.ClearAutomaticThen? ==> !Present(b.binding))
    ensures PresenceInv(OnCleared(b, after, cleared))
  {
    hide Bracketed, OpenPath, EndPresence, AfterCleared;
    EndPresenceKeepsPresence(Note(b, Cleared(after)), FeedThenForget(after));
    IssueClearKeepsPresence(b.(lastIdentity := None), after);
  }

  lemma OnPersistedShowKeepsPresence(b: Bridge, i: Identity, o: Option<ServerBinding>)
    requires Settled(b) && b.binding.None?
    ensures PresenceInv(OnPersistedShow(b, i, o))
  {
    hide Bracketed, OpenPath, TrackAutomatic;
    if o.Some? && o.value.updatedAt.Some? {
      TrackAutomaticKeepsPresence(Note(b, FoundAutomatic(i, o.value.updatedAt.value)), i, o.value.updatedAt.value);
    }
  }

  lemma OnShowKeepsPresence(b: Bridge, t: Turn, o: Option<ServerBinding>)
    requires Settled(b) && TurnOk(b, t)
    ensures PresenceInv(OnShow(b, t, o))
  {
    hide Bracketed, OpenPath;
  }

  lemma TakeTurnKeepsPresence(b: Bridge)
    requires Settled(b)
    ensures PresenceInv(TakeTurn(b))
  {
    hide Bracketed, OpenPath, EndPresence;
    EndPresenceKeepsPresence(Note(b.(pending := Empty, taken := b.taken + [b.pending]),
                                  Took(b.pending)), FeedThenClear);
  }

  lemma SubmitKeepsPresence(b: Bridge, slot: Slot)
    requires PresenceInv(b) && (!b.running ==> Settled(b))
    ensures PresenceInv(Submit(b, slot))
  {
    hide Bracketed, OpenPath, TakeTurn;
    var b' := b.(pending := slot, submitted := b.submitted + [slot]);
    if !b.running {
      TakeTurnKeepsPresence(b'.(running := true, drains := b'.drains + 1));
    }
  }

  lemma StepKeepsPresence(c: Config, b: Bridge, i: Input)
    requires WakeInv(c, b) && PresenceInv(b)
    ensures PresenceInv(Step(c, b, i))
  {
    hide Bracketed, OpenPath, Submit, OnReply, TakeTurn, SlotInv;
    match i
    case DoUpdate(stamp, identity, hasUI, refresh) =>
      SubmitKeepsPresence(b.(lastIdentity := Some(stamp)),
                          if identity.Some? then Publish(identity.value) else EndSession);
    case DoStop =>
      SubmitKeepsPresence(b.(stopped := true), EndSession);
    case DoResume(reply) =>
      match b.wait {
        case NotRunning =>
        case AtLoop => TakeTurnKeepsPresence(b);
        case Finishing => TakeTurnKeepsPresence(b.(running := true, wait := NotRunning, drains := 1));
        case _ => ReplyKeepsPresence(c, b, reply);
      }
  }

  // ----- The turn that ends a session

  /** From taking `null` until the next identity is taken, nothing is present. */
  ghost predicate EndInv(b: Bridge)
  {
    b.taken != [] && b.taken[|b.taken| - 1] == EndSession ==>
      !Present(b.binding)
      && b.wait in {NotRunning, AtLoop, Finishing, AwaitFeed(FeedThenClear), AwaitClear(ClearThenLoop),
                    AwaitFeed(FeedThenForget(ClearThenLoop))}
  }

  lemma TakeTurnKeepsEnd(b: Bridge)
    requires EndInv(b)
    ensures EndInv(TakeTurn(b))
  {
  }

  lemma StepKeepsEnd(c: Config, b: Bridge, i: Input)
    requires WakeInv(c, b) && EndInv(b)
    ensures EndInv(Step(c, b, i))
  {
    hide Subsequence, SlotInv, TakeTurn, VaultEnabled, ResumeConfigured;
    match i
    case DoUpdate(stamp, identity, hasUI, refresh) => SubmitKeepsEnd(b.(lastIdentity := Some(stamp)),
      if identity.Some? then Publish(identity.value) else EndSession); hide Submit;
    case DoStop => SubmitKeepsEnd(b.(stopped := true), EndSession); hide Submit;
    case DoResume(reply) =>
      match b.wait {
        case NotRunning =>
        case AtLoop => TakeTurnKeepsEnd(b);
        case Finishing => TakeTurnKeepsEnd(b.(running := true, wait := NotRunning, drains := 1));
        case _ => ReplyKeepsEnd(c, b, reply); hide OnReply;
      }
  }

  lemma SubmitKeepsEnd(b: Bridge, slot: Slot)
    requires EndInv(b)
    ensures EndInv(Submit(b, slot))
  {
    hide TakeTurn;
    var b' := b.(pending := slot, submitted := b.submitted + [slot]);
    TakeTurnKeepsEnd(b'.(running := true, drains := b'.drains + 1));
  }

  lemma ReplyKeepsEnd(c: Config, b: Bridge, r: Reply)
    requires EndInv(b)
    ensures EndInv(OnReply(c, b, r)) || b.wait == NotRunning || b.wait == AtLoop || b.wait == Finishing
  {
    hide OnPreferences, OnSet, OnMetadata, OnPersistedShow, OnShow, CheckUnsafe, TrackAutomatic, AnnounceStart,
         ClearAutomatic;
  }

  // ----- Every run

  lemma {:induction false} RunKeepsPresence(c: Config, inputs: seq<Input>)
    ensures PresenceInv(Run(c, inputs)) && EndInv(Run(c, inputs))
  {
    if inputs != [] {
      var n := |inputs| - 1;
      RunKeepsWake(c, inputs[..n]);
      RunKeepsPresence(c, inputs[..n]);
      StepKeepsPresence(c, Run(c, inputs[..n]), inputs[n]);
      StepKeepsEnd(c, Run(c, inputs[..n]), inputs[n]);
    }
  }

  /** Once a stop has drained, the end of the session was taken last. */
  lemma StoppedIsTaken(c: Config, b: Bridge)
    requires WakeInv(c, b) && !b.running && b.stopped && c.owner
    ensures b.taken != [] && b.taken[|b.taken| - 1] == EndSession
  {
  }

  /** At most one drain runs. When none does, nothing waits in the slot, and what was taken is a
      subsequence of what was submitted that ends with the last submission. */
  lemma NoLostWakeup(c: Config, inputs: seq<Input>)
    ensures var b := Run(c, inputs);
      && b.drains <= 1 && (b.drains == 1 <==> b.running)
      && Subsequence(b.taken, b.submitted)
      && (!b.running ==> b.pending == Empty)
      && (!b.running && b.submitted != [] ==>
            b.taken != [] && b.taken[|b.taken| - 1] == b.submitted[|b.submitted| - 1])
      && (!b.running && b.stopped && c.owner ==> b.taken != [] && b.taken[|b.taken| - 1] == EndSession)
  {
    var b := Run(c, inputs);
    RunKeepsWake(c, inputs);
    if b.pending != Empty {
      SubsequenceSkips(b.taken, Passed(b), b.pending);
      assert b.submitted == Passed(b) + [b.pending];
    }
  }

  /** Presence events are well bracketed; at a loop test the open path is that of the tracked
      binding when its vault flag is set; once a stop has drained nothing is open. */
  lemma PresenceIsBracketed(c: Config, inputs: seq<Input>)
    ensures var b := Run(c, inputs);
      && Bracketed(b.log)
      && (b.wait in {AtLoop, Finishing, NotRunning} ==> OpenPath(b.log) == PresentPath(b.binding))
      && (!b.running && b.stopped && c.owner ==> OpenPath(b.log) == None)
  {
    RunKeepsWake(c, inputs);
    RunKeepsPresence(c, inputs);
    NoLostWakeup(c, inputs);
    hide Bracketed, OpenPath, Run;
  }

  /** What bracketing means event by event: an end comes right after a start of the same path. */
  lemma EndMatchesStart(log: seq<Event>, n: nat, p: Path)
    requires Bracketed(log) && n < |log| && log[n] == SessionEnd(p)
    ensures n > 0 && log[n - 1] == SessionStart(p)
  {
    BracketedPrefix(log, n + 1);
    assert log[..n + 1][..n] == log[..n];
  }

  lemma {:induction false} BracketedPrefix(log: seq<Event>, n: nat)
    requires Bracketed(log) && n <= |log|
    ensures Bracketed(log[..n])
    decreases |log|
  {
    if n < |log| {
      var m := |log| - 1;
      BracketedPrefix(log[..m], n);
      assert log[..m][..n] == log[..n];
    } else {
      assert log[..n] == log;
    }
  }

  // ----- Retry

  /** A clear that cmux declined, or an automatic one that failed, forgets the last report: the
      next update is taken up even if it reports nothing new. Otherwise a repeated report is
      dropped unless it asks for a refresh. */
  lemma RepeatedReport(c: Config, b: Bridge, after: AfterClear, failed: bool, stamp: Stamp,
                       identity: Option<Identity>, refresh: bool)
    requires b.wait == AwaitClear(after) && b.lastIdentity == Some(stamp) && !b.stopped && c.owner
    ensures var answered := OnReply(c, b, if failed then Failed else ClearedIs(false));
      var slot := if identity.Some? then Publish(identity.value) else EndSession;
      && (failed && after == ClearThenLoop && !refresh ==>
            Update(c, answered, stamp, identity, true, refresh) == answered)
      && (!failed || after != ClearThenLoop || refresh ==>
            Update(c, answered, stamp, identity, true, refresh).submitted == b.submitted + [slot])
  {
    var answered := OnReply(c, b, if failed then Failed else ClearedIs(false));
    hide EndPresence, Proceed;
    assert answered.lastIdentity == if failed && after == ClearThenLoop then Some(stamp) else None;
  }
}
