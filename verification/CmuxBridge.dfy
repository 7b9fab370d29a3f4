/** The bridge as the object it is: fields that lifecycle events and replies update in place.
    `wait` stands for the await at which the drain loop is suspended. Every method is proved to
    do what the function of the same name in CmuxVault does to the object's state; the methods that
    others call keep what every run keeps. */
module CmuxBridge {
  import opened Wrappers
  import opened CmuxVault
  import P = CmuxPresence
  import R = CmuxRestore
  import D = CmuxTurns

  /** The invariants of presence, wake-up, restore and turns together. */
  ghost predicate Sound(c: Config, b: Bridge)
  {
    P.WakeInv(c, b) && P.PresenceInv(b) && P.EndInv(b) && R.RestoreInv(b) && D.TurnInv(b)
  }

  lemma FreshIsSound(c: Config)
    ensures Sound(c, FRESH)
  {
    P.RunKeepsWake(c, []);
    P.RunKeepsPresence(c, []);
    R.RunIsVetoed(c, []);
    D.RunIsDue(c, []);
  }

  lemma StepKeepsSound(c: Config, b: Bridge, i: P.Input)
    requires Sound(c, b)
    ensures Sound(c, P.Step(c, b, i))
  {
    P.StepKeepsWake(c, b, i);
    P.StepKeepsPresence(c, b, i);
    P.StepKeepsEnd(c, b, i);
    R.StepKeepsRestore(c, b, i);
    D.StepIsDue(c, b, i);
    hide P.Step, P.WakeInv, P.PresenceInv, P.EndInv, R.RestoreInv, D.TurnInv;
  }

  lemma UpdateIsAStep(c: Config, b: Bridge, stamp: Stamp, identity: Option<Identity>, hasUI: bool, refresh: bool)
    ensures P.Step(c, b, P.DoUpdate(stamp, identity, hasUI, refresh)) == Update(c, b, stamp, identity, hasUI, refresh)
  {
  }

  lemma StopIsAStep(c: Config, b: Bridge)
    ensures P.Step(c, b, P.DoStop) == Stop(c, b) && Stop(c, b).stopped
  {
  }

  lemma ResumeIsAStep(c: Config, b: Bridge, reply: Reply)
    ensures P.Step(c, b, P.DoResume(reply)) == Resumed(c, b, reply)
  {
  }

  /** What the invariants promise whoever looks at the bridge between two of its steps. */
  lemma SoundMeans(c: Config, b: Bridge)
    requires Sound(c, b)
    ensures b.drains <= 1 && (!b.running ==> b.pending == Empty)
    ensures !b.running && b.stopped && c.owner ==> !Present(b.binding)
    ensures P.Bracketed(b.log) && R.Vetoed(b.trail) && D.Honoured(b.trail)
    ensures b.wait in {AtLoop, Finishing, NotRunning} ==> P.OpenPath(b.log) == P.PresentPath(b.binding)
  {
    hide P.Bracketed, P.OpenPath, P.Subsequence, R.Vetoed, R.Uncleared, R.LastAutomatic;
    hide D.Honoured, D.Due, D.TrackedBy, D.UnsafeBy, D.BlockedBy;
    if !b.running && b.stopped && c.owner { P.StoppedIsTaken(c, b); }
  }

  class CmuxVaultBridge {
    const config: Config
    var pending: Slot
    var running: bool
    var stopped: bool
    var lastIdentity: Option<Stamp>
    var binding: Option<VaultBinding>
    var blockedAutoResumeIdentity: Option<Identity>
    var unsafeAutoResumeIdentity: Option<Identity>
    var wait: Wait
    ghost var drains: int
    ghost var submitted: seq<Slot>
    ghost var taken: seq<Slot>
    ghost var log: seq<Event>
    ghost var trail: seq<Act>

    ghost function View(): Bridge
      reads this
    {
      Bridge(pending, running, stopped, lastIdentity, binding, blockedAutoResumeIdentity, unsafeAutoResumeIdentity,
             wait, drains, submitted, taken, log, trail)
    }

    /** No update is lost, presence is bracketed, automatic bindings are vetoed. */
    ghost predicate Valid()
      reads this
    {
      Sound(config, View())
    }

    constructor (config: Config)
      ensures Valid() && View() == FRESH && this.config == config
    {
      this.config := config;
      pending, running, stopped, lastIdentity := Empty, false, false, None;
      binding, blockedAutoResumeIdentity, unsafeAutoResumeIdentity, wait := None, None, None, NotRunning;
      drains, submitted, taken, log, trail := 0, [], [], [], [];
      FreshIsSound(config);
    }

    method Update(stamp: Stamp, identity: Option<Identity>, hasUI: bool, refresh: bool)
      requires Valid()
      modifies this
      ensures Valid()
      ensures View() == CmuxVault.Update(config, old(View()), stamp, identity, hasUI, refresh)
    {
      hide Sound, P.Step, CmuxVault.EndPresence;
      StepKeepsSound(config, View(), P.DoUpdate(stamp, identity, hasUI, refresh));
      UpdateIsAStep(config, View(), stamp, identity, hasUI, refresh);
      if stopped || !hasUI || !config.owner { return; }
      if !refresh && lastIdentity == Some(stamp) { return; }
      lastIdentity := Some(stamp);
      pending := if identity.Some? then Publish(identity.value) else EndSession;
      submitted := submitted + [pending];
      Start();
    }

    method Stop()
      requires Valid()
      modifies this
      ensures Valid() && stopped
      ensures View() == CmuxVault.Stop(config, old(View()))
    {
      hide Sound, P.Step, CmuxVault.EndPresence;
      StepKeepsSound(config, View(), P.DoStop);
      StopIsAStep(config, View());
      if stopped { return; }
      stopped := true;
      if !config.owner { return; }
      pending := EndSession;
      submitted := submitted + [EndSession];
      Start();
    }

    method Start()
      modifies this
      ensures View() == CmuxVault.Start(old(View()))
    {
      hide CmuxVault.TakeTurn;
      if running { return; }
      running, drains := true, drains + 1;
      TakeTurn();
    }

    /** The loop test, and the start of the turn when an identity is pending. */
    method TakeTurn()
      modifies this
      ensures View() == CmuxVault.TakeTurn(old(View()))
    {
      hide CmuxVault.EndPresence;
      if pending == Empty {
        wait := Finishing;
        return;
      }
      var identity := pending;
      taken, trail := taken + [pending], trail + [Took(pending)];
      pending := Empty;
      if identity == EndSession {
        EndPresence(FeedThenClear);
      } else {
        wait := AwaitPreferences(identity.identity);
      }
    }

    /** `.finally`: forget the drain; an update may have landed after its last loop test. */
    method Finish()
      modifies this
      ensures View() == CmuxVault.Finish(old(View()))
    {
      hide CmuxVault.TakeTurn;
      running, wait, drains := false, NotRunning, drains - 1;
      if pending != Empty { Start(); }
    }

    method EndPresence(next: AfterFeed)
      modifies this
      ensures View() == CmuxVault.EndPresence(old(View()), next)
    {
      hide CmuxVault.AfterFed;
      if !Present(binding) {
        AfterFed(next);
        return;
      }
      binding := Some(binding.value.(vaultEnabled := false));
      Feed(SessionEnd(binding.value.path), next);
    }

    method Feed(event: Event, next: AfterFeed)
      modifies this`log, this`wait
      ensures View() == Emit(old(View()).(wait := AwaitFeed(next)), event)
    {
      log := log + [event];
      wait := AwaitFeed(next);
    }

    method AfterFed(next: AfterFeed)
      modifies this
      ensures View() == CmuxVault.AfterFed(old(View()), next)
    {
      hide IssueClear, CmuxVault.CheckUnsafe, CmuxVault.AfterCleared, CmuxVault.TrackAutomatic, CmuxVault.AnnounceStart;
      match next
      case FeedThenClear => Clear(ClearThenLoop);
      case FeedThenPolicy(t) => CheckUnsafe(t);
      case FeedThenForget(after) => binding := None; AfterCleared(after, true);
      case FeedThenClearAutomatic(t) => Clear(ClearAutomaticThen(t));
      case FeedThenTrack(i, updatedAt) => TrackAutomatic(i, updatedAt);
      case FeedThenStart => AnnounceStart();
      case FeedThenLoop => wait := AtLoop;
    }

    method Clear(after: AfterClear)
      modifies this
      ensures View() == IssueClear(old(View()), after)
    {
      hide CmuxVault.AfterCleared;
      if binding.None? {
        AfterCleared(after, true);
      } else {
        wait, trail := AwaitClear(after), trail + [AskedClear(binding.value.updatedAt)];
      }
    }

    /** What each caller of a clear does once it has returned. */
    method AfterCleared(after: AfterClear, cleared: bool)
      modifies this
      ensures View() == CmuxVault.AfterCleared(old(View()), after, cleared)
    {
      hide CmuxVault.Proceed;
      if after == ClearThenLoop || !cleared {
        wait := AtLoop;
        return;
      }
      blockedAutoResumeIdentity := unsafeAutoResumeIdentity;
      unsafeAutoResumeIdentity := None;
      trail := trail + [Blocks(after.pendingTurn)];
      if after.pendingTurn.None? {
        wait := AtLoop;
      } else {
        Proceed(after.pendingTurn.value);
      }
    }

    method ClearAutomaticBinding(t: Option<Turn>)
      modifies this
      ensures View() == ClearAutomatic(old(View()), t)
    {
      hide IssueClear;
      if Present(binding) {
        binding := Some(binding.value.(vaultEnabled := false));
        Feed(SessionEnd(binding.value.path), FeedThenClearAutomatic(t));
      } else {
        Clear(ClearAutomaticThen(t));
      }
    }

    method CheckUnsafe(t: Turn)
      modifies this
      ensures View() == CmuxVault.CheckUnsafe(old(View()), t)
    {
      hide ClearAutomatic, CmuxVault.Proceed;
      if !t.resume && unsafeAutoResumeIdentity.Some? {
        ClearAutomaticBinding(Some(t));
      } else {
        Proceed(t);
      }
    }

    method Proceed(t: Turn)
      modifies this
      ensures View() == CmuxVault.Proceed(old(View()), t)
    {
      if !t.vault && !t.resume {
        if binding.Some? {
          wait, trail := AwaitClear(ClearThenLoop), trail + [AskedClear(binding.value.updatedAt)];
        } else if blockedAutoResumeIdentity != Some(t.identity) {
          wait, trail := AwaitPersistedShow(t.identity), trail + [AskedBinding];
        } else {
          wait := AtLoop;
        }
      } else if !t.resume && blockedAutoResumeIdentity == Some(t.identity) {
        wait := AtLoop;
      } else {
        wait, trail := AwaitStat(t), trail + [AskedFile(t.identity.path)];
      }
    }

    method AnnounceStart()
      modifies this
      ensures View() == CmuxVault.AnnounceStart(old(View()))
    {
      if binding.Some? {
        Feed(SessionStart(binding.value.path), FeedThenLoop);
      } else {
        wait := AtLoop;
      }
    }

    method TrackAutomatic(i: Identity, updatedAt: int)
      modifies this
      ensures View() == CmuxVault.TrackAutomatic(old(View()), i, updatedAt)
    {
      hide ClearAutomatic;
      binding := Some(VaultBinding(i.path, i.cwd, updatedAt, false));
      unsafeAutoResumeIdentity := Some(i);
      trail := trail + [Tracks(binding.value, Some(i))];
      ClearAutomaticBinding(None);
    }

    method OnPreferences(i: Identity, prefs: Option<Preferences>)
      modifies this
      ensures View() == CmuxVault.OnPreferences(config, old(View()), i, prefs)
    {
      hide CmuxVault.EndPresence, CmuxVault.CheckUnsafe;
      var t := Turn(i, VaultEnabled(config, prefs), ResumeConfigured(config, prefs));
      if t.resume {
        blockedAutoResumeIdentity, unsafeAutoResumeIdentity := None, None;
      }
      trail := trail + [Policy(t)];
      if !t.vault {
        EndPresence(FeedThenPolicy(t));
      } else {
        CheckUnsafe(t);
      }
    }

    method OnStat(t: Turn, persisted: bool)
      modifies this
      ensures View() == CmuxVault.OnStat(old(View()), t, persisted)
    {
      hide IssueClear;
      trail := trail + [FileIs(persisted)];
      if persisted {
        wait, trail := AwaitShow(t), trail + [AskedBinding];
      } else {
        Clear(ClearThenLoop);
      }
    }

    method OnShow(t: Turn, observed: Option<ServerBinding>)
      modifies this
      ensures View() == CmuxVault.OnShow(old(View()), t, observed)
    {
      if observed.Some? {
        var previous := observed.value;
        if !previous.isGsd || !previous.fromAgentHook { wait := AtLoop; return; }
        if binding.Some? {
          if previous.checkpoint != binding.value.path || previous.updatedAt != Some(binding.value.updatedAt) {
            wait := AtLoop;
            return;
          }
        } else if previous.checkpoint != t.identity.path
                  || previous.launch != Launch.Resume(t.identity.path, t.identity.id) {
          wait := AtLoop;
          return;
        }
      }
      trail := trail + [AskedSet(t.identity)];
      wait := AwaitSet(t);
    }

    method OnSet(t: Turn, reply: Option<ServerBinding>)
      modifies this
      ensures View() == CmuxVault.OnSet(old(View()), t, reply)
    {
      hide CmuxVault.EndPresence;
      var matchesRequest := reply.Some? && MatchesIdentity(t.identity, reply.value);
      if matchesRequest && reply.value.autoResume == Some(true) && !t.resume {
        trail := trail + [FoundAutomatic(t.identity, reply.value.updatedAt.value)];
        EndPresence(FeedThenTrack(t.identity, reply.value.updatedAt.value));
        return;
      }
      if !matchesRequest || reply.value.autoResume.None? { wait := AtLoop; return; }
      var previousBinding := binding;
      binding := Some(VaultBinding(t.identity.path, t.identity.cwd, reply.value.updatedAt.value, t.vault));
      wait, trail := AwaitMetadata(t, previousBinding), trail + [Tracks(binding.value, None)];
    }

    method OnMetadata(t: Turn, previous: Option<VaultBinding>)
      modifies this
      ensures View() == CmuxVault.OnMetadata(old(View()), t, previous)
    {
      if Present(previous) && (previous.value.path != t.identity.path || !t.vault) {
        Feed(SessionEnd(previous.value.path), if t.vault then FeedThenStart else FeedThenLoop);
      } else if t.vault {
        AnnounceStart();
      } else {
        wait := AtLoop;
      }
    }

    method OnPersistedShow(i: Identity, observed: Option<ServerBinding>)
      modifies this
      ensures View() == CmuxVault.OnPersistedShow(old(View()), i, observed)
    {
      hide CmuxVault.TrackAutomatic;
      if observed.None? || observed.value.autoResume != Some(true) || !MatchesIdentity(i, observed.value) {
        wait := AtLoop;
        return;
      }
      trail := trail + [FoundAutomatic(i, observed.value.updatedAt.value)];
      TrackAutomatic(i, observed.value.updatedAt.value);
    }

    method OnCleared(after: AfterClear, cleared: bool)
      modifies this
      ensures View() == CmuxVault.OnCleared(old(View()), after, cleared)
    {
      hide CmuxVault.EndPresence, CmuxVault.AfterCleared;
      if cleared {
        trail := trail + [Cleared(after)];
        EndPresence(FeedThenForget(after));
      } else {
        lastIdentity := None;
        AfterCleared(after, false);
      }
    }

    method OnFailure()
      modifies this
      ensures View() == CmuxVault.OnFailure(old(View()))
    {
      if wait.AwaitClear? && wait.after.ClearAutomaticThen? { lastIdentity := None; }
      wait := AtLoop;
    }

    /** The event loop continues the suspended drain. */
    method Resume(reply: Reply)
      requires Valid()
      modifies this
      ensures Valid()
      ensures View() == Resumed(config, old(View()), reply)
    {
      hide CmuxVault.TakeTurn, CmuxVault.Finish, CmuxVault.OnPreferences, CmuxVault.OnStat, CmuxVault.OnShow,
           CmuxVault.OnSet, CmuxVault.OnMetadata, CmuxVault.OnPersistedShow, CmuxVault.OnCleared, CmuxVault.AfterFed,
           IssueClear;
      hide Sound, P.Step;
      StepKeepsSound(config, View(), P.DoResume(reply));
      ResumeIsAStep(config, View(), reply);
      match (wait, reply)
      case (NotRunning, _) =>
      case (AtLoop, _) => TakeTurn();
      case (Finishing, _) => Finish();
      case (AwaitPreferences(i), PreferencesAre(p)) => OnPreferences(i, p);
      case (AwaitStat(t), _) =>
        OnStat(t, reply == IsFile(true));
      case (AwaitFeed(next), _) => AfterFed(next);
      case (AwaitMetadata(t, previous), _) => OnMetadata(t, previous);
      case (AwaitClear(after), ClearedIs(cleared)) => OnCleared(after, cleared);
      case (AwaitPersistedShow(i), BindingIs(o)) => OnPersistedShow(i, o);
      case (AwaitShow(t), BindingIs(o)) => OnShow(t, o);
      case (AwaitSet(t), BindingIs(o)) => OnSet(t, o);
      case _ => OnFailure();
    }
  }
}
