/** The bridge and the cmux server together, with other agents writing to the server at any
    moment: what the bridge's guarded clears can remove. */
module CmuxOwnership {
  import opened Wrappers
  import opened CmuxVault
  import opened CmuxPresence

  /** The server's record for one surface. `written` keeps every write under its generation, and
      `bySelf` the generations written for this bridge's own `set`. */
  datatype World = World(current: Option<ServerBinding>, written: map<int, ServerBinding>,
                         bySelf: set<int>, removed: seq<int>)

  datatype System = System(bridge: Bridge, world: World)

  const INITIAL: System := System(FRESH, World(None, map[], {}, []))

  /** Everything that can happen: a foreign write or removal, a server call taking effect and
      being answered (or its answer lost), or a step that does not involve the server. */
  datatype Action =
    | Local(input: Input)
    | Foreign(binding: Option<ServerBinding>)
    | ShowAnswered(arrives: bool)
    | SetAnswered(written: Option<ServerBinding>, arrives: bool)
    | ClearAnswered(performed: bool, arrives: bool)

  /** Every write gets a generation that was never used. */
  predicate IsFresh(w: World, b: ServerBinding)
  {
    b.updatedAt.Some? ==> b.updatedAt.value !in w.written
  }

  function Write(w: World, b: ServerBinding): World
  {
    w.(current := Some(b), written := if b.updatedAt.Some? then w.written[b.updatedAt.value := b] else w.written)
  }

  function Generation(b: ServerBinding): set<int>
  {
    if b.updatedAt.Some? then {b.updatedAt.value} else {}
  }

  function SetEffect(w: World, b: Option<ServerBinding>): World
  {
    if b.Some? && IsFresh(w, b.value) then Write(w, b.value).(bySelf := w.bySelf + Generation(b.value)) else w
  }

  /** A clear removes the current binding only if it still has the expected generation. */
  predicate ClearHits(s: System, performed: bool)
  {
    && performed && s.bridge.binding.Some? && s.world.current.Some?
    && s.world.current.value.updatedAt == Some(s.bridge.binding.value.updatedAt)
  }

  predicate WaitsForServer(b: Bridge)
  {
    b.wait.AwaitShow? || b.wait.AwaitPersistedShow? || b.wait.AwaitSet? || b.wait.AwaitClear?
  }

  function Act(c: Config, s: System, a: Action): System
  {
    match a
    case Local(input) =>
      if input.DoResume? && WaitsForServer(s.bridge) then s else s.(bridge := Step(c, s.bridge, input))
    case Foreign(b) =>
      if b.None? then s.(world := s.world.(current := None))
      else if IsFresh(s.world, b.value) then s.(world := Write(s.world, b.value))
      else s
    case ShowAnswered(arrives) =>
      if s.bridge.wait.AwaitShow? || s.bridge.wait.AwaitPersistedShow?
      then s.(bridge := OnReply(c, s.bridge, if arrives then BindingIs(s.world.current) else Failed))
      else s
    case SetAnswered(b, arrives) =>
      if s.bridge.wait.AwaitSet?
      then
        var w := SetEffect(s.world, b);
        System(OnReply(c, s.bridge, if arrives then BindingIs(w.current) else Failed), w)
      else s
    case ClearAnswered(performed, arrives) =>
      if s.bridge.wait.AwaitClear?
      then
        var hit := ClearHits(s, performed);
        var w := if hit then s.world.(current := None, removed := s.world.removed + [s.bridge.binding.value.updatedAt])
                 else s.world;
        System(OnReply(c, s.bridge, if arrives then ClearedIs(hit) else Failed), w)
      else s
  }

  function RunSystem(c: Config, actions: seq<Action>): System
  {
    if actions == [] then INITIAL
    else Act(c, RunSystem(c, actions[..|actions| - 1]), actions[|actions| - 1])
  }

  // ----- Which generations the bridge may come to track

  function BindingGenerations(b: Bridge): set<int>
  {
    if b.binding.Some? then {b.binding.value.updatedAt} else {}
  }

  function NextGenerations(next: AfterFeed): set<int>
  {
    if next.FeedThenTrack? then {next.updatedAt} else {}
  }

  function Generations(b: Bridge): set<int>
  {
    BindingGenerations(b) + if b.wait.AwaitFeed? then NextGenerations(b.wait.next) else {}
  }

  function TurnIdentity(t: Option<Turn>): set<Identity>
  {
    if t.Some? then {t.value.identity} else {}
  }

  function ClearIdentity(after: AfterClear): set<Identity>
  {
    if after.ClearAutomaticThen? then TurnIdentity(after.pendingTurn) else {}
  }

  function FeedIdentity(next: AfterFeed): set<Identity>
  {
    match next
    case FeedThenPolicy(t) => {t.identity}
    case FeedThenForget(after) => ClearIdentity(after)
    case FeedThenClearAutomatic(t) => TurnIdentity(t)
    case _ => {}
  }

  /** The identity of the turn under way. */
  function WaitIdentity(w: Wait): set<Identity>
  {
    match w
    case AwaitPreferences(i) => {i}
    case AwaitStat(t) => {t.identity}
    case AwaitFeed(next) => FeedIdentity(next)
    case AwaitClear(after) => ClearIdentity(after)
    case AwaitPersistedShow(i) => {i}
    case AwaitShow(t) => {t.identity}
    case AwaitSet(t) => {t.identity}
    case _ => {}
  }

  /** A continuation tracks no generation outside `gens` and stays with the turn of `ids`. */
  predicate Within(r: Bridge, gens: set<int>, ids: set<Identity>)
  {
    Generations(r) <= gens && WaitIdentity(r.wait) <= ids
  }

  lemma ProceedWithin(b: Bridge, t: Turn)
    ensures Within(Proceed(b, t), BindingGenerations(b), {t.identity})
  {
  }

  lemma AfterClearedWithin(b: Bridge, after: AfterClear, cleared: bool)
    ensures Within(AfterCleared(b, after, cleared), BindingGenerations(b), ClearIdentity(after))
  {
    if after.ClearAutomaticThen? && after.pendingTurn.Some? {
      ProceedWithin(Note(b.(blocked := b.unsafe, unsafe := None), Blocks(after.pendingTurn)),
                    after.pendingTurn.value);
    }
    hide Proceed;
  }

  lemma IssueClearWithin(b: Bridge, after: AfterClear)
    ensures Within(IssueClear(b, after), BindingGenerations(b), ClearIdentity(after))
  {
    AfterClearedWithin(b, after, true);
    hide AfterCleared;
  }

  lemma ClearAutomaticWithin(b: Bridge, t: Option<Turn>)
    ensures Within(ClearAutomatic(b, t), BindingGenerations(b), TurnIdentity(t))
  {
    IssueClearWithin(b, ClearAutomaticThen(t));
    hide IssueClear;
  }

  lemma CheckUnsafeWithin(b: Bridge, t: Turn)
    ensures Within(CheckUnsafe(b, t), BindingGenerations(b), {t.identity})
  {
    ClearAutomaticWithin(b, Some(t));
    ProceedWithin(b, t);
    hide ClearAutomatic, Proceed;
  }

  lemma TrackAutomaticWithin(b: Bridge, i: Identity, updatedAt: int)
    ensures Within(TrackAutomatic(b, i, updatedAt), {updatedAt}, {})
  {
    var current := VaultBinding(i.path, i.cwd, updatedAt, false);
    ClearAutomaticWithin(Note(b.(binding := Some(current), unsafe := Some(i)), Tracks(current, Some(i))), None);
    hide ClearAutomatic;
  }

  lemma AfterFedWithin(b: Bridge, next: AfterFeed)
    ensures Within(AfterFed(b, next), BindingGenerations(b) + NextGenerations(next), FeedIdentity(next))
  {
    hide IssueClear, CheckUnsafe, AfterCleared, TrackAutomatic;
    match next
    case FeedThenClear => IssueClearWithin(b, ClearThenLoop);
    case FeedThenPolicy(t) => CheckUnsafeWithin(b, t);
    case FeedThenForget(after) => AfterClearedWithin(b.(binding := None), after, true);
    case FeedThenClearAutomatic(t) => IssueClearWithin(b, ClearAutomaticThen(t));
    case FeedThenTrack(i, updatedAt) => TrackAutomaticWithin(b, i, updatedAt);
    case FeedThenStart =>
    case FeedThenLoop =>
  }

  lemma EndPresenceWithin(b: Bridge, next: AfterFeed)
    ensures Within(EndPresence(b, next), BindingGenerations(b) + NextGenerations(next), FeedIdentity(next))
  {
    AfterFedWithin(b, next);
    hide AfterFed;
  }

  lemma OnPreferencesWithin(c: Config, b: Bridge, i: Identity, prefs: Option<Preferences>)
    ensures Within(OnPreferences(c, b, i, prefs), BindingGenerations(b), {i})
  {
    hide VaultEnabled, ResumeConfigured, EndPresence, CheckUnsafe;
    var t := Turn(i, VaultEnabled(c, prefs), ResumeConfigured(c, prefs));
    var b' := ReadPolicy(b, t);
    CheckUnsafeWithin(b', t);
    EndPresenceWithin(b', FeedThenPolicy(t));
  }

  /** The generations a reply may bring in: only those of an exact match. */
  function Adopted(i: Identity, o: Option<ServerBinding>): set<int>
  {
    if o.Some? && MatchesIdentity(i, o.value) then Generation(o.value) else {}
  }

  lemma OnSetWithin(b: Bridge, t: Turn, reply: Option<ServerBinding>)
    ensures Within(OnSet(b, t, reply), BindingGenerations(b) + Adopted(t.identity, reply), {})
  {
    hide EndPresence;
    if reply.Some? && reply.value.updatedAt.Some? {
      EndPresenceWithin(Note(b, FoundAutomatic(t.identity, reply.value.updatedAt.value)),
                        FeedThenTrack(t.identity, reply.value.updatedAt.value));
    }
  }

  lemma OnPersistedShowWithin(b: Bridge, i: Identity, o: Option<ServerBinding>)
    ensures Within(OnPersistedShow(b, i, o), BindingGenerations(b) + Adopted(i, o), {})
  {
    hide TrackAutomatic;
    if o.Some? && o.value.updatedAt.Some? {
      TrackAutomaticWithin(Note(b, FoundAutomatic(i, o.value.updatedAt.value)), i, o.value.updatedAt.value);
    }
  }

  lemma OnClearedWithin(b: Bridge, after: AfterClear, cleared: bool)
    ensures Within(OnCleared(b, after, cleared), BindingGenerations(b), ClearIdentity(after))
  {
    hide EndPresence, AfterCleared;
    EndPresenceWithin(Note(b, Cleared(after)), FeedThenForget(after));
    AfterClearedWithin(b.(lastIdentity := None), after, false);
  }

  /** What a reply can add to the generations tracked. */
  function Brought(w: Wait, r: Reply): set<int>
  {
    match (w, r)
    case (AwaitPersistedShow(i), BindingIs(o)) => Adopted(i, o)
    case (AwaitSet(t), BindingIs(o)) => Adopted(t.identity, o)
    case _ => {}
  }

  lemma OnMetadataWithin(b: Bridge, t: Turn, previous: Option<VaultBinding>)
    ensures Within(OnMetadata(b, t, previous), BindingGenerations(b), {})
  {
  }

  lemma OnShowWithin(b: Bridge, t: Turn, o: Option<ServerBinding>)
    ensures Within(OnShow(b, t, o), BindingGenerations(b), {t.identity})
  {
  }

  lemma ServerReplyWithin(c: Config, b: Bridge, r: Reply)
    requires b.wait.AwaitPersistedShow? || b.wait.AwaitShow? || b.wait.AwaitSet? || b.wait.AwaitClear?
    ensures Within(OnReply(c, b, r), Generations(b) + Brought(b.wait, r), WaitIdentity(b.wait))
  {
    hide OnShow, OnSet, OnPersistedShow, OnCleared, Adopted;
    match (b.wait, r)
    case (AwaitClear(after), ClearedIs(cleared)) => OnClearedWithin(b, after, cleared);
    case (AwaitPersistedShow(i), BindingIs(o)) => OnPersistedShowWithin(b, i, o);
    case (AwaitShow(t), BindingIs(o)) => OnShowWithin(b, t, o);
    case (AwaitSet(t), BindingIs(o)) => OnSetWithin(b, t, o);
    case _ =>
  }

  lemma LocalReplyWithin(c: Config, b: Bridge, r: Reply)
    requires !b.wait.AwaitPersistedShow? && !b.wait.AwaitShow? && !b.wait.AwaitSet? && !b.wait.AwaitClear?
    ensures Within(OnReply(c, b, r), Generations(b) + Brought(b.wait, r), WaitIdentity(b.wait))
  {
    hide OnPreferences, OnMetadata, AfterFed, IssueClear, Adopted;
    match (b.wait, r)
    case (AwaitPreferences(i), PreferencesAre(p)) => OnPreferencesWithin(c, b, i, p);
    case (AwaitStat(t), _) => IssueClearWithin(Note(b, FileIs(false)), ClearThenLoop);
    case (AwaitFeed(next), _) => AfterFedWithin(b, next);
    case (AwaitMetadata(t, previous), _) => OnMetadataWithin(b, t, previous);
    case _ =>
  }

  lemma ReplyWithin(c: Config, b: Bridge, r: Reply)
    ensures Within(OnReply(c, b, r), Generations(b) + Brought(b.wait, r), WaitIdentity(b.wait))
  {
    hide OnReply, Within, Generations, Brought, WaitIdentity;
    if b.wait.AwaitPersistedShow? || b.wait.AwaitShow? || b.wait.AwaitSet? || b.wait.AwaitClear? {
      ServerReplyWithin(c, b, r);
    } else {
      LocalReplyWithin(c, b, r);
    }
  }

  lemma TakeTurnWithin(b: Bridge)
    ensures Within(TakeTurn(b), BindingGenerations(b), if b.pending.Publish? then {b.pending.identity} else {})
    ensures TakeTurn(b).taken == b.taken + if b.pending == Empty then [] else [b.pending]
  {
    hide EndPresence;
    EndPresenceWithin(Note(b.(pending := Empty, taken := b.taken + [b.pending]),
                           Took(b.pending)), FeedThenClear);
  }

  // ----- Ownership

  /** A generation the bridge answers for: its own `set` wrote it, or what was written under it
      is exactly the binding of an identity that this bridge took up. */
  ghost predicate Owned(s: System, g: int)
  {
    g in s.world.written &&
    (g in s.world.bySelf || exists i :: Publish(i) in s.bridge.taken && MatchesIdentity(i, s.world.written[g]))
  }

  ghost predicate WorldOk(w: World)
  {
    && w.bySelf <= w.written.Keys
    && (w.current.Some? && w.current.value.updatedAt.Some? ==>
          w.current.value.updatedAt.value in w.written
          && w.written[w.current.value.updatedAt.value] == w.current.value)
  }

  ghost predicate OwnershipInv(s: System)
  {
    && WorldOk(s.world)
    && (forall g | g in Generations(s.bridge) :: Owned(s, g))
    && (forall i | i in WaitIdentity(s.bridge.wait) :: Publish(i) in s.bridge.taken)
    && (forall k | 0 <= k < |s.world.removed| :: Owned(s, s.world.removed[k]))
  }

  /** Later states own what earlier ones did. */
  ghost predicate Later(s: System, s': System)
  {
    && s.world.written.Keys <= s'.world.written.Keys
    && (forall g | g in s.world.written :: s'.world.written[g] == s.world.written[g])
    && s.world.bySelf <= s'.world.bySelf
    && (forall x | x in s.bridge.taken :: x in s'.bridge.taken)
  }

  lemma OwnedLater(s: System, s': System, g: int)
    requires Later(s, s') && Owned(s, g)
    ensures Owned(s', g)
  {
  }

  lemma LaterKeepsRemoved(s: System, s': System)
    requires Later(s, s') && OwnershipInv(s) && s'.world.removed == s.world.removed
    ensures forall k | 0 <= k < |s'.world.removed| :: Owned(s', s'.world.removed[k])
    ensures forall g | g in Generations(s.bridge) :: Owned(s', g)
  {
    forall k | 0 <= k < |s'.world.removed| ensures Owned(s', s'.world.removed[k]) {
      OwnedLater(s, s', s.world.removed[k]);
    }
    forall g | g in Generations(s.bridge) ensures Owned(s', g) {
      OwnedLater(s, s', g);
    }
  }

  /** A reply from the server, given that what it brings in is owned. */
  lemma ReplyKeepsOwnership(c: Config, s: System, w: World, r: Reply)
    requires OwnershipInv(s) && WorldOk(w) && w.removed == s.world.removed
    requires Later(s, System(s.bridge, w))
    requires forall g | g in Brought(s.bridge.wait, r) :: Owned(System(s.bridge, w), g)
    ensures OwnershipInv(System(OnReply(c, s.bridge, r), w))
  {
    var s' := System(OnReply(c, s.bridge, r), w);
    ReplyWithin(c, s.bridge, r);
    LaterKeepsRemoved(s, s');
    hide OnReply, Generations, Brought, WaitIdentity, MatchesIdentity;
    forall g | g in Brought(s.bridge.wait, r) ensures Owned(s', g) {
      OwnedLater(System(s.bridge, w), s', g);
    }
  }

  /** What the server reports as current, if it matches the turn's identity, is owned. */
  lemma CurrentIsOwned(s: System, i: Identity, g: int)
    requires WorldOk(s.world) && Publish(i) in s.bridge.taken && g in Adopted(i, s.world.current)
    ensures Owned(s, g)
  {
    assert MatchesIdentity(i, s.world.written[g]);
  }

  lemma StepKeepsOwnership(c: Config, s: System, i: Input)
    requires OwnershipInv(s)
    requires i.DoResume? ==> !WaitsForServer(s.bridge)
    ensures OwnershipInv(s.(bridge := Step(c, s.bridge, i)))
  {
    match i
    case DoUpdate(stamp, identity, hasUI, refresh) =>
      SubmitKeepsOwnership(s, s.bridge.(lastIdentity := Some(stamp)),
                           if identity.Some? then Publish(identity.value) else EndSession);
      hide Submit, OwnershipInv;
    case DoStop =>
      SubmitKeepsOwnership(s, s.bridge.(stopped := true), EndSession);
      hide Submit, OwnershipInv;
    case DoResume(reply) =>
      ResumeKeepsOwnership(c, s, reply);
      hide Resumed, OwnershipInv;
  }

  lemma ResumeKeepsOwnership(c: Config, s: System, reply: Reply)
    requires OwnershipInv(s) && !WaitsForServer(s.bridge)
    ensures OwnershipInv(s.(bridge := Resumed(c, s.bridge, reply)))
  {
    hide TakeTurn, OnReply;
    match s.bridge.wait {
      case NotRunning =>
      case AtLoop => TurnKeepsOwnership(s, s.bridge);
      case Finishing =>
        var b := s.bridge.(running := false, wait := NotRunning, drains := s.bridge.drains - 1);
        TurnKeepsOwnership(s, b.(running := true, drains := b.drains + 1));
        SettleKeepsOwnership(s, b);
      case _ =>
        ReplyKeepsOwnership(c, s, s.world, reply);
    }
    hide OwnershipInv;
  }

  lemma SettleKeepsOwnership(s: System, b: Bridge)
    requires OwnershipInv(s) && b.binding == s.bridge.binding && b.taken == s.bridge.taken && b.wait == NotRunning
    ensures OwnershipInv(s.(bridge := b))
  {
    LaterKeepsRemoved(s, s.(bridge := b));
  }

  lemma TurnKeepsOwnership(s: System, b: Bridge)
    requires OwnershipInv(s) && b.binding == s.bridge.binding && b.taken == s.bridge.taken
    ensures OwnershipInv(s.(bridge := TakeTurn(b)))
  {
    var s' := s.(bridge := TakeTurn(b));
    TakeTurnWithin(b);
    hide TakeTurn;
    LaterKeepsRemoved(s, s');
  }

  lemma SubmitKeepsOwnership(s: System, b: Bridge, slot: Slot)
    requires OwnershipInv(s)
    requires b == s.bridge.(lastIdentity := b.lastIdentity, stopped := b.stopped)
    ensures OwnershipInv(s.(bridge := Submit(b, slot))) && OwnershipInv(s.(bridge := b))
  {
    hide TakeTurn, OwnershipInv;
    var b' := b.(pending := slot, submitted := b.submitted + [slot]);
    SlotKeepsOwnership(s, b);
    SlotKeepsOwnership(s, b');
    if !b.running { TurnKeepsOwnership(s, b'.(running := true, drains := b'.drains + 1)); }
  }

  lemma SlotKeepsOwnership(s: System, b: Bridge)
    requires OwnershipInv(s) && b.wait == s.bridge.wait && b.binding == s.bridge.binding && b.taken == s.bridge.taken
    ensures OwnershipInv(s.(bridge := b))
  {
    LaterKeepsRemoved(s, s.(bridge := b));
  }

  lemma ActKeepsOwnership(c: Config, s: System, a: Action)
    requires OwnershipInv(s)
    ensures OwnershipInv(Act(c, s, a))
  {
    match a
    case Local(input) =>
      if !(input.DoResume? && WaitsForServer(s.bridge)) { StepKeepsOwnership(c, s, input); }
      hide Step;
    case Foreign(b) =>
      LaterKeepsRemoved(s, Act(c, s, a));
    case ShowAnswered(arrives) =>
      var r := if arrives then BindingIs(s.world.current) else Failed;
      forall g | g in Brought(s.bridge.wait, r) ensures Owned(s, g) {
        if s.bridge.wait.AwaitPersistedShow? { CurrentIsOwned(s, s.bridge.wait.identity, g); }
        if s.bridge.wait.AwaitSet? { CurrentIsOwned(s, s.bridge.wait.turn.identity, g); }
      }
      ReplyKeepsOwnership(c, s, s.world, r);
      hide OnReply;
    case SetAnswered(b, arrives) =>
      if s.bridge.wait.AwaitSet? { SetKeepsOwnership(c, s, b, arrives); }
      hide OnReply;
    case ClearAnswered(performed, arrives) =>
      if s.bridge.wait.AwaitClear? { ClearKeepsOwnership(c, s, performed, arrives); }
      hide OnReply;
  }

  lemma SetKeepsOwnership(c: Config, s: System, b: Option<ServerBinding>, arrives: bool)
    requires OwnershipInv(s) && s.bridge.wait.AwaitSet?
    ensures OwnershipInv(Act(c, s, SetAnswered(b, arrives)))
  {
    var w := SetEffect(s.world, b);
    var r := if arrives then BindingIs(w.current) else Failed;
    forall g | g in Brought(s.bridge.wait, r) ensures Owned(System(s.bridge, w), g) {
      CurrentIsOwned(System(s.bridge, w), s.bridge.wait.turn.identity, g);
    }
    ReplyKeepsOwnership(c, s, w, r);
    hide OnReply;
  }

  lemma ClearKeepsOwnership(c: Config, s: System, performed: bool, arrives: bool)
    requires OwnershipInv(s) && s.bridge.wait.AwaitClear?
    ensures OwnershipInv(Act(c, s, ClearAnswered(performed, arrives)))
  {
    var hit := ClearHits(s, performed);
    var r := if arrives then ClearedIs(hit) else Failed;
    var w := s.world.(current := if hit then None else s.world.current);
    ReplyKeepsOwnership(c, s, w, r);
    var s' := Act(c, s, ClearAnswered(performed, arrives));
    if hit {
      assert s.bridge.binding.value.updatedAt in Generations(s.bridge);
      ReplyWithin(c, s.bridge, r);
      OwnedLater(s, s', s.bridge.binding.value.updatedAt);
      forall k | 0 <= k < |s.world.removed| ensures Owned(s', s.world.removed[k]) {
        OwnedLater(s, s', s.world.removed[k]);
      }
    }
    hide OnReply;
  }

  lemma {:induction false} RunKeepsOwnership(c: Config, actions: seq<Action>)
    ensures OwnershipInv(RunSystem(c, actions))
  {
    if actions != [] {
      var n := |actions| - 1;
      RunKeepsOwnership(c, actions[..n]);
      ActKeepsOwnership(c, RunSystem(c, actions[..n]), actions[n]);
      hide Act;
    }
  }

  /** Against a server that honours the expected generation and never reuses one, whatever other
      agents write and whenever: every binding that a clear of the bridge has removed was written
      by the bridge's own `set`, or is exactly that of an identity the bridge took up. */
  lemma ClearsOnlyItsOwn(c: Config, actions: seq<Action>, k: nat)
    requires k < |RunSystem(c, actions).world.removed|
    ensures var s := RunSystem(c, actions); var g := s.world.removed[k];
      && g in s.world.written
      && (g in s.world.bySelf
          || exists i :: Publish(i) in s.bridge.taken && MatchesIdentity(i, s.world.written[g]))
  {
    RunKeepsOwnership(c, actions);
    assert Owned(RunSystem(c, actions), RunSystem(c, actions).world.removed[k]);
    hide RunSystem, MatchesIdentity;
  }

  /** A `set` is issued only over nothing, over a binding the bridge answers for, or over one with
      the launch command of the very session being published; this is of what `show` observed,
      since other agents may write before the `set` takes effect. */
  lemma SetOnlyOverItsOwn(c: Config, actions: seq<Action>, arrives: bool)
    requires var s := RunSystem(c, actions);
      s.bridge.wait.AwaitShow? && Act(c, s, ShowAnswered(arrives)).bridge.wait.AwaitSet?
    ensures var s := RunSystem(c, actions);
      || s.world.current.None?
      || (exists g :: s.world.current.value.updatedAt == Some(g) && Owned(s, g))
      || s.world.current.value.launch == Launch.Resume(s.bridge.wait.turn.identity.path, s.bridge.wait.turn.identity.id)
  {
    var s := RunSystem(c, actions);
    RunKeepsOwnership(c, actions);
    hide RunSystem, MatchesIdentity;
    if s.world.current.Some? && s.bridge.binding.Some? {
      assert s.bridge.binding.value.updatedAt in Generations(s.bridge);
    }
  }
}
