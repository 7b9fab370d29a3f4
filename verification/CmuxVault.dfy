/** src/cmux-vault.ts: the bridge that tells the cmux server which session runs where.
    One drain loop takes identities from a single replaceable slot and talks to the server;
    this module gives each stretch between two awaits as a function on the bridge's state. */
module CmuxVault {
  import opened Wrappers

  type SessionId(==, !new)
  type Path(==, !new)
  type Directory(==, !new)
  /** The whole of what an update reports, as it is compared with the last report. */
  type Stamp(==, !new)

  datatype Identity = Identity(id: SessionId, path: Path, cwd: Directory)

  /** `pending`: undefined, null or an identity. */
  datatype Slot = Empty | EndSession | Publish(identity: Identity)

  /** The local record of the binding this bridge answers for. */
  datatype VaultBinding = VaultBinding(path: Path, cwd: Directory, updatedAt: int, vaultEnabled: bool)

  /** The launch command of a binding: this program resuming one exact session, or any other. */
  datatype Launch = Resume(path: Path, id: SessionId) | OtherLaunch

  /** A binding as the server reports it; `None` stands for a field of the wrong type. */
  datatype ServerBinding = ServerBinding(isGsd: bool, fromAgentHook: bool, checkpoint: Path, cwd: Directory,
                                         updatedAt: Option<int>, launch: Launch, autoResume: Option<bool>)

  // ----- Policy

  datatype Flag = Zero | One | Unset

  datatype Preferences = Preferences(enabled: bool, vault: bool, resume: bool)

  /** What does not change while the bridge lives. */
  datatype Config = Config(owner: bool, externalBridge: bool, vaultFlag: Flag, resumeFlag: Flag, injected: bool)

  predicate Configured(flag: Flag, prefs: Option<Preferences>, wanted: Preferences -> bool)
  {
    prefs.Some? && prefs.value.enabled && flag != Zero && (flag == One || wanted(prefs.value))
  }

  predicate VaultConfigured(c: Config, prefs: Option<Preferences>)
  {
    Configured(c.vaultFlag, prefs, (p: Preferences) => p.vault)
  }

  predicate ResumeConfigured(c: Config, prefs: Option<Preferences>)
  {
    Configured(c.resumeFlag, prefs, (p: Preferences) => p.resume)
  }

  predicate VaultEnabled(c: Config, prefs: Option<Preferences>)
  {
    c.owner && !c.externalBridge && VaultConfigured(c, prefs) && !c.injected
  }

  predicate MatchesIdentity(i: Identity, b: ServerBinding)
  {
    && b.isGsd && b.fromAgentHook && b.checkpoint == i.path && b.cwd == i.cwd
    && b.updatedAt.Some? && b.launch == Resume(i.path, i.id)
  }

  // ----- The bridge between awaits

  /** One turn of the drain loop: the identity taken and the policy read for it. */
  datatype Turn = Turn(identity: Identity, vault: bool, resume: bool)

  /** Where `clear` was called from. */
  datatype AfterClear = ClearThenLoop | ClearAutomaticThen(pendingTurn: Option<Turn>)

  /** Where `endPresence` or `feed` was called from. */
  datatype AfterFeed =
    | FeedThenClear
    | FeedThenPolicy(turn: Turn)
    | FeedThenForget(next: AfterClear)
    | FeedThenClearAutomatic(pendingTurn: Option<Turn>)
    | FeedThenTrack(identity: Identity, updatedAt: int)
    | FeedThenStart
    | FeedThenLoop

  /** What the drain is waiting for. */
  datatype Wait =
    | NotRunning
    | AtLoop
    | Finishing
    | AwaitPreferences(identity: Identity)
    | AwaitStat(turn: Turn)
    | AwaitFeed(next: AfterFeed)
    | AwaitClear(after: AfterClear)
    | AwaitPersistedShow(identity: Identity)
    | AwaitShow(turn: Turn)
    | AwaitSet(turn: Turn)
    | AwaitMetadata(turn: Turn, previous: Option<VaultBinding>)

  /** The presence that the bridge announced, in order. */
  datatype Event = SessionStart(path: Path) | SessionEnd(path: Path)

  /** What turns were given, decided and asked for, in order. `FoundAutomatic` is the reply to a
      `set`, or to the `show` of a turn with both features off, that matches the session and is
      automatic; the `show` before a `set` finds nothing. `Tracks` is a binding that the bridge
      answers for from now on, with the identity when it is an unsafe automatic one. `Cleared` is
      the reply to a successful clear. `Blocks` ends an automatic clear, with the turn that waited. */
  datatype Act =
    | Took(slot: Slot)
    | Policy(turn: Turn)
    | AskedFile(path: Path)
    | FileIs(persisted: bool)
    | AskedBinding
    | AskedSet(identity: Identity)
    | AskedClear(generation: int)
    | FoundAutomatic(identity: Identity, generation: int)
    | Tracks(binding: VaultBinding, unsafe: Option<Identity>)
    | Cleared(after: AfterClear)
    | Blocks(pendingTurn: Option<Turn>)

  datatype Bridge = Bridge(
    pending: Slot,
    running: bool,
    stopped: bool,
    lastIdentity: Option<Stamp>,
    binding: Option<VaultBinding>,
    blocked: Option<Identity>,
    unsafe: Option<Identity>,
    wait: Wait,
    // History: drains under way, identities submitted to the slot and taken from it, presence, turns.
    drains: int,
    submitted: seq<Slot>,
    taken: seq<Slot>,
    log: seq<Event>,
    trail: seq<Act>)

  const FRESH: Bridge :=
    Bridge(Empty, false, false, None, None, None, None, NotRunning, 0, [], [], [], [])

  predicate Present(b: Option<VaultBinding>)
  {
    b.Some? && b.value.vaultEnabled
  }

  /** What has been asked for is waited for. */
  predicate Waiting(b: Bridge)
    requires b.trail != []
  {
    match b.trail[|b.trail| - 1]
    case Took(Publish(i)) => b.wait == AwaitPreferences(i)
    case AskedFile(path) => b.wait.AwaitStat? && b.wait.turn.identity.path == path
    case AskedBinding => b.wait.AwaitShow? || b.wait.AwaitPersistedShow?
    case AskedSet(i) => b.wait.AwaitSet? && b.wait.turn.identity == i
    case AskedClear(_) => b.wait.AwaitClear?
    case _ => true
  }

  /** Apart from the loop test and the final callback, nothing touches the slot or the record of
      what went through it, nothing rewrites the past, and nothing ends the drain; what is announced or asked for is
      waited for. */
  ghost predicate Quiet(b: Bridge, r: Bridge)
  {
    && r.pending == b.pending && r.running == b.running && r.stopped == b.stopped && r.drains == b.drains
    && r.submitted == b.submitted && r.taken == b.taken
    && b.log <= r.log && b.trail <= r.trail
    && (r.log != b.log ==> r.wait.AwaitFeed?) && (r.trail != b.trail ==> Waiting(r))
    && r.wait != NotRunning && r.wait != Finishing
  }

  function Emit(b: Bridge, e: Event): Bridge { b.(log := b.log + [e]) }

  function Note(b: Bridge, a: Act): Bridge { b.(trail := b.trail + [a]) }

  function Loop(b: Bridge): (r: Bridge)
    ensures Quiet(b, r)
  {
    b.(wait := AtLoop)
  }

  function SendClear(b: Bridge, after: AfterClear): (r: Bridge)
    requires b.binding.Some?
    ensures Quiet(b, r)
  {
    Note(b.(wait := AwaitClear(after)), AskedClear(b.binding.value.updatedAt))
  }

  /** The tracked binding is no longer present, and the session's end is announced. */
  function EndNow(b: Bridge, next: AfterFeed): (r: Bridge)
    requires Present(b.binding)
    ensures Quiet(b, r)
  {
    var ended := b.(binding := Some(b.binding.value.(vaultEnabled := false)), wait := AwaitFeed(next));
    Emit(ended, SessionEnd(b.binding.value.path))
  }

  /** The rest of a turn once no unsafe automatic binding stands in the way. */
  function Proceed(b: Bridge, t: Turn): (r: Bridge)
    ensures Quiet(b, r)
  {
    if !t.vault && !t.resume then
      if b.binding.Some? then SendClear(b, ClearThenLoop)
      else if b.blocked != Some(t.identity) then Note(b.(wait := AwaitPersistedShow(t.identity)), AskedBinding)
      else Loop(b)
    else if !t.resume && b.blocked == Some(t.identity) then Loop(b)
    else Note(b.(wait := AwaitStat(t)), AskedFile(t.identity.path))
  }

  /** `clear` has returned `cleared`. */
  function AfterCleared(b: Bridge, after: AfterClear, cleared: bool): (r: Bridge)
    ensures Quiet(b, r)
  {
    match after
    case ClearThenLoop => Loop(b)
    case ClearAutomaticThen(turn) =>
      if !cleared then Loop(b)
      else
        var b' := Note(b.(blocked := b.unsafe, unsafe := None), Blocks(turn));
        if turn.Some? then Proceed(b', turn.value) else Loop(b')
  }

  function IssueClear(b: Bridge, after: AfterClear): (r: Bridge)
    ensures Quiet(b, r)
  {
    if b.binding.None? then AfterCleared(b, after, true) else SendClear(b, after)
  }

  function ClearAutomatic(b: Bridge, turn: Option<Turn>): (r: Bridge)
    ensures Quiet(b, r)
  {
    if Present(b.binding) then EndNow(b, FeedThenClearAutomatic(turn))
    else IssueClear(b, ClearAutomaticThen(turn))
  }

  function CheckUnsafe(b: Bridge, t: Turn): (r: Bridge)
    ensures Quiet(b, r)
  {
    if !t.resume && b.unsafe.Some? then ClearAutomatic(b, Some(t)) else Proceed(b, t)
  }

  function AnnounceStart(b: Bridge): (r: Bridge)
    ensures Quiet(b, r)
  {
    if b.binding.Some? then Emit(b.(wait := AwaitFeed(FeedThenLoop)), SessionStart(b.binding.value.path)) else Loop(b)
  }

  function TrackAutomatic(b: Bridge, i: Identity, updatedAt: int): (r: Bridge)
    ensures Quiet(b, r)
  {
    var current := VaultBinding(i.path, i.cwd, updatedAt, false);
    ClearAutomatic(Note(b.(binding := Some(current), unsafe := Some(i)), Tracks(current, Some(i))), None)
  }

  /** `endPresence` or `feed` has returned; its own failures are swallowed. */
  function AfterFed(b: Bridge, next: AfterFeed): (r: Bridge)
    ensures Quiet(b, r)
  {
    match next
    case FeedThenClear => IssueClear(b, ClearThenLoop)
    case FeedThenPolicy(t) => CheckUnsafe(b, t)
    case FeedThenForget(after) => AfterCleared(b.(binding := None), after, true)
    case FeedThenClearAutomatic(turn) => IssueClear(b, ClearAutomaticThen(turn))
    case FeedThenTrack(i, updatedAt) => TrackAutomatic(b, i, updatedAt)
    case FeedThenStart => AnnounceStart(b)
    case FeedThenLoop => Loop(b)
  }

  function EndPresence(b: Bridge, next: AfterFeed): (r: Bridge)
    ensures Quiet(b, r)
  {
    if Present(b.binding) then EndNow(b, next) else AfterFed(b, next)
  }

  /** The loop test, and the first stretch of the turn it starts. */
  function TakeTurn(b: Bridge): Bridge
  {
    var b' := Note(b.(pending := Empty, taken := b.taken + [b.pending]), Took(b.pending));
    match b.pending
    case Empty => b.(wait := Finishing)
    case EndSession => EndPresence(b', FeedThenClear)
    case Publish(i) => b'.(wait := AwaitPreferences(i))
  }

  function Start(b: Bridge): Bridge
  {
    if b.running then b else TakeTurn(b.(running := true, drains := b.drains + 1))
  }

  function Submit(b: Bridge, slot: Slot): Bridge
  {
    Start(b.(pending := slot, submitted := b.submitted + [slot]))
  }

  function Update(c: Config, b: Bridge, stamp: Stamp, identity: Option<Identity>, hasUI: bool, refresh: bool): Bridge
  {
    if b.stopped || !hasUI || !c.owner || (!refresh && b.lastIdentity == Some(stamp)) then b
    else Submit(b.(lastIdentity := Some(stamp)), if identity.Some? then Publish(identity.value) else EndSession)
  }

  function Stop(c: Config, b: Bridge): Bridge
  {
    if b.stopped then b
    else
      var b' := b.(stopped := true);
      if !c.owner then b' else Submit(b', EndSession)
  }

  /** The callback that runs once the drain's promise is settled. */
  function Finish(b: Bridge): Bridge
  {
    var b' := b.(running := false, wait := NotRunning, drains := b.drains - 1);
    if b.pending != Empty then Start(b') else b'
  }

  // ----- Replies

  datatype Reply =
    | Failed
    | PreferencesAre(prefs: Option<Preferences>)
    | IsFile(persisted: bool)
    | BindingIs(binding: Option<ServerBinding>)
    | ClearedIs(cleared: bool)

  /** Enabled resume lifts every veto. */
  function ReadPolicy(b: Bridge, t: Turn): (r: Bridge)
    ensures r.wait == b.wait && r.binding == b.binding && r.log == b.log
    ensures r == b.(blocked := r.blocked, unsafe := r.unsafe, trail := r.trail)
  {
    var b' := if t.resume then b.(blocked := None, unsafe := None) else b;
    Note(b', Policy(t))
  }

  function OnPreferences(c: Config, b: Bridge, i: Identity, prefs: Option<Preferences>): (r: Bridge)
    ensures Quiet(b, r)
  {
    var t := Turn(i, VaultEnabled(c, prefs), ResumeConfigured(c, prefs));
    var b' := ReadPolicy(b, t);
    if !t.vault then EndPresence(b', FeedThenPolicy(t)) else CheckUnsafe(b', t)
  }

  /** What `publish` accepts to replace: nothing, the tracked binding, or its own relaunch. */
  predicate MayReplace(b: Bridge, i: Identity, observed: Option<ServerBinding>)
  {
    observed.None? ||
    (var o := observed.value;
     && o.isGsd && o.fromAgentHook
     && if b.binding.Some?
        then o.checkpoint == b.binding.value.path && o.updatedAt == Some(b.binding.value.updatedAt)
        else o.checkpoint == i.path && o.launch == Resume(i.path, i.id))
  }

  function OnShow(b: Bridge, t: Turn, observed: Option<ServerBinding>): (r: Bridge)
    ensures Quiet(b, r)
  {
    if MayReplace(b, t.identity, observed) then Note(b.(wait := AwaitSet(t)), AskedSet(t.identity)) else Loop(b)
  }

  function OnSet(b: Bridge, t: Turn, reply: Option<ServerBinding>): (r: Bridge)
    ensures Quiet(b, r)
  {
    if reply.None? || !MatchesIdentity(t.identity, reply.value) || reply.value.autoResume.None? then Loop(b)
    else if reply.value.autoResume.value && !t.resume then
      EndPresence(Note(b, FoundAutomatic(t.identity, reply.value.updatedAt.value)),
                  FeedThenTrack(t.identity, reply.value.updatedAt.value))
    else
      var current := VaultBinding(t.identity.path, t.identity.cwd, reply.value.updatedAt.value, t.vault);
      Note(b.(binding := Some(current), wait := AwaitMetadata(t, b.binding)), Tracks(current, None))
  }

  /** `publish` after the metadata files: end the presence of a binding left behind, then announce. */
  function OnMetadata(b: Bridge, t: Turn, previous: Option<VaultBinding>): (r: Bridge)
    ensures Quiet(b, r)
  {
    if Present(previous) && (previous.value.path != t.identity.path || !t.vault) then
      Emit(b.(wait := AwaitFeed(if t.vault then FeedThenStart else FeedThenLoop)), SessionEnd(previous.value.path))
    else if t.vault then AnnounceStart(b)
    else Loop(b)
  }

  function OnPersistedShow(b: Bridge, i: Identity, observed: Option<ServerBinding>): (r: Bridge)
    ensures Quiet(b, r)
  {
    if observed.Some? && observed.value.autoResume == Some(true) && MatchesIdentity(i, observed.value)
    then
      TrackAutomatic(Note(b, FoundAutomatic(i, observed.value.updatedAt.value)), i, observed.value.updatedAt.value)
    else Loop(b)
  }

  function OnCleared(b: Bridge, after: AfterClear, cleared: bool): (r: Bridge)
    ensures Quiet(b, r)
  {
    if !cleared then AfterCleared(b.(lastIdentity := None), after, false)
    else EndPresence(Note(b, Cleared(after)), FeedThenForget(after))
  }

  /** A call that failed, or answered with something malformed, ends the turn. */
  function OnFailure(b: Bridge): (r: Bridge)
    ensures Quiet(b, r)
  {
    match b.wait
    case AwaitClear(ClearAutomaticThen(_)) => Loop(b.(lastIdentity := None))
    case _ => Loop(b)
  }

  function OnStat(b: Bridge, t: Turn, persisted: bool): (r: Bridge)
    ensures Quiet(b, r)
  {
    var b' := Note(b, FileIs(persisted));
    if persisted then Note(b'.(wait := AwaitShow(t)), AskedBinding) else IssueClear(b', ClearThenLoop)
  }

  function OnReply(c: Config, b: Bridge, reply: Reply): (r: Bridge)
    ensures Quiet(b, r)
  {
    match (b.wait, reply)
    case (AwaitPreferences(i), PreferencesAre(p)) => OnPreferences(c, b, i, p)
    case (AwaitStat(t), _) => OnStat(b, t, reply == IsFile(true))
    case (AwaitFeed(next), _) => AfterFed(b, next)
    case (AwaitMetadata(t, previous), _) => OnMetadata(b, t, previous)
    case (AwaitClear(after), ClearedIs(cleared)) => OnCleared(b, after, cleared)
    case (AwaitPersistedShow(i), BindingIs(o)) => OnPersistedShow(b, i, o)
    case (AwaitShow(t), BindingIs(o)) => OnShow(b, t, o)
    case (AwaitSet(t), BindingIs(o)) => OnSet(b, t, o)
    case _ => OnFailure(b)
  }

  /** The drain goes on: at a loop test, after the loop, or with the reply it waits for. */
  function Resumed(c: Config, b: Bridge, r: Reply): Bridge
  {
    match b.wait
    case NotRunning => b
    case AtLoop => TakeTurn(b)
    case Finishing => Finish(b)
    case _ => OnReply(c, b, r)
  }
}
