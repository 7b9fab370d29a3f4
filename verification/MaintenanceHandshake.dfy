/** The handshake by which the frontend (src/coordination-maintenance-cli.ts) comes to trust its
    child, and the child (src/coordination-maintenance-worker.ts) its parent. Messages travel in
    order; the frontend may stop, and the channel may break, at any point. */
module MaintenanceHandshake {
  /** What a message from the child is to the frontend. */
  datatype Message = AwaitingStart | Ready(tokenMatches: bool) | OtherMessage

  // ----- The frontend's side

  datatype Supervisor = Supervisor(handshakeSent: bool, ready: bool, stopping: bool, finished: bool)

  function StopSupervisor(s: Supervisor): Supervisor
  {
    if s.finished then s else s.(stopping := true)
  }

  predicate AnswersStart(s: Supervisor, message: Message)
  {
    message == AwaitingStart && !s.handshakeSent && !s.stopping
  }

  function OnMessage(s: Supervisor, message: Message): Supervisor
  {
    if AnswersStart(s, message) then s.(handshakeSent := true)
    else if s.ready || s.stopping || message != Ready(true) then StopSupervisor(s)
    else s.(ready := true)
  }

  /** What each message does, whatever the frontend's state. */
  lemma MessageMeans(s: Supervisor, message: Message)
    ensures var t := OnMessage(s, message);
            var awaited := !s.stopping && ((message == AwaitingStart && !s.handshakeSent)
                                           || (message == Ready(true) && !s.ready));
            && (t.handshakeSent <==> s.handshakeSent || (message == AwaitingStart && !s.stopping))
            && (t.ready <==> s.ready || (message == Ready(true) && !s.stopping))
            && (t.stopping <==> s.stopping || (!s.finished && !awaited)) && t.finished == s.finished
  {
  }

  // ----- The worker

  type Token(==, !new)

  /** A start that carries no well-formed token and directory is malformed. */
  datatype StartMessage = Start(token: Token, parentPid: int) | Malformed

  datatype WorkerMessage = TellAwaitingStart | TellReady(token: Token)

  datatype Phase = Booting | Listening | Importing(token: Token) | Running | Exited(code: int)

  /** `signals` counts the SIGTERMs delivered to the backend, `backends` its starts. */
  datatype Worker = Worker(parentPid: int, phase: Phase, disconnected: bool, backendRunning: bool,
                           deadlineArmed: bool, signals: nat, backends: nat, told: seq<WorkerMessage>)

  function NewWorker(parentPid: int): Worker
  {
    Worker(parentPid, Booting, false, false, false, 0, 0, [])
  }

  function Tell(w: Worker, m: WorkerMessage): Worker { w.(told := w.told + [m]) }

  /** Without a supervising channel the worker refuses before it loads anything. */
  function Boot(w: Worker, supervised: bool): Worker
  {
    if !w.phase.Booting? then w
    else if supervised then Tell(w.(phase := Listening), TellAwaitingStart)
    else w.(phase := Exited(1))
  }

  function OnStart(w: Worker, start: StartMessage, ppid: int): Worker
  {
    if !w.phase.Listening? then w
    else if start.Malformed? || start.parentPid != w.parentPid || ppid != w.parentPid then w.(phase := Exited(1))
    else w.(phase := Importing(start.token))
  }

  function OnImported(w: Worker, ok: bool): Worker
  {
    match w.phase
    case Importing(token) =>
      if !ok then w.(phase := Exited(1))
      else
        var started := w.(phase := Running, backendRunning := true, backends := w.backends + 1);
        var warned := if w.disconnected then started.(signals := started.signals + 1) else started;
        Tell(warned, TellReady(token))
    case _ => w
  }

  function OnDisconnect(w: Worker): Worker
  {
    if w.phase.Exited? || w.phase.Booting? || w.disconnected then w
    else if !w.backendRunning then w.(disconnected := true, phase := Exited(1))
    else w.(disconnected := true, signals := w.signals + 1, deadlineArmed := true)
  }

  function OnBackendSettled(w: Worker, code: int): Worker
  {
    if w.phase.Running? then w.(phase := Exited(code), deadlineArmed := false) else w
  }

  // ----- Both together

  datatype System = System(token: Token, parentPid: int, supervisor: Supervisor, worker: Worker,
                           toWorker: seq<StartMessage>, delivered: nat)

  datatype Event =
    | WorkerBoots(supervised: bool)
    | StartupTimeout
    | StartArrives(ppid: int)
    | ImportSettles(ok: bool)
    | BackendSettles(code: int)
    | Disconnected
    | DeadlineFires
    | MessageArrives
    | FrontendStops
    | FrontendFinishes

  function Initial(token: Token, parentPid: int): System
  {
    System(token, parentPid, Supervisor(false, false, false, false), NewWorker(parentPid), [], 0)
  }

  function Seen(s: System, m: WorkerMessage): Message
  {
    match m
    case TellAwaitingStart => AwaitingStart
    case TellReady(token) => Ready(token == s.token)
  }

  function Deliver(s: System): System
  {
    if s.delivered >= |s.worker.told| then s
    else
      var message := Seen(s, s.worker.told[s.delivered]);
      s.(delivered := s.delivered + 1, supervisor := OnMessage(s.supervisor, message),
         toWorker := s.toWorker + if AnswersStart(s.supervisor, message) then [Start(s.token, s.parentPid)] else [])
  }

  function Step(s: System, e: Event): System
  {
    match e
    case WorkerBoots(supervised) => s.(worker := Boot(s.worker, supervised))
    case StartupTimeout => if s.worker.phase.Listening? then s.(worker := s.worker.(phase := Exited(1))) else s
    case StartArrives(ppid) =>
      if s.toWorker == [] then s
      else s.(toWorker := s.toWorker[1..], worker := OnStart(s.worker, s.toWorker[0], ppid))
    case ImportSettles(ok) => s.(worker := OnImported(s.worker, ok))
    case BackendSettles(code) => s.(worker := OnBackendSettled(s.worker, code))
    case Disconnected => s.(worker := OnDisconnect(s.worker))
    case DeadlineFires => if s.worker.deadlineArmed then s.(worker := s.worker.(phase := Exited(1))) else s
    case MessageArrives => Deliver(s)
    case FrontendStops => s.(supervisor := StopSupervisor(s.supervisor))
    case FrontendFinishes => s.(supervisor := s.supervisor.(finished := true))
  }

  function Run(token: Token, parentPid: int, events: seq<Event>): System
  {
    if events == [] then Initial(token, parentPid)
    else Step(Run(token, parentPid, events[..|events| - 1]), events[|events| - 1])
  }

  // ----- What every run keeps

  /** The worker announces itself once and reports ready once, with the token it was given. */
  predicate Script(s: System)
  {
    var told := s.worker.told;
    && |told| <= 2 && s.delivered <= |told|
    && (|told| >= 1 ==> told[0] == TellAwaitingStart)
    && (|told| >= 2 ==> told[1] == TellReady(s.token))
    && s.worker.backends == (if |told| == 2 then 1 else 0)
    && (s.worker.phase.Booting? ==> told == [])
    && (s.worker.phase.Listening? || s.worker.phase.Importing? ==> |told| == 1)
    && (s.worker.phase.Running? ==> |told| == 2)
    && (s.worker.phase.Importing? ==> s.worker.phase.token == s.token)
  }

  predicate Trust(s: System)
  {
    var f := s.supervisor;
    && s.worker.parentPid == s.parentPid
    && (s.toWorker == [] || s.toWorker == [Start(s.token, s.parentPid)])
    && (s.toWorker != [] ==>
          f.handshakeSent && !s.worker.phase.Booting? && !s.worker.phase.Importing? && s.worker.backends == 0)
    && (f.handshakeSent ==> s.delivered >= 1)
    && (s.delivered >= 1 && !f.stopping ==> f.handshakeSent)
    && (s.worker.phase.Importing? || s.worker.backends > 0 ==> f.handshakeSent)
    && (f.ready ==> s.delivered == 2 && f.handshakeSent)
    && (s.delivered == 2 && !f.stopping ==> f.ready)
  }

  /** A worker that lost its parent is gone, or has told its backend once and given it a deadline. */
  predicate Supervised(w: Worker)
  {
    && (w.phase.Running? ==> w.backendRunning)
    && (w.phase.Booting? || w.phase.Listening? || w.phase.Importing? ==> !w.backendRunning && !w.disconnected)
    && w.signals <= 1 && (w.signals == 1 ==> w.disconnected)
    && (w.disconnected && !w.phase.Exited? ==> w.signals == 1 && w.deadlineArmed)
    && (w.deadlineArmed ==> w.signals == 1 && w.backendRunning && w.phase in {Running, Exited(1)})
  }

  predicate Sound(s: System)
  {
    Script(s) && Trust(s) && Supervised(s.worker)
  }

  lemma DeliverKeeps(s: System)
    requires Sound(s)
    ensures Sound(Deliver(s)) && (!s.supervisor.stopping ==> !Deliver(s).supervisor.stopping)
  {
  }

  lemma StartKeeps(s: System, ppid: int)
    requires Sound(s)
    ensures Sound(Step(s, StartArrives(ppid)))
  {
  }

  lemma ImportKeeps(s: System, ok: bool)
    requires Sound(s)
    ensures Sound(Step(s, ImportSettles(ok)))
  {
    assert !s.worker.phase.Importing? || s.toWorker == [];
  }

  lemma BootKeeps(s: System, supervised: bool)
    requires Sound(s)
    ensures Sound(Step(s, WorkerBoots(supervised)))
  {
  }

  lemma StepKeeps(s: System, e: Event)
    requires Sound(s)
    ensures Sound(Step(s, e)) && (!s.supervisor.stopping && !e.FrontendStops? ==> !Step(s, e).supervisor.stopping)
    ensures Step(s, e).token == s.token && Step(s, e).parentPid == s.parentPid
  {
    hide Deliver, Boot, OnStart, OnImported;
    match e
    case MessageArrives => DeliverKeeps(s); DeliverIsLocal(s);
    case StartArrives(ppid) => StartKeeps(s, ppid);
    case ImportSettles(ok) => ImportKeeps(s, ok);
    case WorkerBoots(supervised) => BootKeeps(s, supervised);
    case _ =>
  }

  lemma DeliverIsLocal(s: System)
    ensures Deliver(s).token == s.token && Deliver(s).parentPid == s.parentPid && Deliver(s).worker == s.worker
  {
  }

  lemma {:induction false} RunKeeps(token: Token, parentPid: int, events: seq<Event>)
    ensures var s := Run(token, parentPid, events);
            s.token == token && s.parentPid == parentPid && Sound(s)
  {
    if events != [] {
      RunKeeps(token, parentPid, events[..|events| - 1]);
      StepKeeps(Run(token, parentPid, events[..|events| - 1]), events[|events| - 1]);
      hide Step, Sound;
    }
  }

  /** The frontend believes in a ready child only when that has started its backend, once, on the
      start the frontend itself sent; and a backend never starts without that. */
  lemma ReadyMeansStarted(token: Token, parentPid: int, events: seq<Event>)
    ensures var s := Run(token, parentPid, events);
            && (s.supervisor.ready ==> s.worker.backends == 1 && TellReady(token) in s.worker.told)
            && s.worker.backends <= 1
            && (s.worker.backends == 1 ==> s.supervisor.handshakeSent)
  {
    RunKeeps(token, parentPid, events);
  }

  /** A genuine worker never says anything that makes the frontend stop. */
  lemma {:induction false} GenuineWorkerIsNotStopped(token: Token, parentPid: int, events: seq<Event>)
    requires FrontendStops !in events
    ensures !Run(token, parentPid, events).supervisor.stopping
  {
    if events != [] {
      var n := |events| - 1;
      GenuineWorkerIsNotStopped(token, parentPid, events[..n]);
      RunKeeps(token, parentPid, events[..n]);
      assert events[n] in events;
      StepKeeps(Run(token, parentPid, events[..n]), events[n]);
      hide Step, Sound;
    }
  }

  /** The parent's disappearance reaches the backend exactly once, or finds no backend to reach;
      in particular it never comes between the imports and the start of the backend. */
  lemma OrphanIsToldOnce(token: Token, parentPid: int, events: seq<Event>)
    ensures var w := Run(token, parentPid, events).worker;
            && w.signals <= 1
            && (w.disconnected && w.backends > 0 ==> w.signals == 1)
            && (w.disconnected && !w.phase.Exited? ==> w.deadlineArmed)
            && (w.phase.Importing? ==> !w.disconnected)
  {
    RunKeeps(token, parentPid, events);
    SignalCount(token, parentPid, events);
  }

  predicate Signalled(w: Worker)
  {
    w.disconnected && w.backends > 0 ==> w.signals == 1
  }

  lemma StepSignals(s: System, e: Event)
    requires Sound(s) && Signalled(s.worker)
    ensures Signalled(Step(s, e).worker)
  {
    hide Trust, Deliver;
    DeliverIsLocal(s);
  }

  lemma {:induction false} SignalCount(token: Token, parentPid: int, events: seq<Event>)
    ensures Signalled(Run(token, parentPid, events).worker)
  {
    if events != [] {
      SignalCount(token, parentPid, events[..|events| - 1]);
      RunKeeps(token, parentPid, events[..|events| - 1]);
      StepSignals(Run(token, parentPid, events[..|events| - 1]), events[|events| - 1]);
      hide Step, Sound, Signalled;
    }
  }

  // ----- What starts a backend, and what ends a worker

  lemma RunOneMore(token: Token, parentPid: int, events: seq<Event>, e: Event)
    ensures Run(token, parentPid, events + [e]) == Step(Run(token, parentPid, events), e)
  {
    assert (events + [e])[..|events|] == events;
  }

  /** What must have happened for a worker to have come where it is. */
  predicate Explained(s: System, events: seq<Event>)
  {
    var w := s.worker;
    && (!w.phase.Booting? && !w.phase.Exited? ==> WorkerBoots(true) in events)
    && (w.phase.Importing? || w.backends > 0 ==> WorkerBoots(true) in events && StartArrives(s.parentPid) in events)
    && (w.backends > 0 ==> ImportSettles(true) in events)
  }

  lemma StepExplains(s: System, events: seq<Event>, e: Event)
    requires Sound(s) && Explained(s, events)
    ensures Explained(Step(s, e), events + [e])
  {
    hide Supervised, Deliver;
    assert e in events + [e] && forall d | d in events :: d in events + [e];
    DeliverIsLocal(s);
  }

  /** A backend takes a supervised worker, a start that finds the parent the worker was born with, and
      imports that succeed. */
  lemma {:induction false} BackendNeeds(token: Token, parentPid: int, events: seq<Event>)
    ensures Explained(Run(token, parentPid, events), events)
  {
    if events != [] {
      var n := |events| - 1;
      BackendNeeds(token, parentPid, events[..n]);
      RunKeeps(token, parentPid, events[..n]);
      StepExplains(Run(token, parentPid, events[..n]), events[..n], events[n]);
      assert events[..n] + [events[n]] == events;
      hide Step, Sound, Explained;
    }
  }

  /** The states of an undisturbed handshake: announced, started, imported, ready. */
  lemma UndisturbedSteps(token: Token, parentPid: int)
    ensures var booted := Step(Initial(token, parentPid), WorkerBoots(true));
            var sent := Step(booted, MessageArrives);
            var imported := Step(Step(sent, StartArrives(parentPid)), ImportSettles(true));
            var s := Step(imported, MessageArrives);
            s.supervisor.ready && !s.supervisor.stopping && s.worker.phase.Running? && s.worker.backendRunning
  {
    var told := [TellAwaitingStart];
    var sent := System(token, parentPid, Supervisor(true, false, false, false),
                       NewWorker(parentPid).(phase := Listening, told := told), [Start(token, parentPid)], 1);
    assert [] + told == told && [] + [Start(token, parentPid)] == [Start(token, parentPid)];
    assert Step(Step(Initial(token, parentPid), WorkerBoots(true)), MessageArrives) == sent;
  }

  function Undisturbed(parentPid: int): seq<Event>
  {
    [WorkerBoots(true), MessageArrives, StartArrives(parentPid), ImportSettles(true), MessageArrives]
  }

  /** And nothing else: the five events of an undisturbed handshake make the frontend ready and the
      backend run. */
  lemma HandshakeSucceeds(token: Token, parentPid: int)
    ensures var s := Run(token, parentPid, Undisturbed(parentPid));
            s.supervisor.ready && !s.supervisor.stopping && s.worker.phase.Running? && s.worker.backendRunning
  {
    hide Step, Initial, Run;
    var e := Undisturbed(parentPid);
    UndisturbedSteps(token, parentPid);
    BeforeAll(token, parentPid);
    OneMoreOf(token, parentPid, e, 0);
    OneMoreOf(token, parentPid, e, 1);
    OneMoreOf(token, parentPid, e, 2);
    OneMoreOf(token, parentPid, e, 3);
    OneMoreOf(token, parentPid, e, 4);
    assert e[..0] == [] && e[..5] == e;
  }

  lemma BeforeAll(token: Token, parentPid: int)
    ensures Run(token, parentPid, []) == Initial(token, parentPid)
  {
  }

  lemma OneMoreOf(token: Token, parentPid: int, e: seq<Event>, n: nat)
    requires n < |e|
    ensures Run(token, parentPid, e[..n + 1]) == Step(Run(token, parentPid, e[..n]), e[n])
  {
    assert e[..n + 1] == e[..n] + [e[n]];
    RunOneMore(token, parentPid, e[..n], e[n]);
    hide Run, Step;
  }

  /** What ends a worker at once, and what it makes of the end of its parent, in every state that a
      run can come to. */
  lemma WorkerEnds(s: System, ppid: int, code: int)
    requires Sound(s)
    ensures s.worker.phase.Booting? ==> Step(s, WorkerBoots(false)).worker.phase == Exited(1)
    ensures s.worker.phase.Listening? ==> Step(s, StartupTimeout).worker.phase == Exited(1)
    ensures s.worker.phase.Listening? && s.toWorker != [] && ppid != s.parentPid ==>
              Step(s, StartArrives(ppid)).worker.phase == Exited(1)
    ensures s.worker.phase.Importing? ==> Step(s, ImportSettles(false)).worker.phase == Exited(1)
    ensures s.worker.phase.Listening? || s.worker.phase.Importing? ==>
              Step(s, Disconnected).worker.phase == Exited(1)
    ensures s.worker.phase.Running? ==> Step(s, BackendSettles(code)).worker.phase == Exited(code)
    ensures s.worker.phase.Running? && s.worker.disconnected ==> Step(s, DeadlineFires).worker.phase == Exited(1)
    ensures s.worker.phase.Running? && !s.worker.disconnected ==>
              var w := Step(s, Disconnected).worker;
              w.phase == s.worker.phase && w.disconnected && w.deadlineArmed && w.signals == s.worker.signals + 1
  {
    hide Script;
  }

  /** A worker that has exited stays so, with its code. */
  lemma ExitIsFinal(s: System, e: Event)
    requires Sound(s) && s.worker.phase.Exited?
    ensures Step(s, e).worker.phase == s.worker.phase
  {
    hide Script, Trust, Deliver;
    DeliverIsLocal(s);
  }

  /** Nothing else that happens to a worker changes it: what settles, fires or arrives at another time. */
  lemma OtherwiseNothing(s: System, ppid: int, code: int, supervised: bool, ok: bool)
    requires Sound(s)
    ensures !s.worker.phase.Booting? ==> Step(s, WorkerBoots(supervised)) == s
    ensures !s.worker.phase.Listening? ==>
              Step(s, StartupTimeout) == s && Step(s, StartArrives(ppid)).worker == s.worker
    ensures !s.worker.phase.Importing? ==> Step(s, ImportSettles(ok)) == s
    ensures !s.worker.phase.Running? ==> Step(s, BackendSettles(code)) == s
    ensures s.worker.signals == 0 ==> Step(s, DeadlineFires) == s
    ensures s.worker.phase.Booting? || s.worker.phase.Exited? || s.worker.disconnected ==> Step(s, Disconnected) == s
    ensures Step(s, FrontendFinishes) == s.(supervisor := s.supervisor.(finished := true))
    ensures Step(s, FrontendStops) ==
            if s.supervisor.finished then s else s.(supervisor := s.supervisor.(stopping := true))
  {
    hide Script, Trust;
  }

  /** Any other start than one from the worker's own parent is refused. */
  lemma ForeignStartIsRefused(w: Worker, token: Token, claimed: int, ppid: int)
    requires w.phase.Listening?
    ensures OnStart(w, Malformed, ppid).phase == Exited(1)
    ensures OnStart(w, Start(token, claimed), ppid).phase ==
            if claimed == ppid && ppid == w.parentPid then Importing(token) else Exited(1)
  {
  }
}
