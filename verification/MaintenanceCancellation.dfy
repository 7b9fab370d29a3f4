/** The backend when it can be stopped at any await: a timeout, a signal or a broken output may
    come between any two of its steps, also while the host is being opened. Steps run to
    completion, as macrotasks do in JavaScript; replies, openings and writes may fail. */
module MaintenanceCancellation {
  import opened Wrappers
  import opened MaintenanceFrames
  import opened MaintenanceBackend

  /** The await at which the protocol function is suspended. */
  datatype Phase =
    | Reading
    | Opening(frame: Frame)
    | Writing(status: Status)
    | Apologizing
    | Done

  /** The history, in order; `StopCame` is the stop taking effect. */
  datatype Happening =
    | Opened
    | Called(call: Call)
    | Wrote(requestId: Option<string>, status: Status)
    | WriteFailed
    | Closed
    | StopCame

  /** `opening`: the promise of `openHost` is unsettled, which can outlast the function itself.
      `received` and `accepted` record the bytes read and the frames taken from them, `inputEnded`
      whether the end of the input has been read. */
  datatype State = State(
    phase: Phase,
    pending: Bytes,
    totalBytes: nat,
    frames: nat,
    prepared: bool,
    stopped: bool,
    hostOpen: bool,
    opening: bool,
    requestId: Option<string>,
    exitCode: int,
    history: seq<Happening>,
    received: Bytes,
    accepted: seq<Frame>,
    inputEnded: bool)

  const START := State(Reading, [], 0, 0, false, false, false, false, None, 0, [], [], [], false)

  /** What the environment decides. `answer` is what the host replies if the step calls it
      (`None`: it throws); `small` whether the reply line fits. */
  datatype Input =
    | Chunk(bytes: Bytes, answer: Option<Reply>, small: bool)
    | EndOfInput
    | HostSettles(ok: bool, answer: Option<Reply>, small: bool)
    | WriteSettles(ok: bool, answer: Option<Reply>, small: bool)
    | StopRequest

  function Happen(s: State, h: Happening): State { s.(history := s.history + [h]) }

  /** `finally`: close the host if there is one. */
  function Finally(s: State): State
  {
    var done := s.(phase := Done, requestId := None);
    if s.hostOpen then Happen(done.(hostOpen := false), Closed) else done
  }

  /** `catch`: one last refusal, unless stopped. */
  function Catch(s: State): State
  {
    var failed := s.(exitCode := 1);
    if s.stopped then Finally(failed)
    else Happen(failed.(phase := Apologizing), Wrote(s.requestId, Refused))
  }

  function CallTheHost(s: State, f: Frame, answer: Option<Reply>, small: bool): State
  {
    var called := Happen(s.(prepared := s.prepared || f.command == Prepare), Called(Call(f.command, f.input)));
    if answer.None? || answer.value.status == Unlisted || !small then Catch(called)
    else Happen(called.(phase := Writing(answer.value.status)), Wrote(Some(f.requestId), answer.value.status))
  }

  function TakeFrame(s: State, f: Frame, answer: Option<Reply>, small: bool): State
  {
    var taken := s.(requestId := Some(f.requestId), accepted := s.accepted + [f]);
    if f.command == Prepare && s.prepared then Catch(taken)
    else if !s.hostOpen then taken.(phase := Opening(f), opening := true)
    else CallTheHost(taken, f, answer, small)
  }

  /** The inner loop up to its next await: at most one frame. */
  function Pump(decode: Bytes -> Option<Json>, s: State, answer: Option<Reply>, small: bool): State
  {
    var newline := IndexOfNewline(s.pending);
    if newline == |s.pending| then
      if |s.pending| > FRAME_BYTES then Catch(s) else s.(phase := Reading)
    else
      var t := s.(pending := s.pending[newline + 1..], frames := s.frames + 1);
      var f := ParseFrame(decode(s.pending[..newline]));
      if newline > FRAME_BYTES || s.frames + 1 > FRAMES || f.None? then Catch(t)
      else TakeFrame(t, f.value, answer, small)
  }

  function Step(decode: Bytes -> Option<Json>, s: State, i: Input): State
  {
    match i
    case Chunk(bytes, answer, small) =>
      if s.phase != Reading then s
      else
        var t := s.(totalBytes := s.totalBytes + |bytes|, received := s.received + bytes);
        if t.totalBytes > TOTAL_BYTES then Catch(t)
        else Pump(decode, t.(pending := s.pending + bytes), answer, small)
    case EndOfInput =>
      if s.phase != Reading then s
      else if s.pending != [] || s.frames == 0 then Catch(s.(inputEnded := true))
      else Finally(s.(inputEnded := true))
    case HostSettles(ok, answer, small) =>
      if !s.opening then s
      else
        var settled := s.(opening := false);
        if !ok then (if s.phase.Opening? then Catch(settled) else settled)
        else if s.stopped || !s.phase.Opening? then Happen(Happen(settled, Opened), Closed)
        else CallTheHost(Happen(settled.(hostOpen := true), Opened), s.phase.frame, answer, small)
    case WriteSettles(ok, answer, small) =>
      match s.phase {
        case Writing(status) =>
          if !ok then Catch(Happen(s, WriteFailed))
          else if status == Refused then Finally(s.(exitCode := 1))
          else Pump(decode, s.(requestId := None), answer, small)
        case Apologizing => Finally(if ok then s else Happen(s, WriteFailed))
        case _ => s
      }
    case StopRequest =>
      if s.phase == Done then s
      else Catch(Happen(s.(stopped := true), StopCame))
  }

  function Run(decode: Bytes -> Option<Json>, inputs: seq<Input>): State
  {
    if inputs == [] then START
    else Step(decode, Run(decode, inputs[..|inputs| - 1]), inputs[|inputs| - 1])
  }

  // ----- Readings of the history

  function Opens(h: seq<Happening>): nat { multiset(h)[Opened] }
  function Closes(h: seq<Happening>): nat { multiset(h)[Closed] }

  /** Calls of `prepare`. */
  function Prepares(h: seq<Happening>): nat
  {
    if h == [] then 0
    else
      var n := |h| - 1;
      Prepares(h[..n]) + if h[n].Called? && h[n].call.command == Prepare then 1 else 0
  }

  predicate StopSeen(h: seq<Happening>) { StopCame in h }

  /** No call after a stop. */
  predicate QuietAfterStop(h: seq<Happening>)
  {
    h == [] || (QuietAfterStop(h[..|h| - 1]) && (h[|h| - 1].Called? ==> !StopSeen(h[..|h| - 1])))
  }

  /** The replies in order, without those whose write is known to have failed. */
  function Writes(h: seq<Happening>): seq<(Option<string>, Status)>
  {
    if h == [] then [] else WritesWith(Writes(h[..|h| - 1]), h[|h| - 1])
  }

  function WritesWith(w: seq<(Option<string>, Status)>, e: Happening): seq<(Option<string>, Status)>
  {
    match e
    case Wrote(requestId, status) => w + [(requestId, status)]
    case WriteFailed => if w == [] then [] else w[..|w| - 1]
    case _ => w
  }

  lemma HistoryStep(h: seq<Happening>, e: Happening)
    ensures Opens(h + [e]) == Opens(h) + if e == Opened then 1 else 0
    ensures Closes(h + [e]) == Closes(h) + if e == Closed then 1 else 0
    ensures Prepares(h + [e]) == Prepares(h) + if e.Called? && e.call.command == Prepare then 1 else 0
    ensures StopSeen(h + [e]) <==> StopSeen(h) || e == StopCame
    ensures QuietAfterStop(h + [e]) <==> QuietAfterStop(h) && (e.Called? ==> !StopSeen(h))
    ensures Writes(h + [e]) == WritesWith(Writes(h), e)
  {
    assert (h + [e])[..|h|] == h;
  }

  // ----- What every step keeps

  /** The first `n` replies answer the first `n` frames, and none of them is a refusal. */
  ghost predicate Answered(w: seq<(Option<string>, Status)>, a: seq<Frame>, n: int)
  {
    n <= |w| && n <= |a| && forall k | 0 <= k < n :: w[k].0 == Some(a[k].requestId) && w[k].1 != Refused
  }

  /** Replies are in the order of the frames; only the last may be a refusal, and only a refusal
      may be anonymous. */
  ghost predicate InOrder(w: seq<(Option<string>, Status)>, a: seq<Frame>)
  {
    var n := |w| - 1;
    Answered(w, a, n) &&
    (w != [] ==> if w[n].0.None? then w[n].1 == Refused else n < |a| && w[n].0 == Some(a[n].requestId))
  }

  /** What the history says of the host and of the stop. */
  ghost predicate Ledger(s: State)
  {
    && Opens(s.history) == Closes(s.history) + (if s.hostOpen then 1 else 0)
    && Opens(s.history) <= 1
    && ((s.opening || (s.phase != Done && !s.hostOpen)) ==> Opens(s.history) == 0)
    && (StopSeen(s.history) <==> s.stopped)
    && QuietAfterStop(s.history)
    && Prepares(s.history) == (if s.prepared then 1 else 0)
  }

  ghost predicate Inv(s: State)
  {
    var w := Writes(s.history);
    && Ledger(s)
    && InOrder(w, s.accepted)
    && (s.stopped ==> s.phase == Done && s.exitCode == 1)
    && (s.hostOpen ==> !s.opening)
    && (s.opening && s.phase == Done ==> s.stopped)
    && (match s.phase
        case Reading =>
          !s.opening && s.requestId == None && |w| == |s.accepted| && Answered(w, s.accepted, |w|) && s.exitCode == 0
        case Opening(f) =>
          && s.opening && !s.hostOpen && s.requestId == Some(f.requestId) && s.exitCode == 0
          && |s.accepted| == |w| + 1 && Answered(w, s.accepted, |w|) && s.accepted[|w|] == f
          && (f.command == Prepare ==> !s.prepared)
        case Writing(status) =>
          && !s.opening && s.hostOpen && |w| == |s.accepted| && w != [] && w[|w| - 1].1 == status
          && w[|w| - 1].0 == s.requestId && s.requestId.Some? && s.exitCode == 0
        case Apologizing => !s.opening && s.exitCode == 1
        case Done =>
          !s.hostOpen && s.exitCode in {0, 1}
          && (s.exitCode == 0 ==> |w| == |s.accepted| && Answered(w, s.accepted, |w|)))
  }

  /** Before the function gives up or ends: everything but the phase. */
  ghost predicate Ending(s: State)
  {
    && Ledger(s) && InOrder(Writes(s.history), s.accepted)
    && s.phase != Done && !s.stopped && (s.hostOpen ==> !s.opening) && s.exitCode in {0, 1}
    && (s.exitCode == 0 ==>
          |Writes(s.history)| == |s.accepted| && Answered(Writes(s.history), s.accepted, |s.accepted|))
  }

  lemma FinallyKeeps(s: State)
    requires Ending(s) && !s.opening
    ensures Inv(Finally(s))
  {
    HistoryStep(s.history, Closed);
    hide Opens, Closes, Prepares, QuietAfterStop, StopSeen, Writes, Answered;
  }

  /** Everything needed to write one last refusal. */
  ghost predicate Giving(s: State)
  {
    var w := Writes(s.history);
    && Ledger(s) && Answered(w, s.accepted, |w|)
    && s.phase != Done && !s.stopped && !s.opening
    && (s.requestId.Some? ==> |w| < |s.accepted| && s.requestId == Some(s.accepted[|w|].requestId))
  }

  lemma CatchKeeps(s: State)
    requires Giving(s)
    ensures Inv(Catch(s))
  {
    HistoryStep(s.history, Wrote(s.requestId, Refused));
    hide Opens, Closes, Prepares, QuietAfterStop, StopSeen, Writes;
  }

  /** A host about to be called for the last frame accepted. */
  ghost predicate Calling(s: State, f: Frame)
  {
    var w := Writes(s.history);
    && Ledger(s) && Answered(w, s.accepted, |w|)
    && s.phase != Done && !s.stopped && !s.opening && s.hostOpen && s.exitCode == 0
    && |s.accepted| == |w| + 1 && s.accepted[|w|] == f && s.requestId == Some(f.requestId)
    && (f.command == Prepare ==> !s.prepared)
  }

  lemma CallKeeps(s: State, f: Frame, answer: Option<Reply>, small: bool)
    requires Calling(s, f)
    ensures Inv(CallTheHost(s, f, answer, small))
  {
    hide Opens, Closes, Prepares, QuietAfterStop, StopSeen, Writes, Catch;
    var call := Called(Call(f.command, f.input));
    HistoryStep(s.history, call);
    var called := Happen(s.(prepared := s.prepared || f.command == Prepare), call);
    if answer.None? || answer.value.status == Unlisted || !small {
      CatchKeeps(called);
    } else {
      ReplyKeeps(called, f, answer.value.status);
    }
  }

  lemma ReplyKeeps(s: State, f: Frame, status: Status)
    requires Giving(s) && s.hostOpen && s.exitCode == 0 && s.requestId == Some(f.requestId)
    requires |s.accepted| == |Writes(s.history)| + 1
    ensures Inv(Happen(s.(phase := Writing(status)), Wrote(Some(f.requestId), status)))
  {
    HistoryStep(s.history, Wrote(Some(f.requestId), status));
    hide Opens, Closes, Prepares, QuietAfterStop, StopSeen, Writes;
  }

  /** Between frames: everything accepted is answered. */
  ghost predicate Between(s: State)
  {
    var w := Writes(s.history);
    && Ledger(s) && |w| == |s.accepted| && Answered(w, s.accepted, |w|)
    && s.phase != Done && !s.stopped && !s.opening && s.requestId == None && s.exitCode == 0
  }

  lemma TakeFrameKeeps(s: State, f: Frame, answer: Option<Reply>, small: bool)
    requires Between(s)
    ensures Inv(TakeFrame(s, f, answer, small))
  {
    hide Opens, Closes, Prepares, QuietAfterStop, StopSeen, Writes, Catch, CallTheHost;
    var taken := s.(requestId := Some(f.requestId), accepted := s.accepted + [f]);
    if f.command == Prepare && s.prepared {
      CatchKeeps(taken);
    } else if s.hostOpen {
      CallKeeps(taken, f, answer, small);
    }
  }

  lemma AnsweredInOrder(w: seq<(Option<string>, Status)>, a: seq<Frame>)
    requires Answered(w, a, |w|)
    ensures InOrder(w, a)
  {
  }

  lemma PumpKeeps(decode: Bytes -> Option<Json>, s: State, answer: Option<Reply>, small: bool)
    requires Between(s)
    ensures Inv(Pump(decode, s, answer, small))
  {
    hide Opens, Closes, Prepares, QuietAfterStop, StopSeen, Writes, Catch, TakeFrame, ParseFrame, Answered;
    var newline := IndexOfNewline(s.pending);
    if newline == |s.pending| {
      AnsweredInOrder(Writes(s.history), s.accepted);
      CatchKeeps(s);
    } else {
      var t := s.(pending := s.pending[newline + 1..], frames := s.frames + 1);
      CatchKeeps(t);
      var f := ParseFrame(decode(s.pending[..newline]));
      if f.Some? { TakeFrameKeeps(t, f.value, answer, small); }
    }
  }

  lemma StopKeeps(s: State)
    requires Inv(s) && s.phase != Done
    ensures Inv(Catch(Happen(s.(stopped := true), StopCame)))
  {
    var stopped := Happen(s.(stopped := true, exitCode := 1), StopCame);
    HistoryStep(s.history, StopCame);
    HistoryStep(stopped.history, Closed);
    hide Opens, Closes, Prepares, QuietAfterStop, StopSeen, Writes, Answered;
  }

  lemma HostSettlesKeeps(decode: Bytes -> Option<Json>, s: State, ok: bool, answer: Option<Reply>, small: bool)
    requires Inv(s)
    ensures Inv(Step(decode, s, HostSettles(ok, answer, small)))
  {
    hide Opens, Closes, Prepares, QuietAfterStop, StopSeen, Writes, InOrder, Answered, Catch, CallTheHost;
    if s.opening {
      var settled := s.(opening := false);
      if !ok {
        if s.phase.Opening? { CatchKeeps(settled); }
      } else {
        HistoryStep(s.history, Opened);
        HistoryStep(s.history + [Opened], Closed);
        if !s.stopped && s.phase.Opening? {
          CallKeeps(Happen(settled.(hostOpen := true), Opened), s.phase.frame, answer, small);
        }
      }
    }
  }

  lemma WriteSettlesKeeps(decode: Bytes -> Option<Json>, s: State, ok: bool, answer: Option<Reply>, small: bool)
    requires Inv(s)
    ensures Inv(Step(decode, s, WriteSettles(ok, answer, small)))
  {
    hide Opens, Closes, Prepares, QuietAfterStop, StopSeen, Writes, Catch, Finally, Pump;
    HistoryStep(s.history, WriteFailed);
    match s.phase
    case Writing(status) =>
      if !ok {
        CatchKeeps(Happen(s, WriteFailed));
      } else if status == Refused {
        FinallyKeeps(s.(exitCode := 1));
      } else {
        PumpKeeps(decode, s.(requestId := None), answer, small);
      }
    case Apologizing =>
      FinallyKeeps(s);
      FinallyKeeps(Happen(s, WriteFailed));
    case _ =>
  }

  lemma InputKeeps(decode: Bytes -> Option<Json>, s: State, i: Input)
    requires Inv(s) && (i.Chunk? || i.EndOfInput?)
    ensures Inv(Step(decode, s, i))
  {
    hide Ledger, Writes, Answered, Catch, Finally, Pump;
    if s.phase == Reading {
      if i.Chunk? {
        var t := s.(totalBytes := s.totalBytes + |i.bytes|, received := s.received + i.bytes);
        SameLedger(s, t);
        SameLedger(s, t.(pending := s.pending + i.bytes));
        CatchKeeps(t);
        PumpKeeps(decode, t.(pending := s.pending + i.bytes), i.answer, i.small);
      } else {
        SameLedger(s, s.(inputEnded := true));
        CatchKeeps(s.(inputEnded := true));
        FinallyKeeps(s.(inputEnded := true));
      }
    }
  }

  lemma SameLedger(s: State, t: State)
    requires Ledger(s) && t.history == s.history && t.phase == s.phase && t.hostOpen == s.hostOpen
    requires t.opening == s.opening && t.stopped == s.stopped && t.prepared == s.prepared
    ensures Ledger(t)
  {
  }

  lemma StepKeeps(decode: Bytes -> Option<Json>, s: State, i: Input)
    requires Inv(s)
    ensures Inv(Step(decode, s, i))
  {
    hide Inv;
    match i
    case Chunk(_, _, _) => InputKeeps(decode, s, i); hide *;
    case EndOfInput => InputKeeps(decode, s, i); hide *;
    case HostSettles(ok, answer, small) => HostSettlesKeeps(decode, s, ok, answer, small); hide *;
    case WriteSettles(ok, answer, small) => WriteSettlesKeeps(decode, s, ok, answer, small); hide *;
    case StopRequest =>
      if s.phase != Done { StopKeeps(s); }
  }

  lemma {:induction false} RunKeeps(decode: Bytes -> Option<Json>, inputs: seq<Input>)
    ensures Inv(Run(decode, inputs))
  {
    if inputs != [] {
      var n := |inputs| - 1;
      RunKeeps(decode, inputs[..n]);
      StepKeeps(decode, Run(decode, inputs[..n]), inputs[n]);
      hide Step;
    }
  }

  // ----- What the bytes were

  /** The frames accepted are the first lines received, each parsed; what has not been taken yet
      is still pending. */
  ghost predicate Accounted(decode: Bytes -> Option<Json>, s: State)
  {
    var lines := Lines(s.received);
    && Rest(s.received) == Rest(s.pending)
    && |s.accepted| + |Lines(s.pending)| == |lines| && lines[|s.accepted|..] == Lines(s.pending)
    && s.frames == |s.accepted|
    && forall k | 0 <= k < |s.accepted| :: ParseFrame(decode(lines[k])) == Some(s.accepted[k])
  }

  /** It holds unless the function has failed. */
  ghost predicate AccountInv(decode: Bytes -> Option<Json>, s: State)
  {
    s.exitCode == 0 ==> Accounted(decode, s) && (s.phase == Done ==> s.pending == [] && s.frames > 0)
  }

  lemma ReceiveKeepsAccount(decode: Bytes -> Option<Json>, s: State, bytes: Bytes)
    requires Accounted(decode, s)
    ensures Accounted(decode, s.(totalBytes := s.totalBytes + |bytes|, received := s.received + bytes,
                                 pending := s.pending + bytes))
  {
    LinesAppend(s.received, bytes);
    LinesAppend(s.pending, bytes);
    hide Lines, Rest, ParseFrame;
    var n := |s.accepted|;
    assert Lines(s.received + bytes) == Lines(s.received)[..n] + Lines(s.pending + bytes);
  }

  lemma PumpKeepsAccount(decode: Bytes -> Option<Json>, s: State, answer: Option<Reply>, small: bool)
    requires Accounted(decode, s) && s.phase != Done
    ensures AccountInv(decode, Pump(decode, s, answer, small))
  {
    hide Lines, Rest, ParseFrame;
    var newline := IndexOfNewline(s.pending);
    if newline < |s.pending| {
      FirstLine(s.pending);
      var t := s.(pending := s.pending[newline + 1..], frames := s.frames + 1);
      var f := ParseFrame(decode(s.pending[..newline]));
      if f.Some? { TakeFrameKeepsAccount(decode, s, t, f.value, answer, small); }
    }
    hide TakeFrame, IndexOfNewline;
  }

  lemma TakeFrameKeepsAccount(decode: Bytes -> Option<Json>, s: State, t: State, f: Frame,
                              answer: Option<Reply>, small: bool)
    requires Accounted(decode, s) && s.phase != Done && Lines(s.pending) != []
    requires t == s.(pending := t.pending, frames := s.frames + 1)
    requires Lines(t.pending) == Lines(s.pending)[1..] && Rest(t.pending) == Rest(s.pending)
    requires ParseFrame(decode(Lines(s.pending)[0])) == Some(f)
    ensures AccountInv(decode, TakeFrame(t, f, answer, small))
  {
    hide Lines, Rest, ParseFrame;
    var lines := Lines(s.received);
    assert lines[|s.accepted|] == lines[|s.accepted|..][0];
    assert lines[|s.accepted| + 1..] == lines[|s.accepted|..][1..];
  }

  lemma StepKeepsAccount(decode: Bytes -> Option<Json>, s: State, i: Input)
    requires Inv(s) && AccountInv(decode, s)
    ensures AccountInv(decode, Step(decode, s, i))
  {
    hide Ledger, InOrder, Answered, Writes, Accounted, Pump;
    match i
    case Chunk(bytes, answer, small) =>
      if s.phase == Reading {
        ReceiveKeepsAccount(decode, s, bytes);
        var t := s.(totalBytes := s.totalBytes + |bytes|, received := s.received + bytes, pending := s.pending + bytes);
        PumpKeepsAccount(decode, t, answer, small);
      }
    case EndOfInput => SameAccount(decode, s, Step(decode, s, i));
    case HostSettles(ok, answer, small) => SameAccount(decode, s, Step(decode, s, i));
    case WriteSettles(ok, answer, small) =>
      SameAccount(decode, s, Step(decode, s, i));
      if s.phase.Writing? && ok && s.phase.status != Refused {
        SameAccount(decode, s, s.(requestId := None));
        PumpKeepsAccount(decode, s.(requestId := None), answer, small);
      }
    case StopRequest =>
  }

  lemma SameAccount(decode: Bytes -> Option<Json>, s: State, t: State)
    ensures (Accounted(decode, s) && t.received == s.received && t.pending == s.pending
             && t.frames == s.frames && t.accepted == s.accepted) ==> Accounted(decode, t)
  {
  }

  lemma {:induction false} RunKeepsAccount(decode: Bytes -> Option<Json>, inputs: seq<Input>)
    ensures AccountInv(decode, Run(decode, inputs))
  {
    if inputs != [] {
      var n := |inputs| - 1;
      RunKeeps(decode, inputs[..n]);
      RunKeepsAccount(decode, inputs[..n]);
      StepKeepsAccount(decode, Run(decode, inputs[..n]), inputs[n]);
      hide Step;
    }
  }

  // ----- Every run

  /** The host is opened at most once and asked to prepare at most once; and once the protocol is
      over and no opening is under way it has been closed as often as opened: also when it opens
      only after the stop. */
  lemma HostIsClosedOnce(decode: Bytes -> Option<Json>, inputs: seq<Input>)
    ensures var s := Run(decode, inputs);
      && Opens(s.history) <= 1 && Closes(s.history) <= Opens(s.history) && Prepares(s.history) <= 1
      && (s.phase == Done && !s.opening ==> Closes(s.history) == Opens(s.history))
  {
    RunKeeps(decode, inputs);
    hide Run;
  }

  /** No host command starts after a stop. */
  lemma NoCallAfterStop(decode: Bytes -> Option<Json>, inputs: seq<Input>, m: nat, n: nat)
    requires m < n < |Run(decode, inputs).history| && Run(decode, inputs).history[m] == StopCame
    ensures !Run(decode, inputs).history[n].Called?
  {
    RunKeeps(decode, inputs);
    var h := Run(decode, inputs).history;
    hide Run, Prepares;
    QuietPrefix(h, n + 1);
    assert h[..n + 1][..n] == h[..n] && h[..n][m] == StopCame;
  }

  lemma {:induction false} QuietPrefix(h: seq<Happening>, n: nat)
    requires QuietAfterStop(h) && n <= |h|
    ensures QuietAfterStop(h[..n])
    decreases |h|
  {
    if n < |h| {
      var m := |h| - 1;
      QuietPrefix(h[..m], n);
      assert h[..m][..n] == h[..n];
    } else {
      assert h[..n] == h;
    }
  }

  /** Replies answer the frames in their order, also in a run that fails: only the last may be a
      refusal, and it answers the next frame or is an anonymous refusal. Exit code 0 means that the
      input was a whole number of valid frames, each answered without refusal. */
  lemma RepliesAreInOrder(decode: Bytes -> Option<Json>, inputs: seq<Input>)
    ensures var s := Run(decode, inputs); var w := Writes(s.history);
      && (forall k | 0 <= k < |w| - 1 ::
            k < |s.accepted| && w[k].0 == Some(s.accepted[k].requestId) && w[k].1 != Refused)
      && (w != [] ==>
            var n := |w| - 1;
            if w[n].0.None? then w[n].1 == Refused else n < |s.accepted| && w[n].0 == Some(s.accepted[n].requestId))
      && (s.phase == Done && s.exitCode == 0 ==>
            && Rest(s.received) == [] && |w| == |s.accepted| == |Lines(s.received)| > 0
            && forall k | 0 <= k < |w| ::
                 && ParseFrame(decode(Lines(s.received)[k])) == Some(s.accepted[k])
                 && w[k].0 == Some(s.accepted[k].requestId) && w[k].1 != Refused)
  {
    RunKeeps(decode, inputs);
    RunKeepsAccount(decode, inputs);
    EmptyStreamHasNoLines();
    hide Run, Ledger, ParseFrame, Writes, Lines, Rest;
  }

  lemma EmptyStreamHasNoLines()
    ensures Lines([]) == [] && Rest([]) == []
  {
  }

  // ----- Only reading changes what has been received

  function Received(s: State, bytes: Bytes): State
  {
    s.(totalBytes := s.totalBytes + |bytes|, received := s.received + bytes, pending := s.pending + bytes)
  }

  predicate SameInput(s: State, t: State)
  {
    t.received == s.received && t.totalBytes == s.totalBytes && t.inputEnded == s.inputEnded
  }

  /** The state with its input read. */
  function InputRead(s: State, i: Input): State
  {
    if s.phase != Reading then s
    else
      match i
      case Chunk(bytes, _, _) => Received(s, bytes)
      case EndOfInput => s.(inputEnded := true)
      case _ => s
  }

  lemma CatchReceives(s: State)
    ensures SameInput(s, Catch(s)) && SameInput(s, Finally(s))
  {
  }

  lemma CallReceives(s: State, f: Frame, answer: Option<Reply>, small: bool)
    ensures SameInput(s, CallTheHost(s, f, answer, small))
  {
  }

  lemma TakeFrameReceives(s: State, f: Frame, answer: Option<Reply>, small: bool)
    ensures SameInput(s, TakeFrame(s, f, answer, small))
  {
    hide Catch, CallTheHost;
    var taken := s.(requestId := Some(f.requestId), accepted := s.accepted + [f]);
    CatchReceives(taken);
    CallReceives(taken, f, answer, small);
  }

  lemma PumpReceives(decode: Bytes -> Option<Json>, s: State, answer: Option<Reply>, small: bool)
    ensures SameInput(s, Pump(decode, s, answer, small))
  {
    hide Catch, Finally, TakeFrame, IndexOfNewline, ParseFrame;
    var newline := IndexOfNewline(s.pending);
    CatchReceives(s);
    if newline < |s.pending| {
      var t := s.(pending := s.pending[newline + 1..], frames := s.frames + 1);
      var f := ParseFrame(decode(s.pending[..newline]));
      CatchReceives(t);
      if f.Some? { TakeFrameReceives(t, f.value, answer, small); }
    }
  }

  lemma SettlingReceives(decode: Bytes -> Option<Json>, s: State, i: Input)
    requires i.HostSettles? || i.WriteSettles?
    ensures SameInput(s, Step(decode, s, i))
  {
    hide Catch, Finally, Pump, CallTheHost;
    match i
    case HostSettles(ok, answer, small) =>
      var settled := s.(opening := false);
      CatchReceives(settled);
      if s.phase.Opening? { CallReceives(Happen(settled.(hostOpen := true), Opened), s.phase.frame, answer, small); }
    case WriteSettles(ok, answer, small) =>
      CatchReceives(s);
      CatchReceives(Happen(s, WriteFailed));
      CatchReceives(s.(exitCode := 1));
      PumpReceives(decode, s.(requestId := None), answer, small);
  }

  lemma StepReceives(decode: Bytes -> Option<Json>, s: State, i: Input)
    ensures SameInput(InputRead(s, i), Step(decode, s, i))
  {
    hide Catch, Finally, Pump, CallTheHost;
    match i
    case Chunk(bytes, answer, small) =>
      var t := s.(totalBytes := s.totalBytes + |bytes|, received := s.received + bytes);
      CatchReceives(t);
      PumpReceives(decode, t.(pending := s.pending + bytes), answer, small);
    case EndOfInput => CatchReceives(s.(inputEnded := true));
    case StopRequest => CatchReceives(Happen(s.(stopped := true), StopCame));
    case _ => SettlingReceives(decode, s, i); hide Step;
  }

  // ----- What each input does, in every run

  lemma RunOneMore(decode: Bytes -> Option<Json>, inputs: seq<Input>, i: Input)
    ensures Run(decode, inputs + [i]) == Step(decode, Run(decode, inputs), i)
  {
    assert (inputs + [i])[..|inputs|] == inputs;
  }

  /** A stop ends the protocol wherever it stands: with exit code 1, the host closed if it is open,
      and nothing more written. */
  lemma StopEnds(decode: Bytes -> Option<Json>, inputs: seq<Input>)
    requires Run(decode, inputs).phase != Done
    ensures var s, after := Run(decode, inputs), Run(decode, inputs + [StopRequest]);
            && after.phase == Done && after.exitCode == 1 && !after.hostOpen
            && after.history == s.history + [StopCame] + if s.hostOpen then [Closed] else []
  {
    RunOneMore(decode, inputs, StopRequest);
    hide Run;
  }

  lemma PumpProceeds(decode: Bytes -> Option<Json>, s: State, answer: Option<Reply>, small: bool)
    requires !s.stopped
    ensures var t := Pump(decode, s, answer, small);
            t.phase in {Reading, Apologizing} || |t.pending| < |s.pending|
  {
    hide ParseFrame, IndexOfNewline;
  }

  lemma WritingProceeds(decode: Bytes -> Option<Json>, s: State, ok: bool, answer: Option<Reply>, small: bool)
    requires Inv(s)
    ensures var t := Step(decode, s, WriteSettles(ok, answer, small));
            && (s.phase.Writing? ==> t.phase in {Reading, Apologizing, Done} || |t.pending| < |s.pending|)
            && (s.phase.Apologizing? ==> t.phase == Done)
            && (s.phase.Writing? && !ok ==> t.phase == Apologizing)
  {
    hide Pump, Ledger, InOrder, Answered, Writes;
    if !s.stopped { PumpProceeds(decode, s.(requestId := None), answer, small); }
  }

  lemma OpeningProceeds(decode: Bytes -> Option<Json>, s: State, ok: bool, answer: Option<Reply>, small: bool)
    requires Inv(s)
    ensures var t := Step(decode, s, HostSettles(ok, answer, small));
            (s.phase.Opening? ==> t.phase.Writing? || t.phase.Apologizing?) && !t.opening
  {
    hide Ledger, InOrder, Answered, Writes;
  }

  /** What is awaited makes the protocol go on when it settles: to another await, or to a frame
      nearer the end of what is pending. */
  lemma SettlingProceeds(decode: Bytes -> Option<Json>, inputs: seq<Input>, ok: bool, answer: Option<Reply>,
                         small: bool)
    ensures var s := Run(decode, inputs);
            var written := Run(decode, inputs + [WriteSettles(ok, answer, small)]);
            var settled := Run(decode, inputs + [HostSettles(ok, answer, small)]);
            && (s.phase.Writing? ==> written.phase in {Reading, Apologizing, Done} || |written.pending| < |s.pending|)
            && (s.phase.Apologizing? ==> written.phase == Done)
            && (s.phase.Writing? && !ok ==> written.phase == Apologizing)
            && (s.phase.Opening? ==> settled.phase.Writing? || settled.phase.Apologizing?)
            && !settled.opening
  {
    hide Run, Step, Inv;
    RunOneMore(decode, inputs, WriteSettles(ok, answer, small));
    RunOneMore(decode, inputs, HostSettles(ok, answer, small));
    RunKeeps(decode, inputs);
    WritingProceeds(decode, Run(decode, inputs), ok, answer, small);
    OpeningProceeds(decode, Run(decode, inputs), ok, answer, small);
  }

  /** Beyond the byte limit nothing is read on. */
  lemma {:induction false} LimitStops(decode: Bytes -> Option<Json>, inputs: seq<Input>)
    ensures var s := Run(decode, inputs);
            s.totalBytes == |s.received|
            && (|s.received| > TOTAL_BYTES ==> s.phase in {Apologizing, Done} && s.exitCode == 1)
  {
    if inputs != [] {
      var n := |inputs| - 1;
      LimitStops(decode, inputs[..n]);
      RunKeeps(decode, inputs[..n]);
      LimitStep(decode, Run(decode, inputs[..n]), inputs[n]);
      hide Step, Inv;
    }
  }

  lemma LimitStep(decode: Bytes -> Option<Json>, s: State, i: Input)
    requires Inv(s) && s.totalBytes == |s.received|
    requires |s.received| > TOTAL_BYTES ==> s.phase in {Apologizing, Done} && s.exitCode == 1
    ensures var t := Step(decode, s, i);
            t.totalBytes == |t.received|
            && (|t.received| > TOTAL_BYTES ==> t.phase in {Apologizing, Done} && t.exitCode == 1)
  {
    StepReceives(decode, s, i);
    hide Pump, CallTheHost, Ledger, InOrder, Answered, Writes;
  }
}
