/** The two models of the backend compared: a run of the step machine that nothing interrupts does
    what the function of the received bytes says. */
module MaintenanceRefinement {
  import opened Wrappers
  import opened MaintenanceFrames
  import B = MaintenanceBackend
  import opened MaintenanceCancellation

  // ----- Uninterrupted runs

  function Calls(h: seq<Happening>): seq<B.Call>
  {
    if h == [] then []
    else Calls(h[..|h| - 1]) + if h[|h| - 1].Called? then [h[|h| - 1].call] else []
  }

  /** What the deterministic host and the reply encoding make of a call for this frame. */
  function AnswerTo(p: B.Setting, h: seq<Happening>, f: Option<Frame>): (Option<B.Reply>, bool)
  {
    if f.None? then (None, false)
    else
      var answer := p.answer(Calls(h) + [B.Call(f.value.command, f.value.input)]);
      (answer, answer.Some? && p.replySize(Some(f.value.requestId), answer.value) <= FRAME_BYTES)
  }

  function NextFrame(p: B.Setting, pending: Bytes): Option<Frame>
  {
    ParseFrame(p.decode(pending[..IndexOfNewline(pending)]))
  }

  /** More bytes, the end of the input, or whatever is awaited settling as it does by itself. */
  datatype Tick = More(bytes: Bytes) | Ended | Settled

  function InputFor(p: B.Setting, s: State, t: Tick): Input
  {
    match t
    case More(bytes) =>
      var (answer, small) := AnswerTo(p, s.history, NextFrame(p, s.pending + bytes));
      Chunk(bytes, answer, small)
    case Ended => EndOfInput
    case Settled =>
      if s.phase.Opening? then
        var (answer, small) := AnswerTo(p, s.history, Some(s.phase.frame));
        HostSettles(p.opens, answer, small)
      else
        var (answer, small) := AnswerTo(p, s.history, NextFrame(p, s.pending));
        WriteSettles(true, answer, small)
  }

  function Drive(p: B.Setting, ticks: seq<Tick>): State
  {
    if ticks == [] then START
    else
      var s := Drive(p, ticks[..|ticks| - 1]);
      Step(p.decode, s, InputFor(p, s, ticks[|ticks| - 1]))
  }

  // ----- Corresponding states

  function HappeningOf(e: B.Event): Happening
  {
    match e
    case HostOpened => Opened
    case HostCalled(call) => Called(call)
    case Replied(requestId, reply) => Wrote(requestId, reply.status)
    case HostClosed => Closed
  }

  function Happenings(events: seq<B.Event>): seq<Happening>
  {
    seq(|events|, i requires 0 <= i < |events| => HappeningOf(events[i]))
  }

  lemma HappeningsPush(events: seq<B.Event>, e: B.Event)
    ensures Happenings(events + [e]) == Happenings(events) + [HappeningOf(e)]
  {
  }

  lemma CallsPush(h: seq<Happening>, e: Happening)
    ensures Calls(h + [e]) == Calls(h) + if e.Called? then [e.call] else []
  {
    assert (h + [e])[..|h|] == h;
  }

  ghost predicate Matches(s: State, g: B.Session)
  {
    g.hostOpen == s.hostOpen && g.prepared == s.prepared && g.frames == s.frames
    && g.calls == Calls(s.history) && Happenings(g.events) == s.history
  }

  /** The refusal that a failure ends with always fits. */
  ghost predicate RefusalFits(p: B.Setting)
  {
    forall id :: p.replySize(id, B.MAINTENANCE_REFUSED) <= FRAME_BYTES
  }

  ghost function Handled(p: B.Setting, s: State, n: nat): B.Progress
    requires n <= |Lines(s.received)|
  {
    B.HandleLines(p, Lines(s.received)[..n])
  }

  /** What has been received is what was taken, line by line, and what is pending. */
  ghost predicate Split(s: State)
  {
    var lines := Lines(s.received);
    Rest(s.received) == Rest(s.pending) && |s.accepted| <= |lines| && lines[|s.accepted|..] == Lines(s.pending)
    && s.frames == |s.accepted|
  }

  /** At the test of the inner loop. */
  ghost predicate AtHead(p: B.Setting, s: State)
  {
    && Split(s) && Handled(p, s, |s.accepted|).Going? && Matches(s, Handled(p, s, |s.accepted|).session)
    && s.requestId == None && s.exitCode == 0 && !s.opening && !s.stopped
  }

  /** Failing as `g` says, with the outcome decided. */
  ghost predicate Fails(p: B.Setting, s: State, g: B.Progress)
  {
    && g.Stopped? && g.cause != B.HostRefuses && B.Outcome(p, s.received) == B.Conclude(p, g)
    && g.session.hostOpen == s.hostOpen && g.requestId == s.requestId && !s.stopped
  }

  ghost predicate AwaitsHost(p: B.Setting, s: State, f: Frame)
  {
    var k := |s.accepted| - 1;
    && k >= 0 && Split(s) && Handled(p, s, k).Going?
    && Matches(s.(frames := k), Handled(p, s, k).session) && !s.hostOpen && !s.stopped
    && |Lines(s.received)[k]| <= FRAME_BYTES && k < FRAMES && ParseFrame(p.decode(Lines(s.received)[k])) == Some(f)
    && (f.command == Prepare ==> !s.prepared) && s.requestId == Some(f.requestId) && s.exitCode == 0
  }

  ghost predicate AwaitsWrite(p: B.Setting, s: State, status: B.Status)
  {
    && Split(s) && s.exitCode == 0 && !s.opening && !s.stopped
    && var g := Handled(p, s, |s.accepted|);
       Matches(s, g.session) && if status == B.Refused then g.Stopped? && g.cause == B.HostRefuses else g.Going?
  }

  /** The correspondence at each await. */
  ghost predicate Simulates(p: B.Setting, s: State)
  {
    match s.phase
    case Reading => AtHead(p, s) && Lines(s.pending) == [] && |s.pending| <= FRAME_BYTES
    case Opening(f) => AwaitsHost(p, s, f)
    case Writing(status) => AwaitsWrite(p, s, status)
    case Apologizing =>
      s.exitCode == 1 && (s.inputEnded || Final(p, s.received))
      && exists g :: Fails(p, s, g) && s.history == Happenings(g.session.events) + [Wrote(g.requestId, B.Refused)]
    case Done =>
      s.history == Happenings(B.Outcome(p, s.received).0) && s.exitCode == B.Outcome(p, s.received).1
      && (s.inputEnded || Final(p, s.received))
  }

  /** More bytes would change nothing. */
  ghost predicate Final(p: B.Setting, bytes: Bytes)
  {
    forall more: Bytes :: B.Outcome(p, bytes + more) == B.Outcome(p, bytes)
  }

  // ----- Failing and ending

  lemma FailureApologizes(p: B.Setting, s: State, g: B.Progress)
    requires Fails(p, s, g) && s.history == Happenings(g.session.events) && (s.inputEnded || Final(p, s.received))
    ensures Simulates(p, Catch(s))
  {
    assert Fails(p, Catch(s), g);
    hide B.Outcome, B.Conclude, Happenings;
  }

  lemma ApologyEnds(p: B.Setting, s: State)
    requires s.phase.Apologizing? && Simulates(p, s) && RefusalFits(p)
    ensures Simulates(p, Finally(s))
  {
    var g :| Fails(p, s, g) && s.history == Happenings(g.session.events) + [Wrote(g.requestId, B.Refused)];
    var replied := g.session.events + [B.Replied(g.requestId, B.MAINTENANCE_REFUSED)];
    HappeningsPush(g.session.events, B.Replied(g.requestId, B.MAINTENANCE_REFUSED));
    HappeningsPush(replied, B.HostClosed);
    assert replied + [] == replied;
    hide B.Outcome, Happenings;
  }

  /** Once a line has stopped the handling, the outcome is decided. */
  lemma StoppedDecides(p: B.Setting, s: State, n: nat)
    requires n <= |Lines(s.received)| && Handled(p, s, n).Stopped?
    ensures B.Outcome(p, s.received) == B.Conclude(p, Handled(p, s, n)) && Final(p, s.received)
  {
    var lines := Lines(s.received);
    B.HandleLinesAppend(p, lines[..n], lines[n..]);
    assert lines[..n] + lines[n..] == lines;
    forall more: Bytes ensures B.Outcome(p, s.received + more) == B.Outcome(p, s.received) {
      B.StoppedIsFinal(p, s.received, more);
    }
    hide B.HandleLines, B.Conclude, Lines, Rest;
  }

  lemma OverlongDecides(p: B.Setting, bytes: Bytes)
    requires B.HandleLines(p, Lines(bytes)).Going? && |Rest(bytes)| > FRAME_BYTES
    ensures Final(p, bytes)
  {
    hide B.HandleLines, B.Conclude, Lines, Rest, B.Outcome;
    assert bytes + [] == bytes;
    B.OverlongIsFinal(p, bytes, []);
    forall more: Bytes ensures B.Outcome(p, bytes + more) == B.Outcome(p, bytes) {
      B.OverlongIsFinal(p, bytes, more);
    }
  }

  lemma HandledNext(p: B.Setting, s: State, n: nat)
    requires n < |Lines(s.received)| && Handled(p, s, n).Going?
    ensures Handled(p, s, n + 1) == B.HandleLine(p, Handled(p, s, n).session, Lines(s.received)[n])
  {
    hide B.HandleLines, B.HandleLine, Lines;
    B.HandleLinesPush(p, Lines(s.received)[..n], Lines(s.received)[n]);
    TakeOneMore(Lines(s.received), n);
  }

  lemma TakeOneMore<T>(s: seq<T>, n: nat)
    requires n < |s|
    ensures s[..n + 1] == s[..n] + [s[n]]
  {
  }

  /** The end of the input, or an overlong rest, at the test of the inner loop. */
  lemma HeadEnds(p: B.Setting, s: State)
    requires AtHead(p, s) && Lines(s.pending) == []
    ensures var g := B.Stopped(Handled(p, s, |s.accepted|).session, None, B.IncompleteFrame);
            && (|s.pending| > FRAME_BYTES ==> Fails(p, s, g) && Final(p, s.received))
            && (s.pending != [] || s.frames == 0 ==> Fails(p, s, g))
            && (s.pending == [] && s.frames > 0 ==>
                  B.Outcome(p, s.received) == B.Conclude(p, Handled(p, s, |s.accepted|)))
  {
    var lines, k := Lines(s.received), |s.accepted|;
    assert lines[k..] == [] && lines[..k] == lines;
    NoRest(s.pending);
    if |s.pending| > FRAME_BYTES { OverlongDecides(p, s.received); }
    hide Final, B.HandleLines, B.Conclude, Lines, Rest;
  }

  lemma NoRest(b: Bytes)
    requires Lines(b) == []
    ensures Rest(b) == b && IndexOfNewline(b) == |b|
  {
  }

  // ----- One call of the host

  lemma SplitIgnores(s: State, t: State)
    requires Split(s) && t.received == s.received && t.pending == s.pending
    requires t.accepted == s.accepted && t.frames == s.frames
    ensures Split(t)
  {
  }

  /** A frame for which the host is called: all but what the call does. */
  ghost predicate AtCall(p: B.Setting, s: State, g: B.Session, f: Frame)
  {
    && |s.accepted| <= |Lines(s.received)| && Handled(p, s, |s.accepted|) == B.CallHost(p, g, f)
    && Split(s) && Matches(s, g) && s.hostOpen && s.requestId == Some(f.requestId)
    && s.exitCode == 0 && !s.opening && !s.stopped
  }

  function AfterCall(s: State, f: Frame): State
  {
    Happen(s.(prepared := s.prepared || f.command == Prepare), Called(B.Call(f.command, f.input)))
  }

  function CalledSession(g: B.Session, f: Frame): B.Session
  {
    var call := B.Call(f.command, f.input);
    g.(prepared := g.prepared || f.command == Prepare, calls := g.calls + [call],
       events := g.events + [B.HostCalled(call)])
  }

  lemma CallingMatches(s: State, g: B.Session, f: Frame)
    requires Matches(s, g)
    ensures Matches(AfterCall(s, f), CalledSession(g, f))
  {
    CallsPush(s.history, Called(B.Call(f.command, f.input)));
    HappeningsPush(g.events, B.HostCalled(B.Call(f.command, f.input)));
    hide Calls, Happenings;
  }

  lemma ReplyMatches(s: State, g: B.Session, id: string, reply: B.Reply)
    requires Matches(s, g)
    ensures Matches(Happen(s, Wrote(Some(id), reply.status)), g.(events := g.events + [B.Replied(Some(id), reply)]))
  {
    CallsPush(s.history, Wrote(Some(id), reply.status));
    HappeningsPush(g.events, B.Replied(Some(id), reply));
    hide Calls, Happenings;
  }

  lemma CallMatches(p: B.Setting, s: State, g: B.Session, f: Frame)
    requires AtCall(p, s, g, f)
    ensures var h := Handled(p, s, |s.accepted|);
            var (answer, small) := AnswerTo(p, s.history, Some(f));
            if answer.None? || answer.value.status == B.Unlisted || !small then
              h.Stopped? && h.cause != B.HostRefuses && h.requestId == Some(f.requestId)
              && Matches(AfterCall(s, f), h.session)
            else
              Matches(Happen(AfterCall(s, f), Wrote(Some(f.requestId), answer.value.status)), h.session)
              && if answer.value.status == B.Refused then h.Stopped? && h.cause == B.HostRefuses else h.Going?
  {
    var (answer, small) := AnswerTo(p, s.history, Some(f));
    assert Matches(s, g);
    CallingMatches(s, g, f);
    if answer.Some? { ReplyMatches(AfterCall(s, f), CalledSession(g, f), f.requestId, answer.value); }
    assert g.calls == Calls(s.history) && Handled(p, s, |s.accepted|) == B.CallHost(p, g, f);
    hide Split, Handled, Lines, Rest, Calls, Happenings, IndexOfNewline, Matches, AfterCall, AtCall;
  }

  lemma CallSimulates(p: B.Setting, s: State, g: B.Session, f: Frame)
    requires AtCall(p, s, g, f)
    ensures var (answer, small) := AnswerTo(p, s.history, Some(f));
            Simulates(p, CallTheHost(s, f, answer, small))
  {
    var (answer, small) := AnswerTo(p, s.history, Some(f));
    CallMatches(p, s, g, f);
    assert Matches(s, g) && Split(s);
    hide AtCall, B.HandleLines, Lines, Rest, Calls, Happenings, B.Outcome, B.Conclude, B.CallHost, AnswerTo, Split,
         IndexOfNewline;
    if answer.None? || answer.value.status == B.Unlisted || !small {
      StoppedDecides(p, s, |s.accepted|);
      FailureApologizes(p, AfterCall(s, f), Handled(p, s, |s.accepted|));
      hide Simulates;
    } else {
      var replied := Happen(AfterCall(s, f).(phase := Writing(answer.value.status)),
                            Wrote(Some(f.requestId), answer.value.status));
      SplitIgnores(s, replied);
      assert AwaitsWrite(p, replied, answer.value.status) by { hide Catch; }
    }
  }

  // ----- The inner loop

  /** The next line is the one at the head of what is pending. */
  lemma SplitNext(s: State)
    requires Split(s) && IndexOfNewline(s.pending) < |s.pending|
    ensures var n, k := IndexOfNewline(s.pending), |s.accepted|;
            && k < |Lines(s.received)| && Lines(s.received)[k] == s.pending[..n]
            && Lines(s.received)[k + 1..] == Lines(s.pending[n + 1..]) && Rest(s.received) == Rest(s.pending[n + 1..])
  {
    FirstLine(s.pending);
    var lines, k := Lines(s.received), |s.accepted|;
    hide Lines, Rest, IndexOfNewline;
    assert lines[k..][0] == lines[k] && lines[k..][1..] == lines[k + 1..];
  }

  lemma LineFails(p: B.Setting, s: State, t: State, cause: B.Cause)
    requires AtHead(p, s) && |s.accepted| < |Lines(s.received)| && cause != B.HostRefuses
    requires Handled(p, s, |s.accepted| + 1) == B.Stopped(Handled(p, s, |s.accepted|).session, None, cause)
    requires t == s.(pending := t.pending, frames := t.frames)
    ensures Simulates(p, Catch(t))
  {
    StoppedDecides(p, s, |s.accepted| + 1);
    FailureApologizes(p, t, Handled(p, s, |s.accepted| + 1));
    hide B.HandleLines, Lines, Rest, B.Outcome, B.Conclude, Simulates;
  }

  lemma PumpEnds(p: B.Setting, s: State, answer: Option<B.Reply>, small: bool)
    requires AtHead(p, s) && IndexOfNewline(s.pending) == |s.pending|
    ensures Simulates(p, Pump(p.decode, s, answer, small))
  {
    NoLine(s.pending);
    HeadEnds(p, s);
    hide Lines, Rest, B.HandleLines, B.Outcome, B.Conclude, Calls, Happenings, IndexOfNewline;
    if |s.pending| > FRAME_BYTES {
      FailureApologizes(p, s, B.Stopped(Handled(p, s, |s.accepted|).session, None, B.IncompleteFrame));
    } else {
      SplitIgnores(s, s.(phase := Reading));
      hide Split;
      assert AtHead(p, s.(phase := Reading));
    }
  }

  /** What handling the next line comes to. */
  lemma HeadIsHandled(p: B.Setting, s: State)
    requires AtHead(p, s) && IndexOfNewline(s.pending) < |s.pending|
    ensures var n, k := IndexOfNewline(s.pending), |s.accepted|;
            && k < |Lines(s.received)| && Lines(s.received)[k] == s.pending[..n]
            && var session, f := Handled(p, s, k).session, ParseFrame(p.decode(s.pending[..n]));
            && session.frames == s.frames
            && (n > FRAME_BYTES || s.frames + 1 > FRAMES ==>
                  Handled(p, s, k + 1) == B.Stopped(session, None, B.FrameLimit))
            && (n <= FRAME_BYTES && s.frames + 1 <= FRAMES ==>
                  Handled(p, s, k + 1) == if f.None? then B.Stopped(session, None, B.InvalidFrame)
                                          else B.HandleFrame(p, session.(frames := s.frames + 1), f.value))
  {
    hide Split, Lines, Rest, B.HandleLines, B.HandleFrame, ParseFrame, IndexOfNewline, Calls, Happenings;
    SplitNext(s);
    HandledNext(p, s, |s.accepted|);
    assert Handled(p, s, |s.accepted|).session.frames == s.frames;
    hide AtHead, Handled;
  }

  lemma PumpSimulates(p: B.Setting, s: State)
    requires AtHead(p, s)
    ensures var (answer, small) := AnswerTo(p, s.history, NextFrame(p, s.pending));
            Simulates(p, Pump(p.decode, s, answer, small))
  {
    hide Lines, Rest, B.HandleLines, B.HandleFrame, ParseFrame, AtHead, Split, IndexOfNewline, Handled, Catch,
         TakeFrame, Simulates, AnswerTo;
    var (answer, small) := AnswerTo(p, s.history, NextFrame(p, s.pending));
    var n := IndexOfNewline(s.pending);
    if n == |s.pending| {
      PumpEnds(p, s, answer, small);
    } else {
      HeadIsHandled(p, s);
      assert NextFrame(p, s.pending) == ParseFrame(p.decode(s.pending[..n]));
      var t := s.(pending := s.pending[n + 1..], frames := s.frames + 1);
      var f := ParseFrame(p.decode(s.pending[..n]));
      if n > FRAME_BYTES || s.frames + 1 > FRAMES {
        LineFails(p, s, t, B.FrameLimit);
      } else if f.None? {
        LineFails(p, s, t, B.InvalidFrame);
      } else {
        FrameSimulates(p, s, t, f.value);
      }
    }
  }

  /** The frame at the head of what is pending has been taken from it, as `t`. */
  ghost predicate Taken(p: B.Setting, s: State, t: State, f: Frame)
  {
    var n := IndexOfNewline(s.pending);
    && AtHead(p, s) && n < |s.pending| && t == s.(pending := s.pending[n + 1..], frames := s.frames + 1)
    && n <= FRAME_BYTES && s.frames + 1 <= FRAMES && ParseFrame(p.decode(s.pending[..n])) == Some(f)
  }

  lemma TakenIsHandled(p: B.Setting, s: State, t: State, f: Frame)
    requires Taken(p, s, t, f)
    ensures var k, taken := |s.accepted|, t.(requestId := Some(f.requestId), accepted := s.accepted + [f]);
            && Split(taken) && k < |Lines(s.received)| && Handled(p, taken, k) == Handled(p, s, k)
            && Matches(s, Handled(p, s, k).session) && Handled(p, s, k).Going?
            && Handled(p, taken, k + 1) == B.HandleFrame(p, Handled(p, s, k).session.(frames := s.frames + 1), f)
            && |Lines(s.received)[k]| <= FRAME_BYTES && ParseFrame(p.decode(Lines(s.received)[k])) == Some(f)
  {
    hide Lines, Rest, B.HandleLines, B.HandleFrame, ParseFrame, IndexOfNewline, Calls, Happenings;
    SplitNext(s);
    HeadIsHandled(p, s);
  }

  lemma RetargetFails(p: B.Setting, s: State, t: State, f: Frame)
    requires Taken(p, s, t, f) && f.command == Prepare && s.prepared
    ensures Simulates(p, Catch(t.(requestId := Some(f.requestId), accepted := s.accepted + [f])))
  {
    var k, taken := |s.accepted|, t.(requestId := Some(f.requestId), accepted := s.accepted + [f]);
    TakenIsHandled(p, s, t, f);
    assert !s.stopped && Matches(taken, Handled(p, s, k).session.(frames := s.frames + 1));
    hide Taken, Lines, Rest, B.HandleLines, ParseFrame, IndexOfNewline, Split, Handled, Calls, Happenings, B.Outcome,
         B.Conclude, Simulates, Catch;
    StoppedDecides(p, taken, k + 1);
    FailureApologizes(p, taken, Handled(p, taken, k + 1));
  }

  lemma OpeningAwaits(p: B.Setting, s: State, t: State, f: Frame)
    requires Taken(p, s, t, f) && !(f.command == Prepare && s.prepared) && !s.hostOpen
    ensures var taken := t.(requestId := Some(f.requestId), accepted := s.accepted + [f]);
            Simulates(p, taken.(phase := Opening(f), opening := true))
  {
    var k, taken := |s.accepted|, t.(requestId := Some(f.requestId), accepted := s.accepted + [f]);
    var opening := taken.(phase := Opening(f), opening := true);
    TakenIsHandled(p, s, t, f);
    assert s.exitCode == 0 && !s.stopped;
    hide Lines, Rest, B.HandleLines, ParseFrame, IndexOfNewline, Split, Handled, Calls, Happenings, B.Outcome,
         B.Conclude, Catch;
    SplitIgnores(taken, opening);
    HandledIgnores(p, taken, opening, k);
    assert AwaitsHost(p, opening, f);
  }

  lemma FrameSimulates(p: B.Setting, s: State, t: State, f: Frame)
    requires Taken(p, s, t, f)
    ensures var (answer, small) := AnswerTo(p, s.history, Some(f));
            Simulates(p, TakeFrame(t, f, answer, small))
  {
    var k, taken := |s.accepted|, t.(requestId := Some(f.requestId), accepted := s.accepted + [f]);
    TakenIsHandled(p, s, t, f);
    assert t.prepared == s.prepared && t.hostOpen == s.hostOpen && t.history == s.history;
    assert s.exitCode == 0 && !s.opening && !s.stopped;
    hide Taken, Lines, Rest, B.HandleLines, B.CallHost, ParseFrame, IndexOfNewline, AnswerTo, CallTheHost, Split,
         Handled, Calls, Happenings, B.Outcome, B.Conclude, Simulates, Catch;
    if f.command == Prepare && s.prepared {
      RetargetFails(p, s, t, f);
    } else if !s.hostOpen {
      OpeningAwaits(p, s, t, f);
    } else {
      CallSimulates(p, taken, Handled(p, s, k).session.(frames := s.frames + 1), f);
    }
  }

  lemma HandledIgnores(p: B.Setting, s: State, t: State, n: nat)
    requires s.received == t.received && n <= |Lines(s.received)|
    ensures Handled(p, s, n) == Handled(p, t, n)
  {
  }

  // ----- One step

  lemma ReceiveSimulates(p: B.Setting, s: State, bytes: Bytes)
    requires s.phase.Reading? && Simulates(p, s)
    ensures AtHead(p, s.(totalBytes := s.totalBytes + |bytes|, received := s.received + bytes,
                         pending := s.pending + bytes))
  {
    var lines, k := Lines(s.received), |s.accepted|;
    var t := s.(totalBytes := s.totalBytes + |bytes|, received := s.received + bytes, pending := s.pending + bytes);
    NoRest(s.pending);
    LinesAppend(s.received, bytes);
    assert lines[k..] == [] && Lines(t.received)[..k] == lines[..k] && Lines(t.received)[k..] == Lines(t.pending);
    hide Lines, Rest, B.HandleLines, Calls, Happenings, IndexOfNewline;
  }

  lemma EndSimulates(p: B.Setting, s: State)
    requires s.phase.Reading? && Simulates(p, s)
    ensures Simulates(p, Step(p.decode, s, EndOfInput))
  {
    HeadEnds(p, s);
    var g := Handled(p, s, |s.accepted|);
    HandledIgnores(p, s, s.(inputEnded := true), |s.accepted|);
    HappeningsPush(g.session.events, B.HostClosed);
    assert g.session.events + [] == g.session.events;
    hide Lines, Rest, B.HandleLines, Calls, Happenings, B.Outcome, Split, Handled;
    if s.pending != [] || s.frames == 0 {
      FailureApologizes(p, s.(inputEnded := true), B.Stopped(g.session, None, B.IncompleteFrame));
      hide Simulates;
    }
  }

  lemma WrittenAtHead(p: B.Setting, s: State)
    requires s.phase.Writing? && s.phase.status != B.Refused && Simulates(p, s)
    ensures AtHead(p, s.(requestId := None))
  {
    SplitIgnores(s, s.(requestId := None));
    HandledIgnores(p, s, s.(requestId := None), |s.accepted|);
    hide Split, Handled, Calls, Happenings;
  }

  lemma RefusedIsOver(p: B.Setting, s: State)
    requires s.phase == Writing(B.Refused) && Simulates(p, s)
    ensures Simulates(p, Finally(s.(exitCode := 1)))
  {
    var g := Handled(p, s, |s.accepted|);
    StoppedDecides(p, s, |s.accepted|);
    HappeningsPush(g.session.events, B.HostClosed);
    assert g.session.events + [] == g.session.events;
    hide Calls, Happenings, B.Outcome, Split, Handled;
  }

  lemma WrittenSimulates(p: B.Setting, s: State)
    requires s.phase.Writing? && Simulates(p, s)
    ensures Simulates(p, Step(p.decode, s, InputFor(p, s, Settled)))
  {
    hide Simulates, AtHead, AnswerTo, NextFrame, Pump, Finally, Catch;
    if s.phase.status == B.Refused {
      RefusedIsOver(p, s);
    } else {
      WrittenAtHead(p, s);
      PumpSimulates(p, s.(requestId := None));
    }
  }

  lemma OpenedIsHandled(p: B.Setting, s: State, f: Frame)
    requires AwaitsHost(p, s, f)
    ensures var k := |s.accepted| - 1;
            && Split(s) && k + 1 <= |Lines(s.received)| && Matches(s, Handled(p, s, k).session.(frames := k + 1))
            && Handled(p, s, k + 1) == B.HandleFrame(p, Handled(p, s, k).session.(frames := k + 1), f)
  {
    hide Lines, Rest, B.HandleLines, B.HandleFrame, ParseFrame, IndexOfNewline, Calls, Happenings, Handled;
    HandledNext(p, s, |s.accepted| - 1);
  }

  lemma OpeningMatches(s: State, g: B.Session)
    requires Matches(s, g)
    ensures Matches(Happen(s.(hostOpen := true), Opened), g.(hostOpen := true, events := g.events + [B.HostOpened]))
  {
    CallsPush(s.history, Opened);
    HappeningsPush(g.events, B.HostOpened);
    hide Calls, Happenings;
  }

  /** The session at the frame for which the host is being opened. */
  ghost function OpeningSession(p: B.Setting, s: State): B.Session
    requires s.phase.Opening? && AwaitsHost(p, s, s.phase.frame)
  {
    Handled(p, s, |s.accepted| - 1).session.(frames := |s.accepted|)
  }

  lemma OpeningFails(p: B.Setting, s: State)
    requires s.phase.Opening? && AwaitsHost(p, s, s.phase.frame) && !p.opens
    ensures Simulates(p, Catch(s.(opening := false)))
  {
    var k, settled := |s.accepted|, s.(opening := false);
    OpenedIsHandled(p, s, s.phase.frame);
    HandledIgnores(p, s, settled, k);
    assert Matches(settled, OpeningSession(p, s)) && !OpeningSession(p, s).hostOpen;
    hide Lines, Rest, B.HandleLines, B.Outcome, B.Conclude, B.CallHost, Split, Handled, Simulates, Calls, Happenings,
         Catch;
    StoppedDecides(p, settled, k);
    FailureApologizes(p, settled, Handled(p, settled, k));
  }

  lemma OpeningCalls(p: B.Setting, s: State)
    requires s.phase.Opening? && AwaitsHost(p, s, s.phase.frame) && p.opens
    ensures var (answer, small) := AnswerTo(p, s.history, Some(s.phase.frame));
            var host := Happen(s.(opening := false, hostOpen := true), Opened);
            Simulates(p, CallTheHost(host, s.phase.frame, answer, small))
  {
    var f, k, g := s.phase.frame, |s.accepted|, OpeningSession(p, s);
    var ready := Happen(s.(opening := false, hostOpen := true), Opened);
    OpenedIsHandled(p, s, f);
    OpeningMatches(s.(opening := false), g);
    SplitIgnores(s, ready);
    HandledIgnores(p, s, ready, k);
    AnswerIgnoresOpening(p, s.history, f);
    assert AtCall(p, ready, g.(hostOpen := true, events := g.events + [B.HostOpened]), f) by {
      hide Lines, Rest, B.HandleLines, B.CallHost, Split, Handled, AnswerTo, Calls, Happenings;
    }
    hide *;
    CallSimulates(p, ready, g.(hostOpen := true, events := g.events + [B.HostOpened]), f);
  }

  lemma OpenedSimulates(p: B.Setting, s: State)
    requires s.phase.Opening? && s.opening && Simulates(p, s)
    ensures Simulates(p, Step(p.decode, s, InputFor(p, s, Settled)))
  {
    assert AwaitsHost(p, s, s.phase.frame) && !s.stopped;
    hide Simulates, AwaitsHost, AnswerTo, CallTheHost, Catch, NextFrame;
    if p.opens { OpeningCalls(p, s); } else { OpeningFails(p, s); }
  }

  lemma AnswerIgnoresOpening(p: B.Setting, h: seq<Happening>, f: Frame)
    ensures AnswerTo(p, h + [Opened], Some(f)) == AnswerTo(p, h, Some(f))
  {
    CallsPush(h, Opened);
    assert Calls(h) + [] == Calls(h);
  }

  lemma MoreIsPumped(p: B.Setting, s: State, bytes: Bytes)
    requires s.phase.Reading? && s.totalBytes + |bytes| <= TOTAL_BYTES
    ensures var (answer, small) := AnswerTo(p, s.history, NextFrame(p, Received(s, bytes).pending));
            Step(p.decode, s, InputFor(p, s, More(bytes))) == Pump(p.decode, Received(s, bytes), answer, small)
  {
    hide AnswerTo, NextFrame, Pump, Catch;
    var t := s.(totalBytes := s.totalBytes + |bytes|, received := s.received + bytes);
    assert t.(pending := s.pending + bytes) == Received(s, bytes);
  }

  lemma MoreSimulates(p: B.Setting, s: State, bytes: Bytes)
    requires s.phase.Reading? && Simulates(p, s) && s.totalBytes + |bytes| <= TOTAL_BYTES
    ensures Simulates(p, Step(p.decode, s, InputFor(p, s, More(bytes))))
  {
    hide Simulates, AtHead, AnswerTo, NextFrame, Pump, Step, InputFor;
    ReceiveSimulates(p, s, bytes);
    MoreIsPumped(p, s, bytes);
    PumpSimulates(p, Received(s, bytes));
  }

  lemma StepSimulates(p: B.Setting, s: State, t: Tick)
    requires Simulates(p, s) && RefusalFits(p) && (s.phase.Opening? ==> s.opening) && s.totalBytes == |s.received|
    requires |Step(p.decode, s, InputFor(p, s, t)).received| <= TOTAL_BYTES
    ensures Simulates(p, Step(p.decode, s, InputFor(p, s, t)))
  {
    hide Simulates, RefusalFits, AnswerTo, NextFrame, Pump, CallTheHost, Catch, Finally;
    match t
    case More(bytes) =>
      if s.phase.Reading? {
        StepReceives(p.decode, s, InputFor(p, s, t));
        MoreSimulates(p, s, bytes);
        hide Step;
      }
    case Ended =>
      if s.phase.Reading? { EndSimulates(p, s); }
    case Settled =>
      match s.phase {
        case Opening(_) => OpenedSimulates(p, s);
        case Writing(_) => WrittenSimulates(p, s);
        case Apologizing => ApologyEnds(p, s);
        case _ =>
      }
  }

  // ----- Whole runs

  lemma StartSimulates(p: B.Setting)
    ensures Simulates(p, START)
  {
    EmptyStreamHasNoLines();
    assert Happenings([]) == [];
  }

  lemma {:induction false} DriveIsARun(p: B.Setting, ticks: seq<Tick>) returns (inputs: seq<Input>)
    ensures Drive(p, ticks) == Run(p.decode, inputs) && StopRequest !in inputs
  {
    inputs := [];
    if ticks != [] {
      var n := |ticks| - 1;
      var before := DriveIsARun(p, ticks[..n]);
      var i := InputFor(p, Drive(p, ticks[..n]), ticks[n]);
      inputs := before + [i];
      assert inputs[..|inputs| - 1] == before;
      hide Step;
    }
  }

  lemma {:induction false} DriveSimulates(p: B.Setting, ticks: seq<Tick>)
    requires RefusalFits(p) && |Drive(p, ticks).received| <= TOTAL_BYTES
    ensures Simulates(p, Drive(p, ticks)) && Drive(p, ticks).totalBytes == |Drive(p, ticks).received|
  {
    hide Simulates, Step, RefusalFits;
    if ticks == [] {
      StartSimulates(p);
    } else {
      var s, t := Drive(p, ticks[..|ticks| - 1]), ticks[|ticks| - 1];
      StepReceives(p.decode, s, InputFor(p, s, t));
      DriveSimulates(p, ticks[..|ticks| - 1]);
      var inputs := DriveIsARun(p, ticks[..|ticks| - 1]);
      RunKeeps(p.decode, inputs);
      OpeningIsOpen(s);
      StepSimulates(p, s, t);
    }
  }

  lemma {:induction false} EndComesFromInput(p: B.Setting, ticks: seq<Tick>)
    ensures Drive(p, ticks).inputEnded ==> Ended in ticks
  {
    if ticks != [] {
      var n := |ticks| - 1;
      EndComesFromInput(p, ticks[..n]);
      StepEndsInput(p.decode, Drive(p, ticks[..n]), InputFor(p, Drive(p, ticks[..n]), ticks[n]));
      assert ticks[n] in ticks && forall t | t in ticks[..n] :: t in ticks;
      hide Step;
    }
  }

  lemma StepEndsInput(decode: Bytes -> Option<Json>, s: State, i: Input)
    ensures Step(decode, s, i).inputEnded ==> s.inputEnded || i == EndOfInput
  {
    hide Step;
    StepReceives(decode, s, i);
  }

  lemma OpeningIsOpen(s: State)
    requires Inv(s)
    ensures s.phase.Opening? ==> s.opening
  {
  }

  /** Every uninterrupted run, however its input was cut and whenever its host and its writes
      settled, ends with the happenings and the exit code that the received bytes determine; and it
      ends before its input does only when no further bytes could change them. */
  lemma UninterruptedRunsAgree(p: B.Setting, ticks: seq<Tick>)
    requires RefusalFits(p) && |Drive(p, ticks).received| <= TOTAL_BYTES && Drive(p, ticks).phase == Done
    ensures var s := Drive(p, ticks);
            && s.history == Happenings(B.Outcome(p, s.received).0)
            && s.exitCode == B.Outcome(p, s.received).1
            && (Ended in ticks || forall more: Bytes :: B.Outcome(p, s.received + more) == B.Outcome(p, s.received))
  {
    DriveSimulates(p, ticks);
    EndComesFromInput(p, ticks);
    hide Drive, B.Outcome, Happenings;
  }
}
