/** The backend of the maintenance protocol when nothing interrupts it: its nested loops over
    chunks and frames, proved to depend only on the bytes received. */
module MaintenanceBackend {
  import opened Wrappers
  import opened MaintenanceFrames

  datatype Status = Prepared | Committed | Replayed | Refused | Unlisted

  datatype Reply = Reply(status: Status, detail: string)

  const MAINTENANCE_REFUSED := Reply(Refused, "maintenance-refused")

  datatype Call = Call(command: Command, input: Json)

  /** The parts outside the protocol: UTF-8 decoding with JSON parsing, a deterministic host (its
      answer to the last of its calls, given them all; `None`: it throws), whether the host opens,
      and the size of an encoded reply line. */
  datatype Setting = Setting(
    decode: Bytes -> Option<Json>,
    opens: bool,
    answer: seq<Call> -> Option<Reply>,
    replySize: (Option<string>, Reply) -> nat)

  /** What can be observed from outside. */
  datatype Event =
    | HostOpened
    | HostCalled(call: Call)
    | Replied(requestId: Option<string>, reply: Reply)
    | HostClosed

  datatype Session = Session(hostOpen: bool, prepared: bool, frames: nat, calls: seq<Call>, events: seq<Event>)

  const NEW_SESSION := Session(false, false, 0, [], [])

  /** Why handling stopped; only a refusal by the host returns without the catch block. */
  datatype Cause =
    | FrameLimit
    | InvalidFrame
    | Retarget
    | HostDoesNotOpen
    | HostThrows
    | InvalidReply
    | ReplyLimit
    | HostRefuses
    | InputLimit
    | IncompleteFrame

  datatype Progress =
    | Going(session: Session)
    | Stopped(session: Session, requestId: Option<string>, cause: Cause)

  /** Call the host for a frame, and emit its reply. */
  function CallHost(p: Setting, s: Session, f: Frame): Progress
  {
    var call := Call(f.command, f.input);
    var calls := s.calls + [call];
    var called := s.(prepared := s.prepared || f.command == Prepare, calls := calls,
                     events := s.events + [HostCalled(call)]);
    var result := p.answer(calls);
    if result.None? then Stopped(called, Some(f.requestId), HostThrows)
    else if result.value.status == Unlisted then Stopped(called, Some(f.requestId), InvalidReply)
    else if p.replySize(Some(f.requestId), result.value) > FRAME_BYTES then
      Stopped(called, Some(f.requestId), ReplyLimit)
    else
      var replied := called.(events := called.events + [Replied(Some(f.requestId), result.value)]);
      if result.value.status == Refused then Stopped(replied, Some(f.requestId), HostRefuses) else Going(replied)
  }

  function HandleFrame(p: Setting, s: Session, f: Frame): Progress
  {
    if f.command == Prepare && s.prepared then Stopped(s, Some(f.requestId), Retarget)
    else if !s.hostOpen && !p.opens then Stopped(s, Some(f.requestId), HostDoesNotOpen)
    else if !s.hostOpen then CallHost(p, s.(hostOpen := true, events := s.events + [HostOpened]), f)
    else CallHost(p, s, f)
  }

  function HandleLine(p: Setting, s: Session, line: Bytes): Progress
  {
    if |line| > FRAME_BYTES || s.frames + 1 > FRAMES then Stopped(s, None, FrameLimit)
    else
      var f := ParseFrame(p.decode(line));
      if f.None? then Stopped(s, None, InvalidFrame)
      else HandleFrame(p, s.(frames := s.frames + 1), f.value)
  }

  function HandleLines(p: Setting, lines: seq<Bytes>): Progress
  {
    if lines == [] then Going(NEW_SESSION)
    else
      var before := HandleLines(p, lines[..|lines| - 1]);
      if before.Stopped? then before else HandleLine(p, before.session, lines[|lines| - 1])
  }

  /** The end of the protocol: the last refusal if one is due, the host closed, the exit code. */
  function Conclude(p: Setting, g: Progress): (seq<Event>, int)
  {
    var close := if g.session.hostOpen then [HostClosed] else [];
    if g.Going? then (g.session.events + close, 0)
    else if g.cause == HostRefuses || p.replySize(g.requestId, MAINTENANCE_REFUSED) > FRAME_BYTES
    then (g.session.events + close, 1)
    else (g.session.events + [Replied(g.requestId, MAINTENANCE_REFUSED)] + close, 1)
  }

  /** A stream that ends: an unfinished line, or none at all, is an error. */
  function AtEnd(g: Progress, rest: Bytes): Progress
  {
    if g.Stopped? || (rest == [] && g.session.frames > 0) then g else Stopped(g.session, None, IncompleteFrame)
  }

  /** What the protocol does with a whole input, read line by line. */
  function Outcome(p: Setting, bytes: Bytes): (seq<Event>, int)
  {
    Conclude(p, AtEnd(HandleLines(p, Lines(bytes)), Rest(bytes)))
  }

  /** What it does with what came before the chunk that crosses the byte limit. */
  function Overrun(p: Setting, bytes: Bytes): (seq<Event>, int)
  {
    var g := HandleLines(p, Lines(bytes));
    Conclude(p, if g.Stopped? then g else Stopped(g.session, None, InputLimit))
  }

  // ----- Lines are handled one after the other

  lemma {:induction false} HandleLinesAppend(p: Setting, a: seq<Bytes>, b: seq<Bytes>)
    ensures HandleLines(p, a).Stopped? ==> HandleLines(p, a + b) == HandleLines(p, a)
  {
    if b != [] {
      var n := |b| - 1;
      HandleLinesAppend(p, a, b[..n]);
      assert (a + b)[..|a| + n] == a + b[..n];
    } else {
      assert a + b == a;
    }
  }

  lemma HandleLinesPush(p: Setting, a: seq<Bytes>, line: Bytes)
    ensures HandleLines(p, a).Going? ==> HandleLines(p, a + [line]) == HandleLine(p, HandleLines(p, a).session, line)
  {
    assert (a + [line])[..|a|] == a;
  }

  /** Once handling has stopped within a prefix of the stream, the rest of it does not matter. */
  lemma StoppedIsFinal(p: Setting, a: Bytes, b: Bytes)
    requires HandleLines(p, Lines(a)).Stopped?
    ensures Outcome(p, a + b) == Conclude(p, HandleLines(p, Lines(a)))
  {
    LinesAppend(a, b);
    HandleLinesAppend(p, Lines(a), Lines(Rest(a) + b));
    hide Lines, Rest, HandleLines, Conclude;
  }

  /** A line that grows past the frame limit before its newline comes ends like one that is too
      long when the newline does come. */
  lemma OverlongIsFinal(p: Setting, a: Bytes, b: Bytes)
    requires HandleLines(p, Lines(a)).Going? && |Rest(a)| > FRAME_BYTES
    ensures Outcome(p, a + b) == Conclude(p, Stopped(HandleLines(p, Lines(a)).session, None, FrameLimit))
  {
    var session := HandleLines(p, Lines(a)).session;
    LinesAppend(a, b);
    var g := HandleLines(p, Lines(a + b));
    assert Outcome(p, a + b) == Conclude(p, AtEnd(g, Rest(a + b)));
    OverlongLines(p, session, Lines(a), Rest(a), b);
    SameRefusal(p, session, IncompleteFrame, FrameLimit);
    hide *;
  }

  lemma OverlongLines(p: Setting, session: Session, before: seq<Bytes>, rest: Bytes, b: Bytes)
    requires HandleLines(p, before) == Going(session) && |rest| > FRAME_BYTES && NEWLINE !in rest
    ensures AtEnd(HandleLines(p, before + Lines(rest + b)), Rest(rest + b))
         in {Stopped(session, None, FrameLimit), Stopped(session, None, IncompleteFrame)}
  {
    hide Lines, Rest, HandleLines, IndexOfNewline;
    var more := rest + b;
    var n := IndexOfNewline(more);
    OverlongStart(rest, b);
    if n < |more| {
      FirstLine(more);
      HandleLinesPush(p, before, more[..n]);
      HandleLinesAppend(p, before + [more[..n]], Lines(more[n + 1..]));
      assert before + ([more[..n]] + Lines(more[n + 1..])) == (before + [more[..n]]) + Lines(more[n + 1..]);
    } else {
      NoLine(more);
      assert before + [] == before;
    }
  }

  lemma SameRefusal(p: Setting, session: Session, c: Cause, c': Cause)
    requires c != HostRefuses && c' != HostRefuses
    ensures Conclude(p, Stopped(session, None, c)) == Conclude(p, Stopped(session, None, c'))
  {
  }

  lemma {:induction false} OverlongStart(a: Bytes, b: Bytes)
    requires NEWLINE !in a
    ensures IndexOfNewline(a + b) >= |a|
  {
    if a != [] {
      OverlongStart(a[1..], b);
      assert (a + b)[1..] == a[1..] + b;
    }
  }

  // ----- The loops

  /** The outer loop, over the chunks that the stream yields. */
  method Serve(p: Setting, chunks: seq<Bytes>) returns (events: seq<Event>, exitCode: int)
    ensures |Concat(chunks)| <= TOTAL_BYTES ==> (events, exitCode) == Outcome(p, Concat(chunks))
    ensures |Concat(chunks)| > TOTAL_BYTES ==>
              exists i :: CrossesAt(chunks, i) && (events, exitCode) == Overrun(p, Concat(chunks[..i]))
  {
    var pending: Bytes, totalBytes := [], 0;
    var progress := Going(NEW_SESSION);
    ghost var seen: Bytes := [];
    EmptyStream(p);
    for i := 0 to |chunks|
      invariant seen == Concat(chunks[..i]) && totalBytes == |seen| <= TOTAL_BYTES
      invariant progress.Going? && progress == HandleLines(p, Lines(seen))
      invariant pending == Rest(seen) && |pending| <= FRAME_BYTES
    {
      var chunk := chunks[i];
      ConcatStep(chunks, i);
      ConcatPrefix(chunks, i + 1);
      totalBytes := totalBytes + |chunk|;
      if totalBytes > TOTAL_BYTES {
        events, exitCode := Conclude(p, Stopped(progress.session, None, InputLimit)).0, 1;
        assert CrossesAt(chunks, i);
        return;
      }
      progress, pending := Drain(p, seen, progress.session, pending + chunk, chunk);
      seen := seen + chunk;
      if progress.Stopped? {
        StoppedIsFinal(p, seen, Concat(chunks)[|seen|..]);
        if |Concat(chunks)| > TOTAL_BYTES { StoppedBeforeLimit(p, chunks, i + 1); }
        events, exitCode := Conclude(p, progress).0, Conclude(p, progress).1;
        return;
      }
      if |pending| > FRAME_BYTES {
        OverlongIsFinal(p, seen, Concat(chunks)[|seen|..]);
        if |Concat(chunks)| > TOTAL_BYTES { OverlongBeforeLimit(p, chunks, i + 1); }
        events, exitCode := Conclude(p, Stopped(progress.session, None, FrameLimit)).0, 1;
        return;
      }
    }
    assert chunks[..|chunks|] == chunks;
    progress := AtEnd(progress, pending);
    events, exitCode := Conclude(p, progress).0, Conclude(p, progress).1;
  }

  lemma EmptyStream(p: Setting)
    ensures Lines([]) == [] && Rest([]) == [] && HandleLines(p, []) == Going(NEW_SESSION)
  {
  }

  lemma ConcatStep(chunks: seq<Bytes>, i: nat)
    requires i < |chunks|
    ensures Concat(chunks[..i + 1]) == Concat(chunks[..i]) + chunks[i]
  {
    assert chunks[..i + 1][..i] == chunks[..i];
  }

  lemma {:induction false} ConcatPrefix(chunks: seq<Bytes>, i: nat)
    requires i <= |chunks|
    ensures |Concat(chunks[..i])| <= |Concat(chunks)|
    ensures Concat(chunks) == Concat(chunks[..i]) + Concat(chunks)[|Concat(chunks[..i])|..]
    decreases |chunks|
  {
    if i < |chunks| {
      var n := |chunks| - 1;
      ConcatPrefix(chunks[..n], i);
      assert chunks[..n][..i] == chunks[..i];
    } else {
      assert chunks[..i] == chunks;
    }
  }

  /** Chunk `i` takes the input over the limit. */
  predicate CrossesAt(chunks: seq<Bytes>, i: int)
  {
    0 <= i < |chunks| && |Concat(chunks[..i])| <= TOTAL_BYTES < |Concat(chunks[..i + 1])|
  }

  lemma {:induction false} Crossing(chunks: seq<Bytes>, from: nat) returns (i: nat)
    requires from <= |chunks| && |Concat(chunks[..from])| <= TOTAL_BYTES < |Concat(chunks)|
    ensures from <= i && CrossesAt(chunks, i)
    ensures exists more :: Concat(chunks[..i]) == Concat(chunks[..from]) + more
    decreases |chunks| - from
  {
    assert chunks[..|chunks|] == chunks;
    ConcatStep(chunks, from);
    if |Concat(chunks[..from + 1])| > TOTAL_BYTES {
      i := from;
      assert Concat(chunks[..i]) == Concat(chunks[..from]) + [];
    } else {
      i := Crossing(chunks, from + 1);
      var more :| Concat(chunks[..i]) == Concat(chunks[..from + 1]) + more;
      assert Concat(chunks[..i]) == Concat(chunks[..from]) + (chunks[from] + more);
    }
  }

  lemma StoppedBeforeLimit(p: Setting, chunks: seq<Bytes>, n: nat)
    requires n <= |chunks| && |Concat(chunks[..n])| <= TOTAL_BYTES < |Concat(chunks)|
    requires HandleLines(p, Lines(Concat(chunks[..n]))).Stopped?
    ensures exists i :: CrossesAt(chunks, i)
                        && Overrun(p, Concat(chunks[..i])) == Conclude(p, HandleLines(p, Lines(Concat(chunks[..n]))))
  {
    hide HandleLines, Lines, Rest, Concat, Conclude;
    var i := Crossing(chunks, n);
    var seen, more :| seen == Concat(chunks[..n]) && Concat(chunks[..i]) == seen + more;
    LinesAppend(seen, more);
    HandleLinesAppend(p, Lines(seen), Lines(Rest(seen) + more));
  }

  lemma OverlongBeforeLimit(p: Setting, chunks: seq<Bytes>, n: nat)
    requires n <= |chunks| && |Concat(chunks[..n])| <= TOTAL_BYTES < |Concat(chunks)|
    requires HandleLines(p, Lines(Concat(chunks[..n]))).Going? && |Rest(Concat(chunks[..n]))| > FRAME_BYTES
    ensures exists i :: CrossesAt(chunks, i)
                        && Overrun(p, Concat(chunks[..i]))
                        == Conclude(p, Stopped(HandleLines(p, Lines(Concat(chunks[..n]))).session, None, FrameLimit))
  {
    hide HandleLines, Lines, Rest, Concat, Conclude;
    var i := Crossing(chunks, n);
    var seen, more :| seen == Concat(chunks[..n]) && Concat(chunks[..i]) == seen + more;
    var session := HandleLines(p, Lines(seen)).session;
    LinesAppend(seen, more);
    OverlongLines(p, session, Lines(seen), Rest(seen), more);
    SameRefusal(p, session, InputLimit, FrameLimit);
    SameRefusal(p, session, IncompleteFrame, FrameLimit);
  }

  /** The inner loop, over the complete lines of what is pending. */
  method Drain(p: Setting, ghost seen: Bytes, session: Session, buffer: Bytes, ghost chunk: Bytes)
    returns (progress: Progress, pending: Bytes)
    requires HandleLines(p, Lines(seen)) == Going(session) && buffer == Rest(seen) + chunk
    ensures progress == HandleLines(p, Lines(seen + chunk))
    ensures progress.Going? ==> pending == Rest(seen + chunk)
  {
    pending, progress := buffer, Going(session);
    LinesAppend(seen, chunk);
    hide *;
    ghost var before, all := Lines(seen), Lines(seen + chunk);
    ghost var handled := before;
    while true
      invariant progress.Going? && progress == HandleLines(p, handled)
      invariant all == handled + Lines(pending) && Rest(seen + chunk) == Rest(pending)
      decreases |pending|
    {
      var newline := IndexOfNewline(pending);
      if newline == |pending| {
        NoLine(pending);
        assert handled + [] == handled;
        return;
      }
      FirstLine(pending);
      var line := pending[..newline];
      HandleLinesPush(p, handled, line);
      progress := HandleLine(p, progress.session, line);
      pending := pending[newline + 1..];
      assert handled + ([line] + Lines(pending)) == (handled + [line]) + Lines(pending);
      handled := handled + [line];
      if progress.Stopped? {
        HandleLinesAppend(p, handled, Lines(pending));
        return;
      }
    }
  }
}
