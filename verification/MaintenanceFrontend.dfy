/** The public frontend of the maintenance protocol: it screens its input, relays it to a
    supervised child once that is ready, and resolves when its own output is flushed. Each method
    is one callback and runs to completion. */
module MaintenanceFrontend {
  import opened Wrappers
  import opened MaintenanceFrames
  import opened MaintenanceBackend
  import T = MaintenanceTranscript
  import H = MaintenanceHandshake

  /** A line the frontend lets through. */
  predicate LineOk(decode: Bytes -> Option<Json>, line: Bytes)
  {
    |line| <= FRAME_BYTES && FrontendAccepts(decode(line))
  }

  predicate LinesOk(decode: Bytes -> Option<Json>, lines: seq<Bytes>)
  {
    |lines| <= FRAMES && forall k | 0 <= k < |lines| :: LineOk(decode, lines[k])
  }

  /** An input, so far, that gives no reason to refuse. */
  predicate Screened(decode: Bytes -> Option<Json>, input: Bytes)
  {
    |input| <= TOTAL_BYTES && LinesOk(decode, Lines(input)) && |Rest(input)| <= FRAME_BYTES
  }

  /** What the frontend writes to its own output: the refusal of its input, the end of the child
      that a stop asked for, or what the child has written. */
  datatype Output = Refusal | Termination(confirmed: bool) | FromChild(chunk: Bytes)

  class Frontend {
    const decode: Bytes -> Option<Json>
    var ready: bool
    var inputEnded: bool
    var handshakeSent: bool
    var pending: Bytes
    var frames: nat
    var queued: seq<Bytes>
    var stopping: bool
    var finished: bool
    var inputRefused: bool
    var inputBytes: nat
    var outputBytes: nat
    var pendingWrites: nat
    var output: seq<Output>
    var finishCode: int
    /** What has been done to the child, and how the returned promise was settled. */
    var childAlive: bool
    var childInput: seq<Bytes>
    var childInputEnded: bool
    var killed: bool
    var resolved: Option<int>
    /** The chunks that passed the screening, in order of arrival. */
    ghost var accepted: seq<Bytes>

    ghost predicate Valid()
      reads this
    {
      && Relayed() && Flushed() && Reported() && EndsChildInput()
      && (!stopping && !finished && !inputRefused ==> InputOk())
      && (inputRefused ==> stopping || finished)
    }

    /** No accepted chunk is lost, duplicated or reordered, whenever the child becomes ready. */
    ghost predicate Relayed()
      reads this
    {
      && childInput + queued == accepted
      && (ready ==> queued == [])
      && (!ready ==> childInput == [])
    }

    /** The screening state is that of the accepted bytes. */
    ghost predicate InputOk()
      reads this
    {
      var input := Concat(accepted);
      && Screened(decode, input) && inputBytes == |input|
      && pending == Rest(input) && frames == |Lines(input)|
      && (inputEnded ==> pending == [] && frames > 0)
    }

    /** The refusal of the input is written exactly if it was refused, and then no termination is;
        nor is one without a stop. */
    ghost predicate Reported()
      reads this
    {
      && (Refusal in output <==> inputRefused)
      && forall confirmed | Termination(confirmed) in output :: stopping && !inputRefused
    }

    /** The child's input is ended when it is ready and the input has ended, unless that stops. */
    ghost predicate EndsChildInput()
      reads this
    {
      && (childInputEnded ==> ready && inputEnded)
      && (ready && inputEnded && !stopping && !finished ==> childInputEnded)
    }

    /** The promise is settled once finished and flushed, and with the finish code. */
    ghost predicate Flushed()
      reads this
    {
      && (resolved.Some? ==> finished && resolved.value == finishCode)
      && (finished && pendingWrites == 0 ==> resolved.Some?)
    }

    constructor (decode: Bytes -> Option<Json>)
      ensures Valid() && this.decode == decode && accepted == [] && output == [] && !stopping && !finished && !ready
      ensures !handshakeSent && !inputEnded && !inputRefused && childAlive && !killed && resolved.None?
      ensures outputBytes == pendingWrites == 0 && finishCode == 1
    {
      this.decode := decode;
      ready, inputEnded, handshakeSent, stopping, finished, inputRefused := false, false, false, false, false, false;
      pending, frames, queued, inputBytes, outputBytes, pendingWrites, finishCode := [], 0, [], 0, 0, 0, 1;
      childAlive, childInput, childInputEnded, killed, resolved := true, [], false, false, None;
      accepted, output := [], [];
      EmptyInput(decode);
    }

    // ----- Output accounting

    method WriteOutput(item: Output)
      modifies this`pendingWrites, this`output
      ensures pendingWrites == old(pendingWrites) + 1 && output == old(output) + [item]
    {
      pendingWrites, output := pendingWrites + 1, output + [item];
    }

    /** The callback of a write. */
    method WriteSettled(failed: bool)
      requires Valid() && pendingWrites > 0
      modifies this`stopping, this`pendingWrites, this`output, this`finished, this`finishCode,
               this`resolved, this`killed
      ensures Valid()
      ensures stopping == (old(stopping) || (failed && !old(finished)))
      ensures output == old(output) + TerminationNow(failed && !old(stopping || finished))
      ensures pendingWrites == old(pendingWrites) - 1 + |output| - |old(output)|
      ensures finished && pendingWrites == 0 ==>
                resolved == if old(resolved).Some? then old(resolved) else Some(finishCode)
    {
      hide Lines, Rest, Screened, Concat;
      pendingWrites := pendingWrites - 1;
      if failed { StopNow(); }
      FinishIfOutputFlushed();
    }

    method FinishIfOutputFlushed()
      modifies this`resolved
      ensures resolved ==
              if finished && pendingWrites == 0 && old(resolved).None? then Some(finishCode) else old(resolved)
    {
      if finished && pendingWrites == 0 && resolved.None? { resolved := Some(finishCode); }
    }

    method Finish(code: int)
      modifies this`finished, this`finishCode, this`resolved
      ensures finished && finishCode == if old(finished) then old(finishCode) else code
      ensures resolved ==
              if !old(finished) && pendingWrites == 0 && old(resolved).None? then Some(code) else old(resolved)
    {
      if finished { return; }
      finished, finishCode := true, code;
      if pendingWrites == 0 { FinishIfOutputFlushed(); }
    }

    method Status(confirmed: bool)
      modifies this`pendingWrites, this`output
      ensures pendingWrites == old(pendingWrites) + if inputRefused then 0 else 1
      ensures output == old(output) + if inputRefused then [] else [Termination(confirmed)]
    {
      if !inputRefused { WriteOutput(Termination(confirmed)); }
    }

    // ----- Stopping

    /** What a stop writes that takes effect now: nothing as long as there is a child to wait for. */
    function TerminationNow(stops: bool): seq<Output>
      reads this`childAlive, this`inputRefused
    {
      if stops && !childAlive && !inputRefused then [Termination(true)] else []
    }

    /** `stop`, whatever called it. */
    method StopNow()
      modifies this`stopping, this`pendingWrites, this`output, this`finished, this`finishCode,
               this`resolved, this`killed
      ensures stopping == (old(stopping) || !old(finished))
      ensures old(stopping || finished) ==>
                finished == old(finished) && pendingWrites == old(pendingWrites) && resolved == old(resolved)
                && finishCode == old(finishCode) && killed == old(killed)
      ensures output == old(output) + TerminationNow(!old(stopping || finished))
      ensures !old(stopping || finished) ==>
                && finished == !childAlive && (!finished ==> killed && pendingWrites == old(pendingWrites))
                && finishCode == (if finished then 1 else old(finishCode))
                && (finished ==> pendingWrites == old(pendingWrites) + if inputRefused then 0 else 1)
                && resolved ==
                   if finished && pendingWrites == 0 && old(resolved).None? then Some(1) else old(resolved)
    {
      if stopping || finished { return; }
      stopping := true;
      if !childAlive {
        Status(true);
        Finish(1);
        return;
      }
      killed := true;
    }

    method Stop()
      requires Valid()
      modifies this`stopping, this`pendingWrites, this`output, this`finished, this`finishCode,
               this`resolved, this`killed
      ensures Valid()
      ensures stopping == (old(stopping) || !old(finished))
      ensures output == old(output) + TerminationNow(!old(stopping || finished))
      ensures !old(stopping || finished) ==> if childAlive then killed && !finished else finished && finishCode == 1
    {
      hide Lines, Rest, Screened, Concat;
      StopNow();
    }

    /** The child did not go away in time. */
    method HardStop()
      requires Valid() && stopping
      modifies this`stopping, this`pendingWrites, this`output, this`finished, this`finishCode,
               this`resolved, this`killed
      ensures Valid() && finished
      ensures finishCode == if old(finished) then old(finishCode) else 1
      ensures output == old(output) + if old(finished) || inputRefused then [] else [Termination(false)]
    {
      hide Lines, Rest, Screened, Concat;
      if finished { return; }
      Status(false);
      Finish(1);
    }

    /** The child has exited, and its streams are not closed yet: a stop that comes now finds no child
        to kill and finishes at once. */
    method ChildExited()
      requires Valid()
      modifies this`childAlive
      ensures Valid() && !childAlive
    {
      hide Lines, Rest, Screened, Concat;
      childAlive := false;
    }

    /** The child's streams are closed. Exit code 0 takes a clean child exit and no stop; a stopped
        frontend reports the termination, also after a hard stop that has finished already. */
    method ChildClosed(code: int)
      requires Valid()
      modifies this`childAlive, this`pendingWrites, this`output, this`finished, this`finishCode, this`resolved
      ensures Valid() && finished && !childAlive
      ensures pendingWrites == old(pendingWrites) + if stopping && !inputRefused then 1 else 0
      ensures output == old(output) + if stopping && !inputRefused then [Termination(true)] else []
      ensures finishCode == if old(finished) then old(finishCode) else if !stopping && code == 0 then 0 else 1
    {
      hide Lines, Rest, Screened, Concat;
      childAlive := false;
      if stopping { Status(true); }
      Finish(if stopping then 1 else if code == 0 then 0 else 1);
    }

    // ----- Input

    method RefuseInput()
      requires Relayed() && Flushed() && Reported() && (inputRefused ==> stopping || finished)
      requires EndsChildInput() || !childInputEnded
      modifies this`inputRefused, this`stopping, this`pendingWrites, this`output, this`finished, this`finishCode,
               this`resolved, this`killed
      ensures Valid() && (stopping || finished)
      ensures inputRefused == (old(inputRefused) || !old(stopping || finished))
      ensures output == old(output) + if old(inputRefused || stopping || finished) then [] else [Refusal]
    {
      if inputRefused || stopping || finished { return; }
      inputRefused := true;
      WriteOutput(Refusal);
      StopNow();
    }

    /** A chunk of input: screened line by line, then queued or handed to the child. It is accepted
        exactly if the whole input so far gives no reason to refuse. */
    method Input(chunk: Bytes)
      requires Valid() && !finished && !inputEnded
      modifies this`inputBytes, this`pending, this`frames, this`queued, this`childInput, this`accepted,
               this`inputRefused, this`stopping, this`pendingWrites, this`output, this`finished, this`finishCode,
               this`resolved, this`killed
      ensures Valid()
      ensures old(stopping) ==> accepted == old(accepted) && childInput == old(childInput)
      ensures !old(stopping) ==>
                if Screened(decode, Concat(old(accepted)) + chunk)
                then accepted == old(accepted) + [chunk] && !stopping && !finished
                else accepted == old(accepted) && (stopping || finished)
      ensures childInput == old(childInput) + if ready && accepted != old(accepted) then [chunk] else []
      ensures !old(stopping) ==>
                var size := |Concat(old(accepted))| + |chunk|;
                output == old(output) + if size > TOTAL_BYTES then TerminationNow(true)
                                        else if Screened(decode, Concat(old(accepted)) + chunk) then []
                                        else [Refusal]
      ensures old(stopping) ==> output == old(output)
    {
      hide Lines, Rest, Concat, LinesOk, Screened;
      ScreenedLines(decode, Concat(accepted) + chunk);
      inputBytes := inputBytes + |chunk|;
      if stopping || inputBytes > TOTAL_BYTES {
        StopNow();
        return;
      }
      var ok := ScreenChunk(chunk);
      if !ok {
        RefuseInput();
        return;
      }
      ConcatPush(accepted, chunk);
      Accept(chunk);
    }

    /** The lines that a chunk completes, and what it leaves pending. */
    method ScreenChunk(chunk: Bytes) returns (ok: bool)
      requires var before := Concat(accepted);
               Screened(decode, before) && pending == Rest(before) && frames == |Lines(before)|
      requires |Concat(accepted) + chunk| <= TOTAL_BYTES
      modifies this`pending, this`frames
      ensures ok <==> Screened(decode, Concat(accepted) + chunk)
      ensures ok ==> pending == Rest(Concat(accepted) + chunk) && frames == |Lines(Concat(accepted) + chunk)|
    {
      hide Lines, Rest, Concat, LinesOk, Screened;
      ghost var before := Concat(accepted);
      ScreenedLines(decode, before);
      LinesAppend(before, chunk);
      ok, pending, frames := Screen(decode, before, chunk, pending + chunk, frames);
      ScreenedNext(decode, before + chunk, ok, pending);
      ok := ok && |pending| <= FRAME_BYTES;
    }

    /** A screened chunk is queued until the child is ready, and goes to the child from then on. */
    method Accept(chunk: Bytes)
      requires Relayed()
      modifies this`queued, this`childInput, this`accepted
      ensures Relayed() && accepted == old(accepted) + [chunk]
      ensures childInput == old(childInput) + if ready then [chunk] else []
    {
      if !ready {
        queued := queued + [chunk];
      } else {
        childInput := childInput + [chunk];
      }
      accepted := accepted + [chunk];
    }

    /** The end of the input. */
    method End()
      requires Valid() && !inputEnded
      modifies this
      ensures Valid() && inputEnded && accepted == old(accepted) && childInput == old(childInput)
      ensures !old(stopping || finished) ==>
                (!stopping && !finished <==> Rest(Concat(accepted)) == [] && Lines(Concat(accepted)) != [])
                && output == old(output) + (if stopping || finished then [Refusal] else [])
                && (childInputEnded <==> ready && !stopping && !finished)
    {
      hide Lines, Rest, Concat, Screened;
      inputEnded := true;
      if |pending| > 0 || frames == 0 {
        RefuseInput();
        return;
      }
      if ready { childInputEnded := true; }
    }

    // ----- The child

    /** Neither of the two messages the frontend waits for is a violation. */
    predicate Expected(message: H.Message)
      reads this
    {
      !stopping && ((message == H.AwaitingStart && !handshakeSent) || (message == H.Ready(true) && !ready))
    }

    /** The handshake: one start for the first announcement, then one ready with the right token. */
    method OnMessage(message: H.Message)
      requires Valid()
      modifies this`ready, this`handshakeSent, this`queued, this`childInput, this`childInputEnded,
        this`stopping, this`pendingWrites, this`output, this`finished, this`finishCode, this`resolved, this`killed
      ensures Valid()
      ensures H.Supervisor(handshakeSent, ready, stopping, old(finished)) ==
              H.OnMessage(H.Supervisor(old(handshakeSent), old(ready), old(stopping), old(finished)), message)
      ensures ready <==> old(ready) || (message == H.Ready(true) && !old(stopping))
      ensures handshakeSent <==> old(handshakeSent) || (message == H.AwaitingStart && !old(stopping))
      ensures !old(ready) && ready ==> childInput == accepted && (childInputEnded <==> inputEnded)
      ensures old(ready) ==> childInput == old(childInput)
      ensures stopping <==> old(stopping) || (!old(finished) && !old(Expected(message)))
      ensures output == old(output) + TerminationNow(!old(stopping || finished || Expected(message)))
    {
      hide Lines, Rest, Concat, Screened;
      if message == H.AwaitingStart && !handshakeSent && !stopping {
        handshakeSent := true;
        return;
      }
      if ready || stopping || message != H.Ready(true) {
        StopNow();
        return;
      }
      BecomeReady();
    }

    method BecomeReady()
      requires Relayed() && !ready
      modifies this`ready, this`queued, this`childInput, this`childInputEnded
      ensures ready && Relayed() && childInput == accepted
      ensures childInputEnded == (old(childInputEnded) || inputEnded)
    {
      ready := true;
      FlushQueue();
      if inputEnded { childInputEnded := true; }
    }

    /** What was queued goes to the child in order. */
    method FlushQueue()
      modifies this`queued, this`childInput
      ensures childInput == old(childInput) + old(queued) && queued == []
    {
      for k := 0 to |queued|
        invariant queued == old(queued) && childInput == old(childInput) + queued[..k]
      {
        childInput := childInput + [queued[k]];
      }
      queued := [];
    }

    /** Output of the child, relayed within the same limit. */
    method Relay(chunk: Bytes)
      requires Valid()
      modifies this`outputBytes, this`stopping, this`pendingWrites, this`output, this`finished, this`finishCode,
               this`resolved, this`killed
      ensures Valid()
      ensures outputBytes == old(outputBytes) + |chunk|
      ensures stopping == (old(stopping) || (outputBytes > TOTAL_BYTES && !old(finished)))
      ensures output == old(output) + if outputBytes <= TOTAL_BYTES then [FromChild(chunk)]
                                      else TerminationNow(!old(stopping || finished))
    {
      hide Lines, Rest, Concat, Screened;
      outputBytes := outputBytes + |chunk|;
      if outputBytes > TOTAL_BYTES {
        StopNow();
        return;
      }
      WriteOutput(FromChild(chunk));
    }
  }

  lemma ScreenedLines(decode: Bytes -> Option<Json>, input: Bytes)
    ensures Screened(decode, input) ==> LinesOk(decode, Lines(input)) && |input| <= TOTAL_BYTES
  {
    hide LinesOk;
  }

  lemma ScreenedNext(decode: Bytes -> Option<Json>, input: Bytes, ok: bool, pending: Bytes)
    requires |input| <= TOTAL_BYTES && (ok <==> LinesOk(decode, Lines(input))) && (ok ==> pending == Rest(input))
    ensures Screened(decode, input) <==> ok && |pending| <= FRAME_BYTES
  {
    hide LinesOk;
  }

  lemma EmptyInput(decode: Bytes -> Option<Json>)
    ensures Screened(decode, []) && Concat([]) == [] && Rest([]) == [] && Lines([]) == []
  {
  }

  lemma ConcatPush(chunks: seq<Bytes>, chunk: Bytes)
    ensures Concat(chunks + [chunk]) == Concat(chunks) + chunk
  {
    assert (chunks + [chunk])[..|chunks|] == chunks;
  }

  /** The inner loop of the screening, over the complete lines of what is pending. */
  method Screen(decode: Bytes -> Option<Json>, ghost before: Bytes, ghost chunk: Bytes, buffer: Bytes, count: nat)
    returns (ok: bool, pending: Bytes, frames: nat)
    requires buffer == Rest(before) + chunk && count == |Lines(before)| && LinesOk(decode, Lines(before))
    ensures ok <==> LinesOk(decode, Lines(before + chunk))
    ensures ok ==> pending == Rest(before + chunk) && frames == |Lines(before + chunk)|
  {
    LinesAppend(before, chunk);
    ghost var all, handled := Lines(before + chunk), Lines(before);
    hide Lines, Rest, FrontendAccepts, IndexOfNewline;
    ok, pending, frames := true, buffer, count;
    while true
      invariant ok && frames == |handled| && LinesOk(decode, handled)
      invariant all == handled + Lines(pending) && Rest(before + chunk) == Rest(pending)
      decreases |pending|
    {
      var newline := IndexOfNewline(pending);
      if newline == |pending| {
        NoLine(pending);
        return;
      }
      FirstLine(pending);
      var line := pending[..newline];
      pending := pending[newline + 1..];
      assert all[|handled|] == line;
      assert all == (handled + [line]) + Lines(pending);
      if !FrontendAccepts(decode(line)) || |line| > FRAME_BYTES || frames + 1 > FRAMES {
        ok := false;
        assert !LinesOk(decode, all);
        return;
      }
      frames := frames + 1;
      handled := handled + [line];
    }
  }

  // ----- Frontend and backend together

  /** The reasons left to the backend for a stream that the frontend let end normally. */
  const BACKEND_ONLY := {Retarget, HostDoesNotOpen, HostThrows, InvalidReply, ReplyLimit, HostRefuses}

  lemma {:induction false} ScreenedLinesParse(p: Setting, lines: seq<Bytes>)
    requires LinesOk(p.decode, lines)
    ensures var g := HandleLines(p, lines);
      if g.Going? then g.session.frames == |lines| else g.cause in BACKEND_ONLY
  {
    if lines != [] {
      var n := |lines| - 1;
      ScreenedLinesParse(p, lines[..n]);
      var before := HandleLines(p, lines[..n]);
      if before.Going? { ScreenedLineParses(p, before.session, lines[n]); }
      hide HandleLine, LineOk;
    }
  }

  lemma ScreenedLineParses(p: Setting, s: Session, line: Bytes)
    requires LineOk(p.decode, line) && s.frames < FRAMES
    ensures var g := HandleLine(p, s, line);
      if g.Going? then g.session.frames == s.frames + 1 else g.cause in BACKEND_ONLY
  {
    ValidatorsAgree(p.decode(line));
    hide ParseFrame, FrontendAccepts;
  }

  /** The limits and the validators agree: an input that the frontend accepted to its end either
      succeeds in the backend, or fails there through a repeated prepare, the host or a reply. */
  lemma BackendAgrees(p: Setting, input: Bytes)
    requires Screened(p.decode, input) && Rest(input) == [] && Lines(input) != []
    ensures var g := AtEnd(HandleLines(p, Lines(input)), Rest(input));
      && Outcome(p, input) == Conclude(p, g)
      && if g.Going? then Outcome(p, input).1 == 0 && g.session.frames == |Lines(input)|
         else g.cause in BACKEND_ONLY && Outcome(p, input).1 == 1
  {
    ScreenedLinesParse(p, Lines(input));
    hide HandleLines, Lines, Rest, LinesOk;
  }

  /** And the other way round: at no point of an input that the backend would take to a successful
      end does the frontend refuse it. */
  lemma FrontendLetsPass(p: Setting, a: Bytes, b: Bytes)
    requires |a + b| <= TOTAL_BYTES && Outcome(p, a + b).1 == 0
    ensures Screened(p.decode, a)
  {
    var all := Lines(a + b);
    T.SucceedsExactlyWhen(p, a + b);
    LinesAppend(a, b);
    hide Outcome, Lines, Rest, IndexOfNewline;
    ServedPass(p, all);
    assert all[..|Lines(a)|] == Lines(a);
    if Rest(a) != [] {
      RestIsAhead(Rest(a), b);
      assert all[|Lines(a)|] == Lines(Rest(a) + b)[0];
    }
  }

  lemma ServedPass(p: Setting, lines: seq<Bytes>)
    requires T.AllServed(p, lines)
    ensures |lines| <= FRAMES && forall k | 0 <= k < |lines| :: LineOk(p.decode, lines[k])
  {
    if lines != [] { assert T.Served(p, lines, |lines| - 1); }
    forall k: nat | k < |lines| ensures LineOk(p.decode, lines[k]) {
      assert T.Served(p, lines, k);
      ValidatorsAgree(p.decode(lines[k]));
    }
    hide ParseFrame, FrontendAccepts;
  }

  /** What is pending is the head of the next line. */
  lemma RestIsAhead(rest: Bytes, b: Bytes)
    requires NEWLINE !in rest && Rest(rest + b) == [] && rest != []
    ensures Lines(rest + b) != [] && |rest| <= |Lines(rest + b)[0]|
  {
    var more := rest + b;
    OverlongStart(rest, b);
    hide Lines, Rest, IndexOfNewline;
    if IndexOfNewline(more) < |more| { FirstLine(more); } else { NoLine(more); }
  }
}
