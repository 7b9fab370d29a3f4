/** What the backend does with an input, told from its lines: which requests are served, what each
    call and reply is, and how a session ends that is not served to the end. */
module MaintenanceTranscript {
  import opened Wrappers
  import opened MaintenanceFrames
  import opened MaintenanceBackend

  // ----- What the lines ask for

  /** The frame on a line, if it is one. */
  function Request(p: Setting, line: Bytes): Option<Frame>
  {
    if |line| > 65_536 then None else ParseFrame(p.decode(line))
  }

  function CallFor(f: Frame): Call
  {
    Call(f.command, f.input)
  }

  /** The calls that a list of lines asks for; a line that is no frame ends what is served. */
  function Asked(p: Setting, lines: seq<Bytes>): seq<Call>
  {
    seq(|lines|, k requires 0 <= k < |lines| =>
      var f := Request(p, lines[k]); if f.Some? then CallFor(f.value) else Call(Prepare, Null))
  }

  /** What the host answers to line `k` after all the calls before it. */
  function Answer(p: Setting, lines: seq<Bytes>, k: nat): Option<Reply>
    requires k < |lines|
  {
    p.answer(Asked(p, lines[..k + 1]))
  }

  function RepliesInTime(p: Setting, id: string, reply: Reply): bool
  {
    p.replySize(Some(id), reply) <= 65_536
  }

  predicate Retargets(p: Setting, lines: seq<Bytes>, k: nat)
    requires k < |lines|
  {
    var f := Request(p, lines[k]);
    f.Some? && f.value.command == Prepare
    && exists j | 0 <= j < k :: Request(p, lines[j]).Some? && Request(p, lines[j]).value.command == Prepare
  }

  /** Line `k` is answered and the session goes on. */
  predicate Served(p: Setting, lines: seq<Bytes>, k: nat)
    requires k < |lines|
  {
    var f, answer := Request(p, lines[k]), Answer(p, lines, k);
    && k < 16 && f.Some? && !Retargets(p, lines, k) && p.opens
    && answer.Some? && answer.value.status in {Prepared, Committed, Replayed}
    && RepliesInTime(p, f.value.requestId, answer.value)
  }

  predicate AllServed(p: Setting, lines: seq<Bytes>)
  {
    forall k: nat | k < |lines| :: Served(p, lines, k)
  }

  /** How many events `n` served lines make: the host is start once, and each is called and replied to. */
  function Span(n: nat): nat { if n == 0 then 0 else 1 + 2 * n }

  /** The events of lines that are all served. */
  ghost predicate Records(p: Setting, lines: seq<Bytes>, events: seq<Event>)
  {
    && |events| == Span(|lines|)
    && (lines != [] ==> events[0] == HostOpened)
    && forall k: nat | k < |lines| ::
         var f, answer := Request(p, lines[k]), Answer(p, lines, k);
         f.Some? && answer.Some?
         && events[2 * k + 1] == HostCalled(Call(f.value.command, f.value.input))
         && events[2 * k + 2] == Replied(Some(f.value.requestId), answer.value)
  }

  // ----- As long as lines are served

  ghost predicate Tells(p: Setting, lines: seq<Bytes>, s: Session)
  {
    && Records(p, lines, s.events) && s.calls == Asked(p, lines) && s.frames == |lines|
    && (s.hostOpen <==> lines != [])
    && (s.prepared <==> exists k | 0 <= k < |lines| ::
          Request(p, lines[k]).Some? && Request(p, lines[k]).value.command == Prepare)
    && (lines != [] ==> p.opens)
  }

  lemma PrefixAsks(p: Setting, lines: seq<Bytes>, n: nat, k: nat)
    requires k < n <= |lines|
    ensures lines[..n][..k + 1] == lines[..k + 1] && lines[..n][k] == lines[k]
    ensures Served(p, lines[..n], k) <==> Served(p, lines, k)
    ensures Answer(p, lines[..n], k) == Answer(p, lines, k)
  {
    assert lines[..n][..k + 1] == lines[..k + 1];
    assert Retargets(p, lines[..n], k) <==> Retargets(p, lines, k);
  }

  lemma AskedPush(p: Setting, lines: seq<Bytes>, n: nat)
    requires |lines| == n + 1 && Request(p, lines[n]).Some?
    ensures Asked(p, lines) == Asked(p, lines[..n]) + [CallFor(Request(p, lines[n]).value)]
    ensures lines[..n + 1] == lines
  {
  }

  /** What calling the host comes to. */
  lemma CallGoesOn(p: Setting, s: Session, f: Frame)
    ensures var g, answer := CallHost(p, s, f), p.answer(s.calls + [CallFor(f)]);
            && (g.Going? <==> answer.Some? && answer.value.status in {Prepared, Committed, Replayed}
                              && RepliesInTime(p, f.requestId, answer.value))
            && (g.Going? ==> g.session == s.(prepared := s.prepared || f.command == Prepare,
                                             calls := s.calls + [CallFor(f)],
                                             events := s.events + [HostCalled(CallFor(f))]
                                                       + [Replied(Some(f.requestId), answer.value)]))
  {
  }

  lemma RecordsPush(p: Setting, lines: seq<Bytes>, n: nat, events: seq<Event>, reply: Reply)
    requires |lines| == n + 1 && Records(p, lines[..n], events)
    requires Request(p, lines[n]).Some? && Answer(p, lines, n) == Some(reply)
    ensures var f := Request(p, lines[n]).value;
            var start := if n == 0 then events + [HostOpened] else events;
            Records(p, lines, start + [HostCalled(CallFor(f))] + [Replied(Some(f.requestId), reply)])
  {
    hide Served, Request, Answer;
    forall k: nat | k < n
      ensures lines[..n][k] == lines[k] && Answer(p, lines[..n], k) == Answer(p, lines, k)
    {
      PrefixAsks(p, lines, n, k);
    }
  }

  lemma PreparedBefore(p: Setting, lines: seq<Bytes>, n: nat)
    requires |lines| == n + 1
    ensures Retargets(p, lines, n) <==>
            Request(p, lines[n]).Some? && Request(p, lines[n]).value.command == Prepare
            && exists k | 0 <= k < n ::
                 Request(p, lines[..n][k]).Some? && Request(p, lines[..n][k]).value.command == Prepare
  {
    hide Request;
    assert forall k | 0 <= k < n :: lines[..n][k] == lines[k];
  }

  /** The session with the host open, before its call for line `n`. */
  function BeforeCall(s: Session, n: nat): Session
  {
    s.(frames := s.frames + 1, hostOpen := true,
       events := if n == 0 then s.events + [HostOpened] else s.events)
  }

  lemma CallTells(p: Setting, lines: seq<Bytes>, n: nat, s: Session)
    requires |lines| == n + 1 && Tells(p, lines[..n], s) && Request(p, lines[n]).Some? && p.opens
    ensures var f, answer := Request(p, lines[n]).value, Answer(p, lines, n);
            var g := CallHost(p, BeforeCall(s, n), f);
            && (g.Going? <==> answer.Some? && answer.value.status in {Prepared, Committed, Replayed}
                              && RepliesInTime(p, f.requestId, answer.value))
            && (g.Going? ==> Tells(p, lines, g.session))
  {
    hide Request, Records, CallHost, RepliesInTime;
    var f := Request(p, lines[n]).value;
    AskedPush(p, lines, n);
    CallGoesOn(p, BeforeCall(s, n), f);
    if Answer(p, lines, n).Some? { RecordsPush(p, lines, n, s.events, Answer(p, lines, n).value); }
    hide Asked;
    PreparedPush(p, lines, n);
  }

  lemma PreparedPush(p: Setting, lines: seq<Bytes>, n: nat)
    requires |lines| == n + 1 && Request(p, lines[n]).Some?
    ensures (exists k | 0 <= k < n + 1 :: Request(p, lines[k]).Some? && Request(p, lines[k]).value.command == Prepare)
            <==> Request(p, lines[n]).value.command == Prepare
                 || exists k | 0 <= k < n ::
                      Request(p, lines[..n][k]).Some? && Request(p, lines[..n][k]).value.command == Prepare
  {
    hide Request;
    assert forall k | 0 <= k < n :: lines[..n][k] == lines[k];
  }

  /** The line after lines that are all served. */
  lemma NextLine(p: Setting, lines: seq<Bytes>, n: nat, s: Session)
    requires |lines| == n + 1 && Tells(p, lines[..n], s)
    ensures var g := HandleLine(p, s, lines[n]);
            (g.Going? <==> Served(p, lines, n)) && (g.Going? ==> Tells(p, lines, g.session))
  {
    hide CallHost, Records, Asked, ParseFrame, Answer;
    PreparedBefore(p, lines, n);
    hide Retargets;
    if Request(p, lines[n]).Some? && p.opens { CallTells(p, lines, n, s); }
  }

  lemma NothingTells(p: Setting)
    ensures HandleLines(p, []) == Going(NEW_SESSION) && AllServed(p, []) && Tells(p, [], NEW_SESSION)
  {
  }

  lemma AllServedPush(p: Setting, lines: seq<Bytes>, n: nat)
    requires |lines| == n + 1
    ensures AllServed(p, lines) <==> AllServed(p, lines[..n]) && Served(p, lines, n)
  {
    hide Served;
    forall k: nat | k < n ensures Served(p, lines[..n], k) <==> Served(p, lines, k) { PrefixAsks(p, lines, n, k); }
  }

  /** Handling goes on exactly as long as every line is served. */
  lemma {:induction false} GoingWhileServed(p: Setting, lines: seq<Bytes>)
    ensures var g := HandleLines(p, lines);
            (g.Going? <==> AllServed(p, lines)) && (g.Going? ==> Tells(p, lines, g.session))
  {
    if lines == [] {
      NothingTells(p);
    } else {
      hide Served, Tells, HandleLine, AllServed;
      var n := |lines| - 1;
      GoingWhileServed(p, lines[..n]);
      AllServedPush(p, lines, n);
      if HandleLines(p, lines[..n]).Going? { NextLine(p, lines, n, HandleLines(p, lines[..n]).session); }
    }
  }

  /** The first line that is not served, or the number of lines. */
  predicate EndsAt(p: Setting, lines: seq<Bytes>, n: nat)
  {
    n <= |lines| && AllServed(p, lines[..n]) && (n < |lines| ==> !Served(p, lines, n))
  }

  lemma NotAllServed(p: Setting, lines: seq<Bytes>, n: nat)
    requires n < |lines| && !Served(p, lines, n)
    ensures !AllServed(p, lines[..n + 1]) && lines[..n + 1][..n] == lines[..n]
    ensures lines[..n + 1] == lines[..n] + [lines[n]] && lines == lines[..n + 1] + lines[n + 1..]
  {
    hide Served;
    PrefixAsks(p, lines, n + 1, n);
  }

  lemma StopsAt(p: Setting, lines: seq<Bytes>, n: nat)
    requires EndsAt(p, lines, n)
    ensures HandleLines(p, lines[..n]).Going? && Tells(p, lines[..n], HandleLines(p, lines[..n]).session)
    ensures HandleLines(p, lines) ==
            if n == |lines| then HandleLines(p, lines[..n])
            else HandleLine(p, HandleLines(p, lines[..n]).session, lines[n])
    ensures n < |lines| ==> HandleLines(p, lines).Stopped?
  {
    hide Tells, Served, HandleLine, AllServed, HandleLines;
    GoingWhileServed(p, lines[..n]);
    if n < |lines| {
      NotAllServed(p, lines, n);
      HandleLinesPush(p, lines[..n], lines[n]);
      GoingWhileServed(p, lines[..n + 1]);
      HandleLinesAppend(p, lines[..n + 1], lines[n + 1..]);
    } else {
      assert lines[..n] == lines;
    }
  }

  // ----- Whole sessions

  /** Exit code 0 means that the input is one or more lines, nothing after the last, and every one
      of them served; and it comes whenever that is so. The host is then closed once, at the end. */
  lemma SucceedsExactlyWhen(p: Setting, bytes: Bytes)
    ensures var (events, exitCode) := Outcome(p, bytes);
            && exitCode in {0, 1}
            && (exitCode == 0 <==> Lines(bytes) != [] && Rest(bytes) == [] && AllServed(p, Lines(bytes)))
            && (exitCode == 0 ==> events != [] && events[|events| - 1] == HostClosed
                                  && Records(p, Lines(bytes), events[..|events| - 1]))
  {
    GoingWhileServed(p, Lines(bytes));
    hide AllServed, Records, HandleLines, Lines, Rest, Asked;
    var g := HandleLines(p, Lines(bytes));
    if g.Going? { assert (g.session.events + [HostClosed])[..|g.session.events|] == g.session.events; }
  }

  function Refusal(p: Setting, id: Option<string>): seq<Event>
  {
    if p.replySize(id, Reply(Refused, "maintenance-refused")) <= 65_536
    then [Replied(id, Reply(Refused, "maintenance-refused"))] else []
  }

  /** How a session ends that is not served to the end, when `n` lines were: with a refusal under
      the request's id, if that is known, and after the call, if it comes to one. A refusal by the
      host is the reply. */
  function Ending(p: Setting, lines: seq<Bytes>, n: nat): seq<Event>
    requires n <= |lines|
  {
    var close := if n > 0 then [HostClosed] else [];
    if n == |lines| || n >= 16 || Request(p, lines[n]).None? then Refusal(p, None) + close
    else
      var f, answer := Request(p, lines[n]).value, Answer(p, lines, n);
      if Retargets(p, lines, n) || !p.opens then Refusal(p, Some(f.requestId)) + close
      else
        (if n == 0 then [HostOpened] else []) + [HostCalled(Call(f.command, f.input))]
        + (if answer.Some? && answer.value.status == Refused && RepliesInTime(p, f.requestId, answer.value)
           then [Replied(Some(f.requestId), answer.value)] else Refusal(p, Some(f.requestId)))
        + [HostClosed]
  }

  lemma CallEnds(p: Setting, s: Session, f: Frame)
    requires s.hostOpen && CallHost(p, s, f).Stopped?
    ensures var answer := p.answer(s.calls + [CallFor(f)]);
            Conclude(p, CallHost(p, s, f)).0 ==
            s.events + [HostCalled(CallFor(f))]
            + (if answer.Some? && answer.value.status == Refused && RepliesInTime(p, f.requestId, answer.value)
               then [Replied(Some(f.requestId), answer.value)] else Refusal(p, Some(f.requestId)))
            + [HostClosed]
  {
  }

  lemma StoppedEnds(p: Setting, lines: seq<Bytes>, n: nat, s: Session)
    requires n < |lines| && Tells(p, lines[..n], s) && HandleLine(p, s, lines[n]).Stopped?
    ensures Conclude(p, HandleLine(p, s, lines[n])).0 == s.events + Ending(p, lines, n)
  {
    hide Records, CallHost, ParseFrame, Asked;
    var f := Request(p, lines[n]);
    assert lines[..n + 1][..n] == lines[..n];
    PreparedBefore(p, lines[..n + 1], n);
    if n < 16 && f.Some? {
      AskedPush(p, lines[..n + 1], n);
      var start := s.(frames := s.frames + 1, hostOpen := true,
                      events := if n == 0 then s.events + [HostOpened] else s.events);
      if !Retargets(p, lines, n) && p.opens { CallEnds(p, start, f.value); }
    }
  }

  /** What was served, and then the ending. */
  lemma FailsSo(p: Setting, bytes: Bytes, n: nat)
    requires Outcome(p, bytes).1 == 1 && EndsAt(p, Lines(bytes), n)
    ensures var lines, events := Lines(bytes), Outcome(p, bytes).0;
            |events| >= Span(n) && Records(p, lines[..n], events[..Span(n)])
            && events[Span(n)..] == Ending(p, lines, n)
  {
    hide HandleLine, AllServed, Served, Records, Lines, Rest, Ending, Span, Asked, HandleLines;
    var lines := Lines(bytes);
    StopsAt(p, lines, n);
    var s := HandleLines(p, lines[..n]).session;
    if n < |lines| {
      StoppedEnds(p, lines, n, s);
    } else {
      UnfinishedEnds(p, lines, s);
    }
    SpanOf(p, lines[..n], s.events);
    Apart(s.events, Ending(p, lines, n));
  }

  lemma UnfinishedEnds(p: Setting, lines: seq<Bytes>, s: Session)
    requires Tells(p, lines[..|lines|], s)
    ensures Conclude(p, Stopped(s, None, IncompleteFrame)).0 == s.events + Ending(p, lines, |lines|)
  {
    hide Records, Asked;
  }

  lemma SpanOf(p: Setting, lines: seq<Bytes>, events: seq<Event>)
    requires Records(p, lines, events)
    ensures |events| == Span(|lines|)
  {
  }

  lemma Apart<T>(a: seq<T>, b: seq<T>)
    ensures (a + b)[..|a|] == a && (a + b)[|a|..] == b
  {
  }

  /** What is served is what is spelled: a request is on a line exactly if the line decodes to its
      wire form, under a proper id. */
  lemma RequestIsSpelled(p: Setting, line: Bytes, f: Frame)
    ensures Request(p, line) == Some(f) <==>
            |line| <= 65_536 && p.decode(line) == Some(Wire(f))
            && 1 <= |f.requestId| <= 64 && forall c | c in f.requestId :: c in ID_ALPHABET
  {
    hide ParseFrame, ID_ALPHABET, Wire;
    FrameIsWireForm(p.decode(line), f);
  }
}
