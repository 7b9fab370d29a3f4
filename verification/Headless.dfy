/** src/headless.ts and src/headless-events.ts: what a headless run remembers of its events, when
    its idle timer runs, and how often a failed run is started again. */
module Headless {
  import opened Wrappers
  import opened Text

  /** `detail` of a UI request is its method and its title or message, as the tracker joins them. */
  datatype Event =
    | ToolStart(id: string, name: string)
    | ToolEnd(id: string)
    | UiRequest(detail: string)
    | Other

  // ----- Interactive tool calls

  predicate Opens(interactive: string -> bool, e: Event, id: string)
  {
    e.ToolStart? && e.id == id && id != "" && interactive(e.name)
  }

  function Outstanding(interactive: string -> bool, trace: seq<Event>): set<string>
  {
    if trace == [] then {}
    else
      AfterEvent(interactive, Outstanding(interactive, trace[..|trace| - 1]), trace[|trace| - 1])
  }

  function AfterEvent(interactive: string -> bool, open: set<string>, e: Event): set<string>
  {
    match e
    case ToolStart(id, name) => if id != "" && interactive(name) then open + {id} else open
    case ToolEnd(id) => open - {id}
    case _ => open
  }

  /** Outstanding calls are those that started and have not ended since. */
  lemma {:induction false} OutstandingMeaning(interactive: string -> bool, trace: seq<Event>, id: string)
    ensures id in Outstanding(interactive, trace) <==>
            exists i :: 0 <= i < |trace| && Opens(interactive, trace[i], id)
                        && forall j | i < j < |trace| :: trace[j] != ToolEnd(id)
  {
    if trace != [] {
      var n := |trace| - 1;
      OutstandingMeaning(interactive, trace[..n], id);
      assert forall i | 0 <= i < n :: trace[..n][i] == trace[i];
      if Opens(interactive, trace[n], id) {
        assert id in Outstanding(interactive, trace);
      } else if trace[n] == ToolEnd(id) {
        assert id !in Outstanding(interactive, trace);
      }
    }
  }

  function ToolStarts(trace: seq<Event>): nat
  {
    if trace == [] then 0
    else ToolStarts(trace[..|trace| - 1]) + if trace[|trace| - 1].ToolStart? then 1 else 0
  }

  // ----- The bounded window

  const WINDOW_SIZE := 20

  function Window(trace: seq<Event>): seq<Event>
  {
    if |trace| <= WINDOW_SIZE then trace else trace[|trace| - WINDOW_SIZE..]
  }

  function UiDetails(events: seq<Event>): seq<string>
  {
    if events == [] then []
    else
      var e := events[|events| - 1];
      UiDetails(events[..|events| - 1]) + if e.UiRequest? then [e.detail] else []
  }

  lemma {:induction false} UiDetailsJoin(a: seq<Event>, b: seq<Event>)
    ensures UiDetails(a + b) == UiDetails(a) + UiDetails(b)
  {
    if b == [] {
      assert a + b == a;
    } else {
      UiDetailsJoin(a, b[..|b| - 1]);
      assert (a + b)[..|a + b| - 1] == a + b[..|b| - 1];
    }
  }

  function Lower(c: char): char
  {
    if 'A' <= c <= 'Z' then ((c as int) + 32) as char else c
  }

  predicate WordChar(c: char)
  {
    'a' <= c <= 'z' || 'A' <= c <= 'Z' || '0' <= c <= '9' || c == '_'
  }

  const CANCELLED_WORD := "cancelled"

  /** `/\bcancelled\b/i` */
  predicate SaysCancelled(detail: string)
  {
    exists i :: 0 <= i <= |detail| - |CANCELLED_WORD| && SaysCancelledAt(detail, i)
  }

  predicate SaysCancelledAt(detail: string, i: nat)
    requires i + |CANCELLED_WORD| <= |detail|
  {
    (forall k | 0 <= k < |CANCELLED_WORD| :: Lower(detail[i + k]) == CANCELLED_WORD[k])
    && (i == 0 || !WordChar(detail[i - 1]))
    && (i + |CANCELLED_WORD| == |detail| || !WordChar(detail[i + |CANCELLED_WORD|]))
  }

  /** The last three UI events are a selection, an input, and a notice of cancellation. */
  predicate NoWorkTail(events: seq<Event>)
  {
    var ui := UiDetails(events);
    var n := |ui|;
    n >= 3 && "select:" <= ui[n - 3] && "input:" <= ui[n - 2] && "notify:" <= ui[n - 1] && SaysCancelled(ui[n - 1])
  }

  // ----- What such a tail is, event by event

  predicate LastUiAt(trace: seq<Event>, k: int)
  {
    0 <= k < |trace| && trace[k].UiRequest? && forall j | k < j < |trace| :: !trace[j].UiRequest?
  }

  predicate StartsWith(s: string, prefix: string)
  {
    |prefix| <= |s| && forall k | 0 <= k < |prefix| :: s[k] == prefix[k]
  }

  const WORD_CHARACTERS := CAPITALS + LETTERS + DIGITS + "_"

  /** The word, in whatever case, stands at place `i` as a word of its own. */
  ghost predicate WordAt(s: string, i: int)
  {
    0 <= i <= |s| - 9
    && (forall k | 0 <= k < 9 :: s[i + k] == "cancelled"[k] || s[i + k] == "CANCELLED"[k])
    && (i > 0 ==> s[i - 1] !in WORD_CHARACTERS) && (i + 9 < |s| ==> s[i + 9] !in WORD_CHARACTERS)
  }

  /** The last three UI requests are events `i`, `j` and `k`. */
  predicate LastThreeAt(trace: seq<Event>, i: int, j: int, k: int)
  {
    LastUiAt(trace, k) && LastUiAt(trace[..k], j) && LastUiAt(trace[..j], i)
  }

  ghost predicate CancelledChoice(first: string, second: string, third: string)
  {
    StartsWith(first, "select:") && StartsWith(second, "input:") && StartsWith(third, "notify:")
    && exists n :: WordAt(third, n)
  }

  /** They are a selection, an input, and a notice that says "cancelled". */
  ghost predicate GivesUp(trace: seq<Event>, i: int, j: int, k: int)
  {
    LastThreeAt(trace, i, j, k) && CancelledChoice(trace[i].detail, trace[j].detail, trace[k].detail)
  }

  lemma WordCharacters(c: char)
    ensures WordChar(c) <==> c in WORD_CHARACTERS
  {
    CapitalsAreARange(c);
    LettersAreARange(c);
    DigitsAreARange(c);
    hide CAPITALS, LETTERS, DIGITS;
  }

  lemma LowerIs(c: char, k: nat)
    requires k < 9
    ensures Lower(c) == "cancelled"[k] <==> c == "cancelled"[k] || c == "CANCELLED"[k]
  {
  }

  lemma WordIsFound(s: string)
    ensures SaysCancelled(s) <==> exists n :: WordAt(s, n)
  {
    hide Lower, WORD_CHARACTERS, WordChar;
    forall c ensures WordChar(c) <==> c in WORD_CHARACTERS { WordCharacters(c); }
    forall i | 0 <= i <= |s| - 9 ensures SaysCancelledAt(s, i) <==> WordAt(s, i) {
      forall k | 0 <= k < 9
        ensures Lower(s[i + k]) == "cancelled"[k] <==> s[i + k] == "cancelled"[k] || s[i + k] == "CANCELLED"[k]
      {
        LowerIs(s[i + k], k);
      }
    }
    hide SaysCancelledAt;
  }

  lemma {:induction false} LastUi(trace: seq<Event>, k: int)
    requires LastUiAt(trace, k)
    ensures UiDetails(trace) == UiDetails(trace[..k]) + [trace[k].detail]
  {
    var n := |trace| - 1;
    if k < n {
      LastUi(trace[..n], k);
      assert trace[..n][..k] == trace[..k];
    }
  }

  lemma {:induction false} SomeUi(trace: seq<Event>) returns (k: int)
    requires UiDetails(trace) != []
    ensures LastUiAt(trace, k)
  {
    var n := |trace| - 1;
    if trace[n].UiRequest? {
      k := n;
    } else {
      k := SomeUi(trace[..n]);
      assert forall j | 0 <= j < n :: trace[..n][j] == trace[j];
    }
  }

  lemma TailIsGivingUp(trace: seq<Event>)
    ensures NoWorkTail(trace) <==> exists i, j, k :: GivesUp(trace, i, j, k)
  {
    hide SaysCancelled, WordAt, UiDetails;
    if NoWorkTail(trace) {
      var k, j, i := LastThree(trace);
      WordIsFound(trace[k].detail);
      assert GivesUp(trace, i, j, k);
    }
    if i, j, k :| GivesUp(trace, i, j, k) { GivingUpIsTail(trace, i, j, k); }
  }

  lemma LastThree(trace: seq<Event>) returns (k: int, j: int, i: int)
    requires |UiDetails(trace)| >= 3
    ensures LastUiAt(trace, k) && LastUiAt(trace[..k], j) && LastUiAt(trace[..j], i)
    ensures var ui := UiDetails(trace);
            ui[|ui| - 1] == trace[k].detail && ui[|ui| - 2] == trace[j].detail && ui[|ui| - 3] == trace[i].detail
  {
    hide UiDetails;
    k := SomeUi(trace);
    LastUi(trace, k);
    j := SomeUi(trace[..k]);
    LastUi(trace[..k], j);
    assert trace[..k][..j] == trace[..j];
    i := SomeUi(trace[..j]);
    LastUi(trace[..j], i);
  }

  lemma GivingUpIsTail(trace: seq<Event>, i: int, j: int, k: int)
    requires GivesUp(trace, i, j, k)
    ensures NoWorkTail(trace)
  {
    hide SaysCancelled, WordAt, UiDetails;
    LastUi(trace, k);
    LastUi(trace[..k], j);
    assert trace[..k][..j] == trace[..j];
    LastUi(trace[..j], i);
    WordIsFound(trace[k].detail);
  }

  lemma LastUiShifts(older: seq<Event>, recent: seq<Event>, k: int)
    requires k >= 0
    ensures LastUiAt(older + recent, |older| + k) <==> LastUiAt(recent, k)
    ensures k <= |recent| ==> (older + recent)[..|older| + k] == older + recent[..k]
  {
    var all := older + recent;
    assert forall j | 0 <= j < |recent| :: all[|older| + j] == recent[j];
    if LastUiAt(all, |older| + k) {
      forall j | k < j < |recent| ensures !recent[j].UiRequest? { assert all[|older| + j] == recent[j]; }
    }
  }

  lemma LastThreeInside(trace: seq<Event>, i: int, j: int, k: int)
    requires LastThreeAt(trace, i, j, k)
    ensures 0 <= i < j < k < |trace|
  {
  }

  lemma LastThreeShift(older: seq<Event>, recent: seq<Event>, i: int, j: int, k: int)
    requires i >= 0 && j >= 0 && k >= 0
    ensures var n := |older|; LastThreeAt(older + recent, n + i, n + j, n + k) <==> LastThreeAt(recent, i, j, k)
  {
    LastUiShifts(older, recent, k);
    LastUiShifts(older, recent, j);
    if k <= |recent| { LastUiShifts(older, recent[..k], j); }
    if j <= |recent| { LastUiShifts(older, recent[..j], i); }
    assert LastUiAt(recent, k) ==> k <= |recent|;
    assert LastUiAt(recent, k) && LastUiAt(recent[..k], j) ==> j <= |recent|;
    hide LastUiAt;
  }

  lemma GivingUpShifts(older: seq<Event>, recent: seq<Event>, i: int, j: int, k: int)
    requires i >= 0 && j >= 0 && k >= 0
    ensures var n := |older|; GivesUp(older + recent, n + i, n + j, n + k) <==> GivesUp(recent, i, j, k)
  {
    LastThreeShift(older, recent, i, j, k);
    if LastThreeAt(recent, i, j, k) { LastThreeInside(recent, i, j, k); }
    hide CancelledChoice;
  }

  /** The window shows it exactly if all three are among the last twenty events. */
  lemma WindowShowsGivingUp(trace: seq<Event>)
    ensures NoWorkTail(Window(trace)) <==> exists i, j, k :: GivesUp(trace, i, j, k) && |trace| - i <= 20
  {
    hide NoWorkTail, GivesUp;
    var n := |trace| - |Window(trace)|;
    TailIsGivingUp(Window(trace));
    assert trace == trace[..n] + Window(trace);
    if i, j, k :| GivesUp(Window(trace), i, j, k) {
      GivingUpInside(Window(trace), i, j, k);
      GivingUpShifts(trace[..n], Window(trace), i, j, k);
      assert GivesUp(trace, n + i, n + j, n + k);
    }
    if i, j, k :| GivesUp(trace, i, j, k) && |trace| - i <= 20 {
      GivingUpInside(trace, i, j, k);
      GivingUpShifts(trace[..n], Window(trace), i - n, j - n, k - n);
    }
  }

  lemma GivingUpInside(trace: seq<Event>, i: int, j: int, k: int)
    requires GivesUp(trace, i, j, k)
    ensures 0 <= i < j < k < |trace|
  {
    LastThreeInside(trace, i, j, k);
  }

  // ----- One run

  /** `idleEnabled` says that effectiveIdleTimeout is positive. */
  class Monitor {
    const interactive: string -> bool
    const isQuickCmd: bool
    var idleEnabled: bool
    var totalEvents: nat
    var toolCallCount: nat
    var recentEvents: seq<Event>
    var interactiveToolCallIds: set<string>
    var idleTimerArmed: bool
    var completed: bool
    ghost var trace: seq<Event>

    /** The fields are functions of the whole trace, and the timer runs only while nobody is asked
        and there is something to wait for. */
    ghost predicate Valid()
      reads this
    {
      && totalEvents == |trace|
      && toolCallCount == ToolStarts(trace)
      && recentEvents == Window(trace)
      && interactiveToolCallIds == Outstanding(interactive, trace)
      && (idleTimerArmed ==> MayIdle())
    }

    ghost predicate MayIdle()
      reads this
    {
      idleEnabled && Outstanding(interactive, trace) == {} && (ToolStarts(trace) > 0 || isQuickCmd)
    }

    constructor (interactive: string -> bool, isQuickCmd: bool, idleEnabled: bool)
      ensures Valid() && trace == [] && !idleTimerArmed && !completed
      ensures this.interactive == interactive && this.isQuickCmd == isQuickCmd && this.idleEnabled == idleEnabled
    {
      this.interactive, this.isQuickCmd, this.idleEnabled := interactive, isQuickCmd, idleEnabled;
      totalEvents, toolCallCount, recentEvents, interactiveToolCallIds := 0, 0, [], {};
      idleTimerArmed, completed, trace := false, false, [];
    }

    method TrackEvent(e: Event)
      modifies this`totalEvents, this`toolCallCount, this`recentEvents
      ensures totalEvents == old(totalEvents) + 1
      ensures toolCallCount == old(toolCallCount) + if e.ToolStart? then 1 else 0
      ensures recentEvents == var all := old(recentEvents) + [e]; if |all| > WINDOW_SIZE then all[1..] else all
    {
      totalEvents := totalEvents + 1;
      if e.ToolStart? { toolCallCount := toolCallCount + 1; }
      recentEvents := recentEvents + [e];
      if |recentEvents| > WINDOW_SIZE { recentEvents := recentEvents[1..]; }
    }

    /** A tool call without an id is not tracked. */
    method TrackToolCall(e: Event)
      requires "" !in interactiveToolCallIds
      modifies this`interactiveToolCallIds
      ensures interactiveToolCallIds == AfterEvent(interactive, old(interactiveToolCallIds), e)
    {
      match e {
        case ToolStart(id, name) =>
          if id != "" && interactive(name) { interactiveToolCallIds := interactiveToolCallIds + {id}; }
        case ToolEnd(id) =>
          if id != "" { interactiveToolCallIds := interactiveToolCallIds - {id}; }
        case _ =>
      }
    }

    method ResetIdleTimer()
      modifies this`idleTimerArmed
      ensures idleTimerArmed == (idleEnabled && interactiveToolCallIds == {} && (toolCallCount > 0 || isQuickCmd))
    {
      idleTimerArmed := false;
      assert |interactiveToolCallIds| > 0 <==> interactiveToolCallIds != {};
      if idleEnabled && ShouldArm(toolCallCount, |interactiveToolCallIds|, isQuickCmd) { idleTimerArmed := true; }
    }

    /** Every event leaves the timer running exactly when the run may idle. */
    method OnEvent(e: Event)
      requires Valid()
      modifies this`totalEvents, this`toolCallCount, this`recentEvents, this`interactiveToolCallIds,
               this`idleTimerArmed, this`trace
      ensures Valid() && trace == old(trace) + [e]
      ensures idleTimerArmed <==> MayIdle()
    {
      hide Window, AfterEvent, Outstanding, ToolStarts;
      OneMoreEvent(interactive, trace, e);
      OutstandingHasNames(interactive, trace);
      TrackEvent(e);
      TrackToolCall(e);
      trace := trace + [e];
      ResetIdleTimer();
    }

    /** Only a running timer fires, so a run never ends by idleness while a question is open. */
    method IdleFires()
      requires Valid() && idleTimerArmed
      modifies this`idleTimerArmed, this`completed
      ensures Valid() && completed && !idleTimerArmed
      ensures old(MayIdle())
    {
      idleTimerArmed := false;
      completed := true;
    }

    /** A new milestone that goes on into auto-mode idles no more. */
    method ChainIntoAuto()
      requires Valid()
      modifies this`idleEnabled, this`idleTimerArmed, this`completed
      ensures Valid() && !idleEnabled && !idleTimerArmed && !completed
    {
      completed := false;
      idleEnabled := false;
      ResetIdleTimer();
    }

    /** What the run hands to the restart loop. */
    method Summary(exitCode: int, interrupted: bool) returns (summary: RunSummary)
      requires Valid()
      ensures summary == SummaryOf(Record(trace, exitCode, interrupted))
    {
      summary := RunSummary(exitCode, interrupted, totalEvents, toolCallCount, recentEvents);
    }
  }

  lemma OneMoreEvent(interactive: string -> bool, trace: seq<Event>, e: Event)
    ensures ToolStarts(trace + [e]) == ToolStarts(trace) + if e.ToolStart? then 1 else 0
    ensures Window(trace + [e]) == var all := Window(trace) + [e]; if |all| > WINDOW_SIZE then all[1..] else all
    ensures Outstanding(interactive, trace + [e]) == AfterEvent(interactive, Outstanding(interactive, trace), e)
  {
    assert (trace + [e])[..|trace|] == trace;
  }

  lemma {:induction false} OutstandingHasNames(interactive: string -> bool, trace: seq<Event>)
    ensures "" !in Outstanding(interactive, trace)
  {
    if trace != [] { OutstandingHasNames(interactive, trace[..|trace| - 1]); }
  }

  predicate ShouldArm(toolCallCount: nat, interactiveToolCount: nat, isQuickCommand: bool)
  {
    if interactiveToolCount > 0 then false else toolCallCount > 0 || isQuickCommand
  }

  // ----- The restart loop

  const EXIT_SUCCESS := 0
  const EXIT_ERROR := 1
  const EXIT_BLOCKED := 10

  datatype RunSummary = RunSummary(exitCode: int, interrupted: bool, totalEvents: nat, toolCallCount: nat,
                                   recentEvents: seq<Event>)

  /** A run as it happened: every event, and how it ended. */
  datatype Record = Record(trace: seq<Event>, exitCode: int, interrupted: bool)

  function SummaryOf(run: Record): RunSummary
  {
    RunSummary(run.exitCode, run.interrupted, |run.trace|, ToolStarts(run.trace), Window(run.trace))
  }

  predicate ShouldRestart(summary: RunSummary)
  {
    if summary.interrupted then false
    else if summary.exitCode != EXIT_ERROR then false
    else if NoWorkTail(summary.recentEvents) then false
    else if summary.totalEvents == 0 then true
    else summary.toolCallCount > 0 && summary.totalEvents > 5
  }

  /** A failure that looks like a crash: nothing happened at all, or work had begun, and its last
      events are no giving up. */
  ghost predicate LooksLikeACrash(run: Record)
  {
    run.exitCode == 1 && !run.interrupted
    && (run.trace == [] || (|run.trace| > 5 && exists i :: 0 <= i < |run.trace| && run.trace[i].ToolStart?))
    && !exists i, j, k :: GivesUp(run.trace, i, j, k) && |run.trace| - i <= 20
  }

  lemma {:induction false} SomeToolStarted(trace: seq<Event>)
    ensures ToolStarts(trace) > 0 <==> exists i :: 0 <= i < |trace| && trace[i].ToolStart?
  {
    if trace != [] {
      var n := |trace| - 1;
      SomeToolStarted(trace[..n]);
      assert forall i | 0 <= i < n :: trace[..n][i] == trace[i];
    }
  }

  lemma RestartsAfterCrashes(run: Record)
    ensures ShouldRestart(SummaryOf(run)) <==> LooksLikeACrash(run)
  {
    hide NoWorkTail, GivesUp;
    SomeToolStarted(run.trace);
    WindowShowsGivingUp(run.trace);
  }

  /** `runs(i)` is what happens if a run is started for the i-th time. All runs but the last look
      like crashes and the command is not a quick task; the last one does not, or was the last
      allowed. The process exits with the code of the last run. */
  method RunHeadless(isQuickTask: bool, maxRestartsOption: Option<int>, runs: nat -> Record)
    returns (exitCode: int, attempts: nat)
    ensures 1 <= attempts && exitCode == runs(attempts - 1).exitCode
    ensures var maxRestarts := if maxRestartsOption.Some? then maxRestartsOption.value else 3;
            && attempts <= (if maxRestarts > 0 then maxRestarts else 0) + 1
            && (attempts > 1 ==> !isQuickTask)
            && (forall i: nat | i < attempts - 1 :: LooksLikeACrash(runs(i)))
            && (isQuickTask || !LooksLikeACrash(runs(attempts - 1)) || attempts - 1 >= maxRestarts)
  {
    hide LooksLikeACrash, ShouldRestart;
    var maxRestarts := if maxRestartsOption.Some? then maxRestartsOption.value else 3;
    var restartCount: nat := 0;
    while true
      invariant restartCount <= if maxRestarts > 0 then maxRestarts else 0
      invariant restartCount > 0 ==> !isQuickTask
      invariant forall i: nat | i < restartCount :: LooksLikeACrash(runs(i))
      decreases maxRestarts - restartCount
    {
      var result := SummaryOf(runs(restartCount));
      RestartsAfterCrashes(runs(restartCount));
      NoCrash(runs(restartCount));
      if result.exitCode == EXIT_SUCCESS || result.exitCode == EXIT_BLOCKED {
        return result.exitCode, restartCount + 1;
      }
      if isQuickTask { return result.exitCode, restartCount + 1; }
      if result.interrupted { return result.exitCode, restartCount + 1; }
      if !ShouldRestart(result) { return result.exitCode, restartCount + 1; }
      if restartCount >= maxRestarts { return result.exitCode, restartCount + 1; }
      restartCount := restartCount + 1;
    }
  }

  lemma NoCrash(run: Record)
    ensures run.exitCode == EXIT_SUCCESS || run.exitCode == EXIT_BLOCKED || run.interrupted ==> !LooksLikeACrash(run)
  {
  }
}
