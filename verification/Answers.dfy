/** src/headless-answers.ts: answers prepared in a file are given to select requests. A request
    may come before the metadata that says which question it asks; it is then deferred, and a
    timer answers it by default unless the metadata arrives first. */
module Answers {
  import opened Wrappers

  type RequestId(==, !new)

  datatype Answer = One(value: string) | Many(values: seq<string>)

  datatype Entry = Entry(key: string, answer: Answer)

  datatype Strategy = FirstOption | CancelRequest

  /** `normalize` is normalizeQuestionId: case, blanks and dashes, and a final `_confirm`. */
  datatype AnswerFile = AnswerFile(questions: seq<Entry>, strategy: Strategy, normalize: string -> string)

  datatype Meta = Meta(id: string, allowMultiple: bool)

  /** The serial tells requests apart that agree in everything they carry. */
  datatype Request = Request(serial: nat, id: RequestId, title: string, options: Option<seq<string>>)
  {
    predicate Offers(value: string) { options.Some? && value in options.value }
  }

  datatype Body = Chosen(value: string) | ChosenMany(values: seq<string>) | Cancelled

  datatype Reply = Reply(request: Request, body: Body, configured: bool)

  // ----- Which configured answer belongs to a question

  predicate SameQuestion(file: AnswerFile, key: string, id: string)
  {
    file.normalize(key) == file.normalize(id)
  }

  predicate RelatedQuestion(file: AnswerFile, key: string, id: string)
  {
    file.normalize(key) + "_" <= file.normalize(id) || file.normalize(id) + "_" <= file.normalize(key)
  }

  /** The index of the first key that fits, or the number of keys. */
  function FirstKey(entries: seq<Entry>, fits: string -> bool): (k: nat)
    ensures k <= |entries| && forall i | 0 <= i < k :: !fits(entries[i].key)
    ensures k < |entries| ==> fits(entries[k].key)
  {
    if entries == [] || fits(entries[0].key) then 0 else 1 + FirstKey(entries[1..], fits)
  }

  function Match(file: AnswerFile, id: string): (r: Option<Entry>)
  {
    var same := FirstKey(file.questions, key => SameQuestion(file, key, id));
    var related := FirstKey(file.questions, key => RelatedQuestion(file, key, id));
    if same < |file.questions| then Some(file.questions[same])
    else if related < |file.questions| then Some(file.questions[related])
    else None
  }

  /** The same question wins over a related one wherever the two stand; among equals the first
      wins; and only an answer file with neither yields nothing. */
  lemma MatchPrecedence(file: AnswerFile, id: string)
    ensures Match(file, id).None? <==>
            forall e | e in file.questions :: !SameQuestion(file, e.key, id) && !RelatedQuestion(file, e.key, id)
    ensures (exists e | e in file.questions :: SameQuestion(file, e.key, id)) <==>
            Match(file, id).Some? && SameQuestion(file, Match(file, id).value.key, id)
    ensures forall i | 0 <= i < |file.questions| && Match(file, id) == Some(file.questions[i]) ::
              exists first :: 0 <= first <= i && file.questions[first] == file.questions[i]
                && forall j | 0 <= j < first ::
                    !SameQuestion(file, file.questions[j].key, id)
                    && (RelatedQuestion(file, file.questions[j].key, id) ==>
                          SameQuestion(file, file.questions[first].key, id))
  {
    var same := FirstKey(file.questions, key => SameQuestion(file, key, id));
    var related := FirstKey(file.questions, key => RelatedQuestion(file, key, id));
    var first := if same < |file.questions| then same else related;
    forall i | 0 <= i < |file.questions| && Match(file, id) == Some(file.questions[i])
      ensures first <= i
    {
    }
    assert first < |file.questions| ==> file.questions[first] in file.questions;
  }

  method FindConfiguredQuestionAnswer(file: AnswerFile, id: string) returns (r: Option<Entry>)
    ensures r == Match(file, id)
  {
    var n := |file.questions|;
    for i := 0 to n
      invariant forall j | 0 <= j < i :: !SameQuestion(file, file.questions[j].key, id)
    {
      if SameQuestion(file, file.questions[i].key, id) { return Some(file.questions[i]); }
    }
    for i := 0 to n
      invariant forall j | 0 <= j < i :: !RelatedQuestion(file, file.questions[j].key, id)
    {
      if RelatedQuestion(file, file.questions[i].key, id) { return Some(file.questions[i]); }
    }
    return None;
  }

  /** The reply a configured answer allows: only options the request itself offers. */
  function Accepted(file: AnswerFile, meta: Meta, q: Request): (r: Option<Body>)
    ensures r.Some? ==> !r.value.Cancelled? && Match(file, meta.id).Some?
    ensures r.Some? && r.value.Chosen? ==> q.Offers(r.value.value)
    ensures r.Some? && r.value.ChosenMany? ==> forall v | v in r.value.values :: q.Offers(v)
  {
    var found := Match(file, meta.id);
    if found.None? then None
    else
      var answer := found.value.answer;
      if meta.allowMultiple then
        var values := if answer.Many? then answer.values else [answer.value];
        if forall v | v in values :: q.Offers(v) then Some(ChosenMany(values)) else None
      else if answer.One? then
        if q.Offers(answer.value) then Some(Chosen(answer.value)) else None
      else if answer.values != [] && q.Offers(answer.values[0]) then Some(Chosen(answer.values[0]))
      else None
  }

  // ----- The injector

  /** `deferred` keeps the Map's order. A live timer is named by the request it was set for.
      The last three fields are a record of what happened to requests. */
  datatype Injector = Injector(
    meta: map<string, Meta>,
    deferred: seq<Request>,
    timers: set<Request>,
    answered: nat,
    defaulted: nat,
    replies: seq<Reply>,
    offered: seq<Request>,
    handedBack: set<Request>,
    dropped: set<Request>)

  const FRESH := Injector(map[], [], {}, 0, 0, [], [], {}, {})

  datatype Question = Question(title: string, meta: Meta)

  datatype Input =
    | Select(id: RequestId, title: string, options: Option<seq<string>>)
    | Metadata(questions: seq<Question>)
    | TimerFires(request: Request)

  /** `Map.set`: an existing title keeps its place. */
  function Put(deferred: seq<Request>, q: Request): seq<Request>
  {
    if deferred == [] then [q]
    else if deferred[0].title == q.title then [q] + deferred[1..]
    else [deferred[0]] + Put(deferred[1..], q)
  }

  /** `Map.delete` */
  function Without(deferred: seq<Request>, title: string): (r: seq<Request>)
    ensures forall q :: q in r <==> q in deferred && q.title != title
  {
    if deferred == [] then []
    else if deferred[0].title == title then Without(deferred[1..], title)
    else [deferred[0]] + Without(deferred[1..], title)
  }

  /** The second result is false when the request is left to the caller. */
  function ProcessWithMeta(file: AnswerFile, s: Injector, q: Request): (Injector, bool)
    requires q.title in s.meta
  {
    var body := Accepted(file, s.meta[q.title], q);
    if body.Some? then
      (s.(replies := s.replies + [Reply(q, body.value, true)], answered := s.answered + 1), true)
    else if file.strategy == CancelRequest then
      (s.(replies := s.replies + [Reply(q, Cancelled, false)], defaulted := s.defaulted + 1), true)
    else
      (s.(defaulted := s.defaulted + 1), false)
  }

  function TryHandle(file: AnswerFile, s: Injector, q: Request): (Injector, bool)
  {
    var s := s.(offered := s.offered + [q]);
    if q.title in s.meta then
      var (after, handled) := ProcessWithMeta(file, s, q);
      (if handled then after else after.(handedBack := after.handedBack + {q}), handled)
    else
      (s.(timers := s.timers + {q}, deferred := Put(s.deferred, q)), true)
  }

  function Learn(meta: map<string, Meta>, questions: seq<Question>): map<string, Meta>
  {
    if questions == [] then meta
    else
      var last := questions[|questions| - 1];
      Learn(meta, questions[..|questions| - 1])[last.title := last.meta]
  }

  /** A deferred request whose metadata has come; the caller ignores whether it was handled. */
  function Undefer(file: AnswerFile, s: Injector, q: Request): Injector
    requires q.title in s.meta
  {
    var s := s.(timers := s.timers - {q}, deferred := Without(s.deferred, q.title));
    var (after, handled) := ProcessWithMeta(file, s, q);
    if handled then after else after.(dropped := after.dropped + {q})
  }

  function UndeferAll(file: AnswerFile, s: Injector, todo: seq<Request>): (r: Injector)
    ensures r.meta == s.meta
  {
    if todo == [] then s
    else
      var r, q := UndeferAll(file, s, todo[..|todo| - 1]), todo[|todo| - 1];
      if q.title in r.meta then Undefer(file, r, q) else r
  }

  function ObserveEvent(file: AnswerFile, s: Injector, questions: seq<Question>): Injector
  {
    var s := s.(meta := Learn(s.meta, questions));
    UndeferAll(file, s, s.deferred)
  }

  /** What a timer answers: under `first_option` the first option, or nothing at all. */
  function DefaultBody(file: AnswerFile, q: Request): Body
  {
    if file.strategy == CancelRequest then Cancelled
    else Chosen(if q.options.Some? && q.options.value != [] then q.options.value[0] else "")
  }

  /** The timer deletes whatever is deferred under its title, its own request or a newer one. */
  function Fire(file: AnswerFile, s: Injector, q: Request): Injector
  {
    s.(timers := s.timers - {q}, deferred := Without(s.deferred, q.title), defaulted := s.defaulted + 1,
       replies := s.replies + [Reply(q, DefaultBody(file, q), false)])
  }

  function Step(file: AnswerFile, s: Injector, input: Input): Injector
  {
    match input
    case Select(id, title, options) => TryHandle(file, s, Request(|s.offered|, id, title, options)).0
    case Metadata(questions) => ObserveEvent(file, s, questions)
    case TimerFires(q) => if q in s.timers then Fire(file, s, q) else s
  }

  function Run(file: AnswerFile, inputs: seq<Input>): Injector
  {
    if inputs == [] then FRESH
    else Step(file, Run(file, inputs[..|inputs| - 1]), inputs[|inputs| - 1])
  }

  // ----- What every run keeps

  function RepliesTo(replies: seq<Reply>, q: Request): nat
  {
    if replies == [] then 0
    else RepliesTo(replies[..|replies| - 1], q) + if replies[|replies| - 1].request == q then 1 else 0
  }

  function Configured(replies: seq<Reply>): nat
  {
    if replies == [] then 0
    else Configured(replies[..|replies| - 1]) + if replies[|replies| - 1].configured then 1 else 0
  }

  lemma OneMoreReply(replies: seq<Reply>, r: Reply)
    ensures Configured(replies + [r]) == Configured(replies) + if r.configured then 1 else 0
    ensures forall q :: RepliesTo(replies + [r], q) == RepliesTo(replies, q) + if r.request == q then 1 else 0
  {
    assert (replies + [r])[..|replies|] == replies;
  }

  function Unit(b: bool): nat { if b then 1 else 0 }

  /** In how many places a request is, a reply counting as one. */
  function Places(s: Injector, q: Request): nat
  {
    Unit(q in s.timers) + Unit(q in s.handedBack) + Unit(q in s.dropped) + RepliesTo(s.replies, q)
  }

  ghost predicate Numbered(offered: seq<Request>)
  {
    forall i | 0 <= i < |offered| :: offered[i].serial == i
  }

  /** Every request offered is in exactly one place, and the statistics count them all. */
  ghost predicate Accounted(s: Injector)
  {
    && (forall q :: Places(s, q) == Unit(q in s.offered))
    && s.answered == Configured(s.replies)
    && s.defaulted == |s.replies| - Configured(s.replies) + |s.handedBack| + |s.dropped|
    && s.answered + s.defaulted + |s.timers| == |s.offered|
  }

  /** What is deferred waits for metadata under a live timer of its own. */
  ghost predicate Waiting(s: Injector)
  {
    && (forall q | q in s.deferred :: q in s.timers)
    && DistinctTitles(s.deferred)
  }

  ghost predicate DistinctTitles(deferred: seq<Request>)
  {
    forall i, j | 0 <= i < j < |deferred| :: deferred[i].title != deferred[j].title
  }

  ghost predicate NoneDue(s: Injector)
  {
    forall q | q in s.deferred :: q.title !in s.meta
  }

  predicate Replying(s: Injector, t: Injector, r: Reply)
  {
    t.replies == s.replies + [r] && t.handedBack == s.handedBack && t.dropped == s.dropped
    && t.answered == s.answered + Unit(r.configured) && t.defaulted == s.defaulted + Unit(!r.configured)
  }

  /** A live request gets its reply. */
  lemma AccountReply(s: Injector, t: Injector, r: Reply)
    requires Accounted(s) && r.request in s.timers && t.timers == s.timers - {r.request} && t.offered == s.offered
    requires Replying(s, t, r)
    ensures Accounted(t)
  {
    OneMoreReply(s.replies, r);
    forall q ensures Places(t, q) == Places(s, q) {
      assert Places(s, q) == Unit(q in s.offered);
    }
  }

  /** A live request is given up, or left to the caller. */
  lemma AccountNoReply(s: Injector, t: Injector, q: Request)
    requires Accounted(s) && q in s.timers && t.timers == s.timers - {q} && t.offered == s.offered
    requires t.replies == s.replies && t.answered == s.answered && t.defaulted == s.defaulted + 1
    requires || (t.handedBack == s.handedBack && t.dropped == s.dropped + {q})
             || (t.dropped == s.dropped && t.handedBack == s.handedBack + {q})
    ensures Accounted(t)
  {
    assert Places(s, q) == Unit(q in s.offered);
    forall p ensures Places(t, p) == Places(s, p) {
      assert Places(s, p) == Unit(p in s.offered);
    }
  }

  lemma AccountOffer(s: Injector, t: Injector, q: Request)
    requires Accounted(s) && q !in s.offered
    requires t.offered == s.offered + [q] && t.timers == s.timers + {q}
    requires t.replies == s.replies && t.handedBack == s.handedBack && t.dropped == s.dropped
    requires t.answered == s.answered && t.defaulted == s.defaulted
    ensures Accounted(t)
  {
    assert Places(s, q) == 0;
    forall p
      ensures Places(t, p) == Places(s, p) + Unit(p == q)
      ensures Unit(p in t.offered) == Unit(p in s.offered) + Unit(p == q)
    {
      assert Places(s, p) == Unit(p in s.offered);
    }
  }

  lemma TitleInFront(q: Request, rest: seq<Request>)
    requires DistinctTitles(rest) && forall p | p in rest :: p.title != q.title
    ensures DistinctTitles([q] + rest)
  {
  }

  lemma {:induction false} PutKeepsWaiting(deferred: seq<Request>, q: Request)
    requires DistinctTitles(deferred)
    ensures DistinctTitles(Put(deferred, q))
    ensures forall p :: p in Put(deferred, q) <==> p == q || (p in deferred && p.title != q.title)
  {
    if deferred == [] {
    } else if deferred[0].title == q.title {
      TitleInFront(q, deferred[1..]);
    } else {
      PutKeepsWaiting(deferred[1..], q);
      TitleInFront(deferred[0], Put(deferred[1..], q));
    }
  }

  lemma {:induction false} WithoutKeepsWaiting(deferred: seq<Request>, title: string)
    requires DistinctTitles(deferred)
    ensures DistinctTitles(Without(deferred, title))
  {
    if deferred != [] {
      WithoutKeepsWaiting(deferred[1..], title);
      if deferred[0].title != title { TitleInFront(deferred[0], Without(deferred[1..], title)); }
    }
  }

  // ----- Each step keeps them

  ghost predicate Sound(s: Injector)
  {
    Numbered(s.offered) && Accounted(s) && Waiting(s) && NoneDue(s)
  }

  /** Processing replies to the request, or leaves it and counts it as defaulted. */
  lemma Processed(file: AnswerFile, s: Injector, q: Request) returns (r: Reply)
    requires q.title in s.meta
    ensures var (t, handled) := ProcessWithMeta(file, s, q);
            t.meta == s.meta && t.deferred == s.deferred && t.timers == s.timers && t.offered == s.offered
            && if handled then Replying(s, t, r) && r.request == q
               else t == s.(defaulted := s.defaulted + 1)
  {
    var (t, handled) := ProcessWithMeta(file, s, q);
    r := if handled then t.replies[|t.replies| - 1] else Reply(q, Cancelled, false);
  }

  /** So a live request that is processed and then recorded is accounted for. */
  lemma ProcessAccounts(file: AnswerFile, live: Injector, s: Injector, q: Request)
    requires Accounted(live) && q in live.timers && q.title in s.meta
    requires s == live.(timers := live.timers - {q}, deferred := s.deferred, meta := s.meta)
    ensures var (t, handled) := ProcessWithMeta(file, s, q);
            if handled then Accounted(t)
            else Accounted(t.(dropped := t.dropped + {q})) && Accounted(t.(handedBack := t.handedBack + {q}))
  {
    var (t, handled) := ProcessWithMeta(file, s, q);
    var r := Processed(file, s, q);
    if handled {
      AccountReply(live, t, r);
    } else {
      AccountNoReply(live, t.(dropped := t.dropped + {q}), q);
      AccountNoReply(live, t.(handedBack := t.handedBack + {q}), q);
    }
  }

  lemma UndeferKeeps(file: AnswerFile, s: Injector, q: Request)
    requires Accounted(s) && Waiting(s) && q in s.deferred && q.title in s.meta
    ensures var t := Undefer(file, s, q);
            Accounted(t) && Waiting(t) && t.deferred == Without(s.deferred, q.title) && t.offered == s.offered
  {
    hide ProcessWithMeta, Accounted, Without, DistinctTitles;
    WithoutKeepsWaiting(s.deferred, q.title);
    OthersStay(s.deferred, q);
    var s' := s.(timers := s.timers - {q}, deferred := Without(s.deferred, q.title));
    ProcessAccounts(file, s, s', q);
    var r := Processed(file, s', q);
  }

  lemma OthersStay(deferred: seq<Request>, q: Request)
    requires DistinctTitles(deferred) && q in deferred
    ensures forall p :: p in Without(deferred, q.title) <==> p in deferred && p != q
  {
    forall p | p in deferred && p.title == q.title ensures p == q {
      var i :| 0 <= i < |deferred| && deferred[i] == p;
      var j :| 0 <= j < |deferred| && deferred[j] == q;
      assert i == j;
    }
  }

  lemma {:induction false} UndeferAllKeeps(file: AnswerFile, s: Injector, n: nat)
    requires Accounted(s) && Waiting(s) && n <= |s.deferred|
    ensures var r := UndeferAll(file, s, s.deferred[..n]);
            Accounted(r) && Waiting(r) && r.offered == s.offered
            && forall q :: q in r.deferred <==> q in s.deferred && !(q in s.deferred[..n] && q.title in s.meta)
  {
    if n > 0 {
      assert s.deferred[..n][..n - 1] == s.deferred[..n - 1];
      UndeferAllKeeps(file, s, n - 1);
      var r, q := UndeferAll(file, s, s.deferred[..n - 1]), s.deferred[n - 1];
      assert q in s.deferred && q !in s.deferred[..n - 1];
      assert s.deferred[..n] == s.deferred[..n - 1] + [q];
      if q.title in r.meta {
        UndeferKeeps(file, r, q);
        OthersStay(r.deferred, q);
      }
    } else {
      assert s.deferred[..0] == [];
    }
  }

  lemma NewRequest(s: Injector, q: Request)
    requires Accounted(s) && Numbered(s.offered) && q.serial == |s.offered|
    ensures q !in s.offered && q !in s.timers
  {
    assert Places(s, q) == Unit(q in s.offered);
  }

  lemma TryHandleKeeps(file: AnswerFile, s: Injector, q: Request)
    requires Sound(s) && q.serial == |s.offered|
    ensures Sound(TryHandle(file, s, q).0)
  {
    hide ProcessWithMeta, Accounted, DistinctTitles, Put;
    NewRequest(s, q);
    var s' := s.(offered := s.offered + [q]);
    var live := s'.(timers := s.timers + {q});
    AccountOffer(s, live, q);
    assert live.timers - {q} == s.timers;
    if q.title in s.meta {
      ProcessAccounts(file, live, s', q);
      var r := Processed(file, s', q);
    } else {
      PutKeepsWaiting(s.deferred, q);
      AccountedIgnores(live, live.(deferred := Put(s.deferred, q)));
    }
  }

  lemma AccountedIgnores(s: Injector, t: Injector)
    requires Accounted(s) && t == s.(deferred := t.deferred, meta := t.meta)
    ensures Accounted(t)
  {
    assert forall q :: Places(t, q) == Places(s, q);
  }

  lemma ObserveKeeps(file: AnswerFile, s: Injector, questions: seq<Question>)
    requires Sound(s)
    ensures Sound(ObserveEvent(file, s, questions))
  {
    var s' := s.(meta := Learn(s.meta, questions));
    AccountedIgnores(s, s');
    UndeferAllKeeps(file, s', |s'.deferred|);
    assert s'.deferred[..|s'.deferred|] == s'.deferred;
  }

  lemma FireKeeps(file: AnswerFile, s: Injector, q: Request)
    requires Sound(s) && q in s.timers
    ensures Sound(Fire(file, s, q))
  {
    var t := Fire(file, s, q);
    AccountReply(s, t, Reply(q, DefaultBody(file, q), false));
    WithoutKeepsWaiting(s.deferred, q.title);
  }

  lemma StepKeepsSound(file: AnswerFile, s: Injector, input: Input)
    requires Sound(s)
    ensures Sound(Step(file, s, input))
  {
    hide Sound;
    match input
    case Select(id, title, options) => TryHandleKeeps(file, s, Request(|s.offered|, id, title, options));
    case Metadata(questions) => ObserveKeeps(file, s, questions);
    case TimerFires(q) => if q in s.timers { FireKeeps(file, s, q); }
  }

  lemma {:induction false} RunKeeps(file: AnswerFile, inputs: seq<Input>)
    ensures Sound(Run(file, inputs))
  {
    if inputs == [] {
      assert forall q :: Places(FRESH, q) == 0;
    } else {
      RunKeeps(file, inputs[..|inputs| - 1]);
      StepKeepsSound(file, Run(file, inputs[..|inputs| - 1]), inputs[|inputs| - 1]);
      hide Step, Sound;
    }
  }

  // ----- What that means for a run

  lemma {:induction false} RepliedTwice(replies: seq<Reply>, i: nat, j: nat)
    requires i < j < |replies| && replies[i].request == replies[j].request
    ensures RepliesTo(replies, replies[i].request) >= 2
  {
    var n := |replies| - 1;
    if j < n {
      RepliedTwice(replies[..n], i, j);
    } else {
      RepliedOnce(replies[..n], i);
    }
  }

  lemma {:induction false} RepliedOnce(replies: seq<Reply>, i: nat)
    requires i < |replies|
    ensures RepliesTo(replies, replies[i].request) >= 1
  {
    if i < |replies| - 1 { RepliedOnce(replies[..|replies| - 1], i); }
  }

  lemma {:induction false} HasReply(replies: seq<Reply>, q: Request)
    requires RepliesTo(replies, q) > 0
    ensures exists r :: r in replies && r.request == q
  {
    var n := |replies| - 1;
    if replies[n].request == q {
      assert replies[n] in replies;
    } else {
      HasReply(replies[..n], q);
    }
  }

  /** No request is answered twice, and offered selects are exactly those answered, defaulted or
      still under a timer. */
  lemma AtMostOneReply(file: AnswerFile, inputs: seq<Input>)
    ensures var s := Run(file, inputs);
            && |s.offered| == s.answered + s.defaulted + |s.timers|
            && (forall i, j | 0 <= i < j < |s.replies| :: s.replies[i].request != s.replies[j].request)
            && (forall r | r in s.replies :: r.request in s.offered && r.request !in s.timers)
  {
    var s := Run(file, inputs);
    RunKeeps(file, inputs);
    forall i | 0 <= i < |s.replies|
      ensures s.replies[i].request in s.offered && s.replies[i].request !in s.timers
      ensures forall j | i < j < |s.replies| :: s.replies[i].request != s.replies[j].request
    {
      var q := s.replies[i].request;
      assert Places(s, q) == Unit(q in s.offered);
      RepliedOnce(s.replies, i);
      forall j | i < j < |s.replies| ensures q != s.replies[j].request {
        if q == s.replies[j].request { RepliedTwice(s.replies, i, j); }
      }
    }
  }

  lemma StrategyKept(file: AnswerFile, s: Injector, todo: seq<Request>)
    requires file.strategy == CancelRequest && s.handedBack == s.dropped == {}
    ensures UndeferAll(file, s, todo).handedBack == UndeferAll(file, s, todo).dropped == {}
  {
  }

  lemma {:induction false} CancelLeavesNothing(file: AnswerFile, inputs: seq<Input>)
    requires file.strategy == CancelRequest
    ensures Run(file, inputs).handedBack == Run(file, inputs).dropped == {}
  {
    if inputs != [] {
      var s := Run(file, inputs[..|inputs| - 1]);
      CancelLeavesNothing(file, inputs[..|inputs| - 1]);
      match inputs[|inputs| - 1]
      case Metadata(questions) =>
        var s' := s.(meta := Learn(s.meta, questions));
        StrategyKept(file, s', s'.deferred);
      case _ =>
    }
  }

  /** A request whose time is over got exactly one reply, unless it was handed back to the caller
      or dropped; under `cancel` neither ever happens. */
  lemma EveryRequestIsDealtWith(file: AnswerFile, inputs: seq<Input>, q: Request)
    requires q in Run(file, inputs).offered && q !in Run(file, inputs).timers
    ensures var s := Run(file, inputs);
            && ((exists r :: r in s.replies && r.request == q) <==> q !in s.handedBack && q !in s.dropped)
            && !(q in s.handedBack && q in s.dropped)
            && (file.strategy == CancelRequest ==> exists r :: r in s.replies && r.request == q)
  {
    var s := Run(file, inputs);
    RunKeeps(file, inputs);
    assert Places(s, q) == Unit(q in s.offered);
    if RepliesTo(s.replies, q) > 0 { HasReply(s.replies, q); }
    if r :| r in s.replies && r.request == q {
      var i :| 0 <= i < |s.replies| && s.replies[i] == r;
      RepliedOnce(s.replies, i);
    }
    if file.strategy == CancelRequest { CancelLeavesNothing(file, inputs); }
  }

  // ----- What metadata does to a deferred request

  predicate Disposed(file: AnswerFile, t: Injector, q: Request)
    requires q.title in t.meta
  {
    var body := Accepted(file, t.meta[q.title], q);
    if body.Some? then Reply(q, body.value, true) in t.replies
    else if file.strategy == CancelRequest then Reply(q, Cancelled, false) in t.replies
    else q in t.dropped
  }

  lemma {:induction false} UndeferAllDisposes(file: AnswerFile, s: Injector, todo: seq<Request>)
    ensures var t := UndeferAll(file, s, todo);
            && (forall q | q in todo && q.title in s.meta :: Disposed(file, t, q))
            && (forall q | q in s.timers && q !in todo :: q in t.timers)
            && (forall r | r in s.replies :: r in t.replies) && s.dropped <= t.dropped
  {
    if todo != [] {
      var prefix, q := todo[..|todo| - 1], todo[|todo| - 1];
      UndeferAllDisposes(file, s, prefix);
      assert todo == prefix + [q];
      var r := UndeferAll(file, s, prefix);
      if q.title in r.meta {
        UndeferDisposes(file, r, q);
      }
      hide Undefer, Accepted;
    }
  }

  lemma UndeferDisposes(file: AnswerFile, s: Injector, q: Request)
    requires q.title in s.meta
    ensures var t := Undefer(file, s, q);
            && t.meta == s.meta && Disposed(file, t, q) && t.timers == s.timers - {q}
            && (forall r | r in s.replies :: r in t.replies) && s.dropped <= t.dropped
  {
  }

  /** A deferred request is answered from the file when its metadata allows an answer; if not, it
      is cancelled under `cancel` and gets no reply at all under `first_option`. */
  lemma MetadataDisposes(file: AnswerFile, s: Injector, questions: seq<Question>, q: Request)
    requires Sound(s) && q in s.timers
    ensures var t := ObserveEvent(file, s, questions);
            if q in s.deferred && q.title in t.meta then Disposed(file, t, q) && q !in t.timers
            else q in t.timers && (q in t.deferred <==> q in s.deferred)
  {
    var s' := s.(meta := Learn(s.meta, questions));
    AccountedIgnores(s, s');
    UndeferAllDisposes(file, s', s'.deferred);
    UndeferAllKeeps(file, s', |s'.deferred|);
    assert s'.deferred[..|s'.deferred|] == s'.deferred;
    var t := ObserveEvent(file, s, questions);
    assert Places(t, q) == Unit(q in t.offered);
    if q in s.deferred && q.title in t.meta {
      if q in t.dropped {
      } else {
        var r :| r in t.replies && r.request == q;
        var i :| 0 <= i < |t.replies| && t.replies[i] == r;
        RepliedOnce(t.replies, i);
      }
    }
  }

  // ----- Requests that share a title

  /** Under its timer, but out of reach of any metadata. */
  predicate Orphan(s: Injector, q: Request)
  {
    q in s.timers && q !in s.deferred
  }

  ghost predicate DefaultedOrOrphan(file: AnswerFile, s: Injector, q: Request)
  {
    Orphan(s, q) || Reply(q, DefaultBody(file, q), false) in s.replies
  }

  lemma ProcessKeepsReplies(file: AnswerFile, s: Injector, q: Request)
    requires q.title in s.meta
    ensures forall r | r in s.replies :: r in ProcessWithMeta(file, s, q).0.replies
    ensures ProcessWithMeta(file, s, q).0.timers == s.timers && ProcessWithMeta(file, s, q).0.deferred == s.deferred
  {
  }

  lemma StepKeepsOrphan(file: AnswerFile, s: Injector, input: Input, q: Request)
    requires Sound(s) && q in s.offered && DefaultedOrOrphan(file, s, q)
    ensures DefaultedOrOrphan(file, Step(file, s, input), q) && q in Step(file, s, input).offered
  {
    match input
    case Select(id, title, options) =>
      var p := Request(|s.offered|, id, title, options);
      NewRequest(s, p);
      PutKeepsWaiting(s.deferred, p);
      if title in s.meta { ProcessKeepsReplies(file, s.(offered := s.offered + [p]), p); }
      hide ProcessWithMeta, Put;
    case Metadata(questions) =>
      var s' := s.(meta := Learn(s.meta, questions));
      AccountedIgnores(s, s');
      UndeferAllKeeps(file, s', |s'.deferred|);
      UndeferAllDisposes(file, s', s'.deferred);
      assert s'.deferred[..|s'.deferred|] == s'.deferred;
    case TimerFires(p) =>
  }

  lemma OrphanIsOffered(file: AnswerFile, s: Injector, q: Request)
    requires Sound(s) && Orphan(s, q)
    ensures DefaultedOrOrphan(file, s, q) && q in s.offered
  {
    assert Places(s, q) == Unit(q in s.offered);
  }

  lemma RunSplits(file: AnswerFile, before: seq<Input>, after: seq<Input>)
    requires after != []
    ensures Run(file, before + after) == Step(file, Run(file, before + after[..|after| - 1]), after[|after| - 1])
  {
    hide Step;
    var all := before + after;
    assert all[..|all| - 1] == before + after[..|after| - 1] && all[|all| - 1] == after[|after| - 1];
  }

  /** Once a live request is not deferred, only its timer will answer it. */
  lemma {:induction false} OrphansAreDefaulted(file: AnswerFile, before: seq<Input>, after: seq<Input>, q: Request)
    requires Orphan(Run(file, before), q)
    ensures DefaultedOrOrphan(file, Run(file, before + after), q) && q in Run(file, before + after).offered
  {
    hide Run, Step, Sound, DefaultedOrOrphan, Orphan;
    RunKeeps(file, before);
    if after == [] {
      assert before + after == before;
      OrphanIsOffered(file, Run(file, before), q);
    } else {
      var n := |after| - 1;
      OrphansAreDefaulted(file, before, after[..n], q);
      RunKeeps(file, before + after[..n]);
      RunSplits(file, before, after);
      StepKeepsOrphan(file, Run(file, before + after[..n]), after[n], q);
    }
  }

  /** Two ways to get there: a later request with the same title takes the place of a deferred one,
      and a timer that fires takes with it whatever newer request is deferred under its title. */
  lemma SharedTitleOrphans(file: AnswerFile, s: Injector, input: Input, q: Request)
    requires Sound(s) && q in s.deferred
    ensures Orphan(Step(file, s, input), q) <==> Evicts(s, input, q)
  {
    match input
    case Select(id, title, options) =>
      var p := Request(|s.offered|, id, title, options);
      NewRequest(s, p);
      PutKeepsWaiting(s.deferred, p);
      assert q.title !in s.meta;
      if title in s.meta { ProcessKeepsReplies(file, s.(offered := s.offered + [p]), p); }
      hide ProcessWithMeta, Put;
    case Metadata(questions) =>
      MetadataDisposes(file, s, questions, q);
    case TimerFires(p) =>
  }

  /** A select of the title, or another live timer of it, takes a deferred request's place. */
  predicate Evicts(s: Injector, input: Input, q: Request)
  {
    match input
    case Select(_, title, _) => title == q.title
    case Metadata(_) => false
    case TimerFires(p) => p in s.timers && p != q && p.title == q.title
  }

  /** Only a new request gets a timer. */
  lemma StepTimers(file: AnswerFile, s: Injector, input: Input, q: Request)
    requires Sound(s) && q in s.offered && q in Step(file, s, input).timers
    ensures q in s.timers
  {
    match input
    case Select(id, title, options) =>
      var p := Request(|s.offered|, id, title, options);
      NewRequest(s, p);
      if title in s.meta { ProcessKeepsReplies(file, s.(offered := s.offered + [p]), p); }
      hide ProcessWithMeta, Put;
    case Metadata(questions) => UndeferAllTimers(file, s.(meta := Learn(s.meta, questions)), s.deferred);
    case TimerFires(_) =>
  }

  lemma {:induction false} UndeferAllTimers(file: AnswerFile, s: Injector, todo: seq<Request>)
    ensures UndeferAll(file, s, todo).timers <= s.timers
  {
    if todo != [] {
      var prefix, q := todo[..|todo| - 1], todo[|todo| - 1];
      UndeferAllTimers(file, s, prefix);
      if q.title in UndeferAll(file, s, prefix).meta { UndeferDisposes(file, UndeferAll(file, s, prefix), q); }
      hide Undefer, Disposed;
    }
  }

  /** An orphan that is still live is still an orphan. */
  lemma LiveOrphanStays(file: AnswerFile, s: Injector, input: Input, q: Request)
    requires Sound(s) && Orphan(s, q) && q in Step(file, s, input).timers
    ensures Orphan(Step(file, s, input), q)
  {
    OrphanIsOffered(file, s, q);
    StepKeepsOrphan(file, s, input, q);
    StepKeepsSound(file, s, input);
    hide Step;
    var t := Step(file, s, input);
    assert Places(t, q) == Unit(q in t.offered);
    if r :| r in t.replies && r.request == q {
      var k :| 0 <= k < |t.replies| && t.replies[k] == r;
      RepliedOnce(t.replies, k);
    }
  }

  /** While a request's timer is live, it is deferred exactly as long as nothing evicted it. */
  lemma {:induction false} DeferredUnlessEvicted(file: AnswerFile, before: seq<Input>, since: seq<Input>, q: Request)
    requires q in Run(file, before).deferred && q in Run(file, before + since).timers
    ensures q in Run(file, before + since).deferred <==>
            forall k | 0 <= k < |since| :: !Evicts(Run(file, before + since[..k]), since[k], q)
  {
    hide Run, Step, Sound, Orphan, Evicts;
    if since == [] {
      assert before + since == before;
    } else {
      var n := |since| - 1;
      var s := Run(file, before + since[..n]);
      RunKeeps(file, before + since[..n]);
      RunSplits(file, before, since);
      DeferredIsOffered(file, before, since[..n], q);
      StepTimers(file, s, since[n], q);
      DeferredUnlessEvicted(file, before, since[..n], q);
      forall k | 0 <= k < n ensures since[..n][..k] == since[..k] && since[..n][k] == since[k] { }
      EvictedNow(file, s, since[n], q);
    }
  }

  lemma EvictedNow(file: AnswerFile, s: Injector, input: Input, q: Request)
    requires Sound(s) && q in s.timers && q in Step(file, s, input).timers
    ensures q in Step(file, s, input).deferred <==> q in s.deferred && !Evicts(s, input, q)
  {
    if q in s.deferred { SharedTitleOrphans(file, s, input, q); } else { LiveOrphanStays(file, s, input, q); }
    hide Step, Sound;
  }

  lemma {:induction false} DeferredIsOffered(file: AnswerFile, before: seq<Input>, since: seq<Input>, q: Request)
    requires q in Run(file, before).deferred
    ensures q in Run(file, before + since).offered
  {
    RunKeeps(file, before);
    if since == [] {
      assert before + since == before;
      var s := Run(file, before);
      assert Places(s, q) == Unit(q in s.offered);
    } else {
      var n := |since| - 1;
      DeferredIsOffered(file, before, since[..n], q);
      RunSplits(file, before, since);
      StepOffers(file, Run(file, before + since[..n]), since[n]);
    }
    hide Run, Step, Sound;
  }

  lemma StepOffers(file: AnswerFile, s: Injector, input: Input)
    ensures s.offered <= Step(file, s, input).offered
  {
    match input
    case Metadata(questions) => UndeferAllOffers(file, s.(meta := Learn(s.meta, questions)), s.deferred);
    case _ =>
  }

  lemma {:induction false} UndeferAllOffers(file: AnswerFile, s: Injector, todo: seq<Request>)
    ensures UndeferAll(file, s, todo).offered == s.offered
  {
    if todo != [] { UndeferAllOffers(file, s, todo[..|todo| - 1]); }
  }

  /** Metadata that comes while a request's timer is live disposes of it exactly when it is about
      its title and nothing has evicted it since it was deferred. */
  lemma MetadataReachesExactlyWhen(file: AnswerFile, before: seq<Input>, since: seq<Input>,
                                   questions: seq<Question>, q: Request)
    requires q in Run(file, before).deferred && q in Run(file, before + since).timers
    ensures var s := Run(file, before + since);
            var t := Step(file, s, Metadata(questions));
            q !in t.timers <==>
            q.title in t.meta && forall k | 0 <= k < |since| :: !Evicts(Run(file, before + since[..k]), since[k], q)
  {
    DeferredUnlessEvicted(file, before, since, q);
    RunKeeps(file, before + since);
    MetadataDisposes(file, Run(file, before + since), questions, q);
    hide Run, Sound, Disposed, Evicts;
  }

  /** Under `first_option` a deferred question without a usable answer gets no reply from anyone. */
  lemma DeferredWithoutAnswerIsDropped(file: AnswerFile, id: RequestId, meta: Meta)
    requires file.questions == [] && file.strategy == FirstOption
    ensures var asked := [Select(id, "Scope: Which?", Some(["all"])), Metadata([Question("Scope: Which?", meta)])];
            var s := Run(file, asked);
            |s.offered| == 1 && s.timers == {} && s.replies == [] && s.handedBack == {}
  {
    var title := "Scope: Which?";
    var q := Request(0, id, title, Some(["all"]));
    var first, second := Select(id, title, Some(["all"])), Metadata([Question(title, meta)]);
    RunSplits(file, [], [first]);
    RunSplits(file, [first], [second]);
    assert [first] + [second] == [first, second] && [] + [first] == [first];
    assert [first][..0] == [] && [second][..0] == [] && [first] + [] == [first];
    var s := Run(file, [first]);
    assert s == FRESH.(offered := [q], timers := {q}, deferred := [q]);
    LearnOne(s.meta, Question(title, meta));
    UndeferOne(file, s.(meta := map[title := meta]), q);
  }

  lemma LearnOne(known: map<string, Meta>, question: Question)
    ensures Learn(known, [question]) == known[question.title := question.meta]
  {
    assert [question][..0] == [];
  }

  lemma UndeferOne(file: AnswerFile, s: Injector, q: Request)
    requires q.title in s.meta
    ensures UndeferAll(file, s, [q]) == Undefer(file, s, q)
  {
    assert [q][..0] == [] && UndeferAll(file, s, []) == s;
  }

  // ----- An older timer evicts a newer request

  const TITLE := "Scope: Which?"

  function Older(id: RequestId, options: Option<seq<string>>): Request { Request(0, id, TITLE, options) }
  function Newer(id: RequestId, options: Option<seq<string>>): Request { Request(1, id, TITLE, options) }

  function AfterTwo(id: RequestId, options: Option<seq<string>>): Injector
  {
    FRESH.(offered := [Older(id, options), Newer(id, options)], deferred := [Newer(id, options)],
           timers := {Older(id, options), Newer(id, options)})
  }

  lemma OneSelect(file: AnswerFile, select: Input)
    ensures Run(file, [select]) == Step(file, FRESH, select)
  {
    hide Step;
    assert [select][..0] == [];
  }

  lemma SecondSelect(file: AnswerFile, id: RequestId, options: Option<seq<string>>)
    ensures var select := Select(id, TITLE, options);
            Step(file, Step(file, FRESH, select), select) == AfterTwo(id, options)
  {
    Deferring(file, FRESH, Select(id, TITLE, options));
    var q := Older(id, options);
    Deferring(file, FRESH.(offered := [q], deferred := [q], timers := {q}), Select(id, TITLE, options));
    hide Step;
    assert [Older(id, options)] + [Newer(id, options)] == [Older(id, options), Newer(id, options)];
    assert {Older(id, options)} + {Newer(id, options)} == {Older(id, options), Newer(id, options)};
  }

  lemma TwoDeferred(file: AnswerFile, id: RequestId, options: Option<seq<string>>)
    ensures Run(file, [Select(id, TITLE, options)] + [Select(id, TITLE, options)]) == AfterTwo(id, options)
  {
    var select := Select(id, TITLE, options);
    hide *;
    OneSelect(file, select);
    RunSplits(file, [select], [select]);
    assert [select] + [select][..0] == [select];
    SecondSelect(file, id, options);
  }

  lemma Deferring(file: AnswerFile, s: Injector, select: Input)
    requires select.Select? && select.title !in s.meta && |s.deferred| <= 1
    requires s.deferred != [] ==> s.deferred[0].title == select.title
    ensures var q := Request(|s.offered|, select.id, select.title, select.options);
            Step(file, s, select) == s.(offered := s.offered + [q], timers := s.timers + {q}, deferred := [q])
  {
  }

  /** Two selects share a title and the file has an answer for the question. If the metadata comes
      now, the newer one gets that answer; if the older one's timer fires first, the same metadata
      leaves the newer one to its timer. */
  lemma OlderTimerEvictsNewer(file: AnswerFile, id: RequestId, options: Option<seq<string>>, meta: Meta)
    requires Accepted(file, meta, Newer(id, options)).Some?
    ensures var s := Run(file, [Select(id, TITLE, options)] + [Select(id, TITLE, options)]);
            var metadata, q := Metadata([Question(TITLE, meta)]), Newer(id, options);
            var fired := Step(file, s, TimerFires(Older(id, options)));
            && Reply(q, Accepted(file, meta, q).value, true) in Step(file, s, metadata).replies
            && Orphan(Step(file, fired, metadata), q)
  {
    var selects := [Select(id, TITLE, options)] + [Select(id, TITLE, options)];
    var s, q, questions := Run(file, selects), Newer(id, options), [Question(TITLE, meta)];
    TwoDeferred(file, id, options);
    RunKeeps(file, selects);
    LearnOne(s.meta, Question(TITLE, meta));
    UndeferAllKeepsMeta(file, s.(meta := Learn(s.meta, questions)), s.deferred);
    MetadataDisposes(file, s, questions, q);
    var fired := Fire(file, s, Older(id, options));
    FireKeeps(file, s, Older(id, options));
    MetadataDisposes(file, fired, questions, q);
    hide Sound, Accepted, UndeferAll, Learn;
  }

  lemma UndeferAllKeepsMeta(file: AnswerFile, s: Injector, todo: seq<Request>)
    ensures UndeferAll(file, s, todo).meta == s.meta
  {
  }
}
