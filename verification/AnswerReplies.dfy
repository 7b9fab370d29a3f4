/** What is answered, told from the answer file and the inputs alone. */
module AnswerReplies {
  import opened Wrappers
  import opened Answers

  // ----- What the file gives

  predicate Same(file: AnswerFile, key: string, id: string)
  {
    file.normalize(key) == file.normalize(id)
  }

  /** One normalised id is the other, an underscore and something more. */
  ghost predicate Related(file: AnswerFile, key: string, id: string)
  {
    exists more: string ::
      file.normalize(id) == file.normalize(key) + "_" + more || file.normalize(key) == file.normalize(id) + "_" + more
  }

  /** The entry for an id: the first under the same id, or if there is none the first related one. */
  ghost predicate MatchesAt(file: AnswerFile, id: string, k: int)
  {
    0 <= k < |file.questions|
    && if exists e | e in file.questions :: Same(file, e.key, id)
       then Same(file, file.questions[k].key, id) && forall j | 0 <= j < k :: !Same(file, file.questions[j].key, id)
       else Related(file, file.questions[k].key, id)
            && forall j | 0 <= j < k :: !Related(file, file.questions[j].key, id)
  }

  lemma RelatedByPrefix(file: AnswerFile, key: string, id: string)
    ensures Related(file, key, id) <==> RelatedQuestion(file, key, id)
  {
    var a, b := file.normalize(key), file.normalize(id);
    if a + "_" <= b { assert b == a + "_" + b[|a| + 1..]; }
    if b + "_" <= a { assert a == b + "_" + a[|b| + 1..]; }
  }

  /** Some entry is found exactly if one matches, and it is that one. */
  lemma MatchIsFirstOfBest(file: AnswerFile, id: string, e: Entry)
    ensures Match(file, id) == Some(e) <==> exists k :: MatchesAt(file, id, k) && file.questions[k] == e
  {
    forall key ensures Related(file, key, id) <==> RelatedQuestion(file, key, id) { RelatedByPrefix(file, key, id); }
    hide Related, RelatedQuestion;
    var same := FirstKey(file.questions, key => SameQuestion(file, key, id));
    var related := FirstKey(file.questions, key => RelatedQuestion(file, key, id));
    var best := if same < |file.questions| then same else related;
    if same < |file.questions| {
      assert file.questions[same] in file.questions && Same(file, file.questions[same].key, id);
    } else {
      assert forall f | f in file.questions :: !Same(file, f.key, id);
    }
    if best < |file.questions| { assert MatchesAt(file, id, best); }
    forall k | MatchesAt(file, id, k) ensures k == best { }
  }

  /** The file gives this body to a request: the values of the matching entry, all of them offered. */
  ghost predicate Gives(file: AnswerFile, meta: Meta, q: Request, body: Body)
  {
    exists k :: MatchesAt(file, meta.id, k)
      && var answer := file.questions[k].answer;
         match body
         case Chosen(v) =>
           !meta.allowMultiple && Offered(q, v) && (answer == One(v) || (answer.Many? && [v] <= answer.values))
         case ChosenMany(vs) =>
           meta.allowMultiple && (forall v | v in vs :: Offered(q, v))
           && (answer == Many(vs) || (answer.One? && vs == [answer.value]))
         case Cancelled => false
  }

  predicate Offered(q: Request, v: string)
  {
    q.options.Some? && exists i | 0 <= i < |q.options.value| :: q.options.value[i] == v
  }

  lemma AcceptedIsGiven(file: AnswerFile, meta: Meta, q: Request, body: Body)
    ensures Accepted(file, meta, q) == Some(body) <==> Gives(file, meta, q, body)
  {
    hide Same, Related, Match;
    var found := Match(file, meta.id);
    if found.Some? {
      MatchIsFirstOfBest(file, meta.id, found.value);
      var k :| MatchesAt(file, meta.id, k) && file.questions[k] == found.value;
    }
    forall k | MatchesAt(file, meta.id, k) ensures found == Some(file.questions[k]) {
      MatchIsFirstOfBest(file, meta.id, file.questions[k]);
    }
    forall v ensures Offered(q, v) <==> q.Offers(v) { }
  }

  /** There is at most one such body. */
  lemma GivesOne(file: AnswerFile, meta: Meta, q: Request)
    ensures Accepted(file, meta, q).None? <==> forall body :: !Gives(file, meta, q, body)
  {
    forall body ensures Accepted(file, meta, q) == Some(body) <==> Gives(file, meta, q, body) {
      AcceptedIsGiven(file, meta, q, body);
    }
    hide Accepted, Gives;
  }

  // ----- What the inputs have told

  /** The last question with this title so far has this metadata. */
  ghost predicate Told(inputs: seq<Input>, title: string, meta: Meta)
  {
    exists k, j :: TellsAt(inputs, title, k, j) && inputs[k].questions[j].meta == meta
      && forall k', j' | TellsAt(inputs, title, k', j') :: k' < k || (k' == k && j' <= j)
  }

  predicate TellsAt(inputs: seq<Input>, title: string, k: int, j: int)
  {
    0 <= k < |inputs| && inputs[k].Metadata? && 0 <= j < |inputs[k].questions|
    && inputs[k].questions[j].title == title
  }

  lemma {:induction false} LearnTells(known: map<string, Meta>, questions: seq<Question>, title: string)
    ensures title in Learn(known, questions) <==>
            title in known || exists j :: 0 <= j < |questions| && questions[j].title == title
    ensures (forall j | 0 <= j < |questions| :: questions[j].title != title) && title in known ==>
              Learn(known, questions)[title] == known[title]
    ensures forall j | 0 <= j < |questions| && questions[j].title == title
                       && (forall j' | j < j' < |questions| :: questions[j'].title != title) ::
              Learn(known, questions)[title] == questions[j].meta
  {
    if questions != [] {
      var n := |questions| - 1;
      LearnTells(known, questions[..n], title);
      assert forall j | 0 <= j < n :: questions[..n][j] == questions[j];
    }
  }

  lemma StepLearns(file: AnswerFile, s: Injector, input: Input)
    ensures Step(file, s, input).meta == if input.Metadata? then Learn(s.meta, input.questions) else s.meta
  {
  }

  lemma TellsBefore(inputs: seq<Input>, title: string, k: int, j: int)
    requires inputs != [] && k < |inputs| - 1
    ensures TellsAt(inputs, title, k, j) <==> TellsAt(inputs[..|inputs| - 1], title, k, j)
  {
  }

  /** The metadata that is used for a title is what the inputs told last. */
  lemma {:induction false} MetaIsToldLast(file: AnswerFile, inputs: seq<Input>, title: string)
    ensures var meta := Run(file, inputs).meta;
            (title in meta <==> exists k, j :: TellsAt(inputs, title, k, j))
            && (title in meta ==> Told(inputs, title, meta[title]))
  {
    if inputs != [] {
      var n := |inputs| - 1;
      MetaIsToldLast(file, inputs[..n], title);
      StepLearns(file, Run(file, inputs[..n]), inputs[n]);
      ToldNext(inputs, inputs[..n], title, Run(file, inputs[..n]).meta);
      hide Step, Told, Learn;
    }
  }

  lemma ToldNext(inputs: seq<Input>, before: seq<Input>, title: string, known: map<string, Meta>)
    requires inputs != [] && before == inputs[..|inputs| - 1]
    requires title in known <==> exists k, j :: TellsAt(before, title, k, j)
    requires title in known ==> Told(before, title, known[title])
    ensures var last := inputs[|inputs| - 1];
            var meta := if last.Metadata? then Learn(known, last.questions) else known;
            (title in meta <==> exists k, j :: TellsAt(inputs, title, k, j))
            && (title in meta ==> Told(inputs, title, meta[title]))
  {
    var n := |inputs| - 1;
    var last := inputs[n];
    forall k, j | k < n ensures TellsAt(inputs, title, k, j) <==> TellsAt(before, title, k, j) {
      TellsBefore(inputs, title, k, j);
    }
    if last.Metadata? {
      LearnTells(known, last.questions, title);
      if j :| 0 <= j < |last.questions| && last.questions[j].title == title {
        var m := LastOfTitle(last.questions, title, j);
        assert TellsAt(inputs, title, n, m);
      }
    }
    hide Learn;
  }

  lemma {:induction false} LastOfTitle(questions: seq<Question>, title: string, j: nat) returns (m: nat)
    requires j < |questions| && questions[j].title == title
    ensures m < |questions| && questions[m].title == title
    ensures forall j' | m < j' < |questions| :: questions[j'].title != title
    decreases |questions| - j
  {
    if j' :| j < j' < |questions| && questions[j'].title == title {
      m := LastOfTitle(questions, title, j');
    } else {
      m := j;
    }
  }

  lemma ToldIsUsed(file: AnswerFile, inputs: seq<Input>, title: string, meta: Meta)
    ensures Told(inputs, title, meta) <==>
            title in Run(file, inputs).meta && Run(file, inputs).meta[title] == meta
  {
    MetaIsToldLast(file, inputs, title);
    hide Run;
  }

  // ----- Every reply

  /** What is sent when the file gives nothing. */
  function Fallback(strategy: Strategy, options: Option<seq<string>>): Body
  {
    match strategy
    case CancelRequest => Cancelled
    case FirstOption => Chosen(if options.None? || options.value == [] then "" else options.value[0])
  }

  /** A configured reply is what the file gives under what had then been told of the request's own
      title; any other is the fallback. */
  ghost predicate Earned(file: AnswerFile, inputs: seq<Input>, r: Reply)
  {
    if r.configured then
      exists n, meta :: 0 <= n <= |inputs| && Told(inputs[..n], r.request.title, meta)
                        && Gives(file, meta, r.request, r.body)
    else r.body == Fallback(file.strategy, r.request.options)
  }

  ghost predicate EarnedNow(file: AnswerFile, meta: map<string, Meta>, r: Reply)
  {
    if r.configured then r.request.title in meta && Accepted(file, meta[r.request.title], r.request) == Some(r.body)
    else r.body == Fallback(file.strategy, r.request.options)
  }

  lemma ProcessEarns(file: AnswerFile, s: Injector, q: Request, r: Reply)
    requires q.title in s.meta
    ensures r in ProcessWithMeta(file, s, q).0.replies ==> r in s.replies || EarnedNow(file, s.meta, r)
  {
  }

  lemma {:induction false} UndeferAllEarns(file: AnswerFile, s: Injector, todo: seq<Request>, r: Reply)
    ensures r in UndeferAll(file, s, todo).replies ==> r in s.replies || EarnedNow(file, s.meta, r)
  {
    if todo != [] {
      var u, q := UndeferAll(file, s, todo[..|todo| - 1]), todo[|todo| - 1];
      UndeferAllEarns(file, s, todo[..|todo| - 1], r);
      if q.title in u.meta {
        ProcessEarns(file, u.(timers := u.timers - {q}, deferred := Without(u.deferred, q.title)), q, r);
      }
      hide ProcessWithMeta, EarnedNow;
    }
  }

  lemma StepEarns(file: AnswerFile, s: Injector, input: Input, r: Reply)
    ensures var t := Step(file, s, input); r in t.replies ==> r in s.replies || EarnedNow(file, t.meta, r)
  {
    match input
    case Select(id, title, options) =>
      var q := Request(|s.offered|, id, title, options);
      if title in s.meta { ProcessEarns(file, s.(offered := s.offered + [q]), q, r); }
      hide EarnedNow;
    case Metadata(questions) =>
      var s' := s.(meta := Learn(s.meta, questions));
      UndeferAllEarns(file, s', s'.deferred, r);
      hide EarnedNow;
    case TimerFires(q) =>
  }

  /** Every reply of every run is earned. */
  lemma {:induction false} RepliesAreTruthful(file: AnswerFile, inputs: seq<Input>, r: Reply)
    requires r in Run(file, inputs).replies
    ensures Earned(file, inputs, r)
  {
    hide Step, Told, Gives, EarnedNow, Fallback;
    if inputs != [] {
      var n := |inputs| - 1;
      StepEarns(file, Run(file, inputs[..n]), inputs[n], r);
      if r in Run(file, inputs[..n]).replies {
        RepliesAreTruthful(file, inputs[..n], r);
        EarnedStays(file, inputs, r);
      } else {
        EarnedHere(file, inputs, r);
      }
    }
  }

  lemma EarnedStays(file: AnswerFile, inputs: seq<Input>, r: Reply)
    requires inputs != [] && Earned(file, inputs[..|inputs| - 1], r)
    ensures Earned(file, inputs, r)
  {
    hide Told, Gives;
    var before := inputs[..|inputs| - 1];
    if r.configured {
      var n, meta :| 0 <= n <= |before| && Told(before[..n], r.request.title, meta)
                     && Gives(file, meta, r.request, r.body);
      assert before[..n] == inputs[..n];
    }
  }

  lemma EarnedHere(file: AnswerFile, inputs: seq<Input>, r: Reply)
    requires EarnedNow(file, Run(file, inputs).meta, r)
    ensures Earned(file, inputs, r)
  {
    hide Told, Gives, Accepted, Run;
    var meta, title := Run(file, inputs).meta, r.request.title;
    MetaIsToldLast(file, inputs, title);
    if r.configured {
      AcceptedIsGiven(file, meta[title], r.request, r.body);
      assert inputs[..|inputs|] == inputs;
    }
  }

  // ----- What each input does

  /** A new request, in every run: answered from the file when its title has been told and the file
      gives something; otherwise cancelled or left to the caller; deferred if nothing was told. */
  lemma SelectIsAnswered(file: AnswerFile, inputs: seq<Input>, id: RequestId, title: string,
                         options: Option<seq<string>>)
    ensures var s, t := Run(file, inputs), Run(file, inputs + [Select(id, title, options)]);
            var q := Request(|s.offered|, id, title, options);
            && t.offered == s.offered + [q] && t.dropped == s.dropped
            && (forall meta, body | Told(inputs, title, meta) && Gives(file, meta, q, body) ::
                  t.replies == s.replies + [Reply(q, body, true)] && t.timers == s.timers
                  && t.handedBack == s.handedBack)
            && (forall meta | Told(inputs, title, meta) && (forall body :: !Gives(file, meta, q, body)) ::
                  t.timers == s.timers
                  && if file.strategy == CancelRequest
                     then t.replies == s.replies + [Reply(q, Cancelled, false)] && t.handedBack == s.handedBack
                     else t.replies == s.replies && t.handedBack == s.handedBack + {q})
            && ((forall meta :: !Told(inputs, title, meta)) ==>
                  t.replies == s.replies && t.timers == s.timers + {q} && t.handedBack == s.handedBack
                  && q in t.deferred)
  {
    hide Run, Told, Gives, Accepted, Match;
    var s, select := Run(file, inputs), Select(id, title, options);
    var q := Request(|s.offered|, id, title, options);
    RunSplits(file, inputs, [select]);
    assert inputs + [select][..0] == inputs;
    forall meta ensures Told(inputs, title, meta) <==> title in s.meta && s.meta[title] == meta {
      ToldIsUsed(file, inputs, title, meta);
    }
    if title in s.meta {
      assert Told(inputs, title, s.meta[title]);
      GivesOne(file, s.meta[title], q);
      forall body ensures Accepted(file, s.meta[title], q) == Some(body) <==> Gives(file, s.meta[title], q, body) {
        AcceptedIsGiven(file, s.meta[title], q, body);
      }
    } else {
      PutHolds(s.deferred, q);
    }
  }

  lemma {:induction false} PutHolds(deferred: seq<Request>, q: Request)
    ensures q in Put(deferred, q)
  {
    if deferred != [] && deferred[0].title != q.title { PutHolds(deferred[1..], q); }
  }

  /** Metadata, in every run: a deferred request whose title has been told is answered with what the
      file gives; if it gives nothing, it is cancelled or gets no reply. No other timer is touched. */
  lemma MetadataResolves(file: AnswerFile, inputs: seq<Input>, questions: seq<Question>, q: Request)
    requires q in Run(file, inputs).timers
    ensures var s, all := Run(file, inputs), inputs + [Metadata(questions)];
            var t := Run(file, all);
            && (forall meta, body | q in s.deferred && Told(all, q.title, meta) && Gives(file, meta, q, body) ::
                  Reply(q, body, true) in t.replies && q !in t.timers)
            && (forall meta | q in s.deferred && Told(all, q.title, meta)
                              && (forall body :: !Gives(file, meta, q, body)) ::
                  q !in t.timers
                  && if file.strategy == CancelRequest then Reply(q, Cancelled, false) in t.replies else q in t.dropped)
            && (q !in s.deferred || (forall meta :: !Told(all, q.title, meta)) ==> q in t.timers)
  {
    hide Run, Told, Gives, Accepted, Match, Sound;
    var s, metadata := Run(file, inputs), Metadata(questions);
    RunSplits(file, inputs, [metadata]);
    assert inputs + [metadata][..0] == inputs;
    RunKeeps(file, inputs);
    MetadataDisposes(file, s, questions, q);
    var t := Run(file, inputs + [metadata]);
    forall meta ensures Told(inputs + [metadata], q.title, meta) <==> q.title in t.meta && t.meta[q.title] == meta {
      ToldIsUsed(file, inputs + [metadata], q.title, meta);
    }
    if q.title in t.meta {
      assert Told(inputs + [metadata], q.title, t.meta[q.title]);
      GivesOne(file, t.meta[q.title], q);
      forall body ensures Accepted(file, t.meta[q.title], q) == Some(body) <==> Gives(file, t.meta[q.title], q, body) {
        AcceptedIsGiven(file, t.meta[q.title], q, body);
      }
    }
    hide ObserveEvent;
  }

  // ----- The map of deferred requests keeps its order

  /** `Map.set` replaces in place what is deferred under the title, or adds to the end. */
  lemma {:induction false} PutInPlace(deferred: seq<Request>, q: Request, k: nat)
    requires k <= |deferred| && forall j | 0 <= j < k :: deferred[j].title != q.title
    requires k < |deferred| ==> deferred[k].title == q.title
    ensures Put(deferred, q) == if k < |deferred| then deferred[k := q] else deferred + [q]
  {
    if deferred != [] && k > 0 { PutInPlace(deferred[1..], q, k - 1); }
  }

  lemma {:induction false} WithoutNothing(deferred: seq<Request>, title: string)
    requires forall j | 0 <= j < |deferred| :: deferred[j].title != title
    ensures Without(deferred, title) == deferred
  {
    if deferred != [] { WithoutNothing(deferred[1..], title); }
  }

  /** `Map.delete` takes one entry out and moves none. */
  lemma {:induction false} WithoutInPlace(deferred: seq<Request>, title: string, k: nat)
    requires k < |deferred| && deferred[k].title == title
    requires forall j | 0 <= j < |deferred| && j != k :: deferred[j].title != title
    ensures Without(deferred, title) == deferred[..k] + deferred[k + 1..]
  {
    var tail := deferred[1..];
    assert forall j | 0 <= j < |tail| :: tail[j] == deferred[j + 1];
    if k == 0 {
      WithoutNothing(tail, title);
    } else {
      WithoutInPlace(tail, title, k - 1);
      assert deferred[..k] == [deferred[0]] + tail[..k - 1] && deferred[k + 1..] == tail[k..];
    }
  }

  /** One stands before the other in the list. */
  ghost predicate StandsBefore(todo: seq<Request>, p: Request, q: Request)
  {
    exists a, b :: 0 <= a < b < |todo| && todo[a] == p && todo[b] == q
  }

  lemma ProcessAddsOne(file: AnswerFile, s: Injector, q: Request)
    requires q.title in s.meta
    ensures var t := Undefer(file, s, q);
            t.replies == s.replies || (|t.replies| == |s.replies| + 1 && s.replies <= t.replies
                                       && t.replies[|s.replies|].request == q)
  {
    hide Accepted;
  }

  lemma {:induction false} RepliesAreOfList(file: AnswerFile, s: Injector, todo: seq<Request>)
    ensures var replies := UndeferAll(file, s, todo).replies;
            s.replies <= replies && forall k | |s.replies| <= k < |replies| :: replies[k].request in todo
  {
    if todo != [] {
      var n := |todo| - 1;
      var r, q := UndeferAll(file, s, todo[..n]), todo[n];
      RepliesAreOfList(file, s, todo[..n]);
      if q.title in r.meta { ProcessAddsOne(file, r, q); }
      assert todo == todo[..n] + [q];
      hide Undefer;
    }
  }

  lemma StandsBeforeLonger(todo: seq<Request>, p: Request, q: Request, r: Request)
    ensures StandsBefore(todo, p, q) ==> StandsBefore(todo + [r], p, q)
    ensures p in todo ==> StandsBefore(todo + [r], p, r)
  {
    var all := todo + [r];
    if a, b :| 0 <= a < b < |todo| && todo[a] == p && todo[b] == q { assert all[a] == p && all[b] == q; }
    if p in todo {
      var a :| 0 <= a < |todo| && todo[a] == p;
      assert all[a] == p && all[|todo|] == r;
    }
  }

  lemma OneMoreToDo(file: AnswerFile, s: Injector, todo: seq<Request>)
    requires todo != []
    ensures var r, q := UndeferAll(file, s, todo[..|todo| - 1]), todo[|todo| - 1];
            var after := UndeferAll(file, s, todo);
            after.replies == r.replies
            || (|after.replies| == |r.replies| + 1 && r.replies <= after.replies
                && after.replies[|r.replies|].request == q)
  {
    var r, q := UndeferAll(file, s, todo[..|todo| - 1]), todo[|todo| - 1];
    if q.title in r.meta { ProcessAddsOne(file, r, q); }
    hide Undefer;
  }

  /** Metadata that resolves several deferred requests answers them in the order of the map. */
  lemma {:induction false} RepliesInMapOrder(file: AnswerFile, s: Injector, todo: seq<Request>, k: nat, l: nat)
    requires |s.replies| <= k < l < |UndeferAll(file, s, todo).replies|
    ensures var replies := UndeferAll(file, s, todo).replies;
            StandsBefore(todo, replies[k].request, replies[l].request)
  {
    hide UndeferAll, StandsBefore;
    if todo == [] {
      NothingToDo(file, s);
    } else {
      var n := |todo| - 1;
      var before, replies := UndeferAll(file, s, todo[..n]).replies, UndeferAll(file, s, todo).replies;
      assert todo == todo[..n] + [todo[n]];
      OneMoreToDo(file, s, todo);
      RepliesAreOfList(file, s, todo[..n]);
      StandsBeforeLonger(todo[..n], replies[k].request, replies[l].request, todo[n]);
      if l < |before| { RepliesInMapOrder(file, s, todo[..n], k, l); }
    }
  }

  lemma NothingToDo(file: AnswerFile, s: Injector)
    ensures UndeferAll(file, s, []) == s
  {
  }
}
