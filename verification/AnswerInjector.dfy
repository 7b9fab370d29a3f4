/** The answer injector as the object it is. Every method is proved to do what the function of the
    same name in Answers does to the object's state, and those that others call keep the account of
    every request. */
module AnswerInjector {
  import opened Wrappers
  import opened Answers

  lemma SoundCounts(s: Injector)
    requires Sound(s)
    ensures |s.offered| == s.answered + s.defaulted + |s.timers|
  {
  }

  lemma HandedBackIsNotHandled(file: AnswerFile, s: Injector, q: Request)
    requires Sound(s) && q.serial == |s.offered|
    ensures var (t, handled) := Answers.TryHandle(file, s, q);
            && (handled <==> q !in t.handedBack) && t.offered == s.offered + [q]
            && |t.offered| == t.answered + t.defaulted + |t.timers|
  {
    NewRequest(s, q);
    assert Places(s, q) == Unit(q in s.offered);
    TryHandleKeeps(file, s, q);
  }

  lemma ObserveOffersNothing(file: AnswerFile, s: Injector, questions: seq<Question>)
    requires Sound(s)
    ensures var t := Answers.ObserveEvent(file, s, questions);
            t.offered == s.offered && |t.offered| == t.answered + t.defaulted + |t.timers|
  {
    var s' := s.(meta := Learn(s.meta, questions));
    AccountedIgnores(s, s');
    UndeferAllKeeps(file, s', |s'.deferred|);
    assert s'.deferred[..|s'.deferred|] == s'.deferred;
  }

  class AnswerInjector {
    const answerFile: AnswerFile
    var questionMetaByTitle: map<string, Meta>
    var deferredEvents: seq<Request>
    var timers: set<Request>
    var questionsAnswered: nat
    var questionsDefaulted: nat
    var replies: seq<Reply>
    ghost var offered: seq<Request>
    ghost var handedBack: set<Request>
    ghost var dropped: set<Request>

    ghost function View(): Injector
      reads this
    {
      Injector(questionMetaByTitle, deferredEvents, timers, questionsAnswered, questionsDefaulted, replies,
               offered, handedBack, dropped)
    }

    /** Every request offered is live, answered, handed back or dropped, each once, and the
        statistics count them all. */
    ghost predicate Valid()
      reads this
    {
      Sound(View())
    }

    constructor (answerFile: AnswerFile)
      ensures Valid() && View() == FRESH && this.answerFile == answerFile
    {
      this.answerFile := answerFile;
      questionMetaByTitle, deferredEvents, timers := map[], [], {};
      questionsAnswered, questionsDefaulted, replies := 0, 0, [];
      offered, handedBack, dropped := [], {}, {};
      RunKeeps(answerFile, []);
    }

    /** The reply that the file allows. */
    method AcceptedAnswer(meta: Meta, q: Request) returns (body: Option<Body>)
      ensures body == Accepted(answerFile, meta, q)
    {
      var matched := FindConfiguredQuestionAnswer(answerFile, meta.id);
      if matched.None? { return None; }
      var answer := matched.value.answer;
      body := None;
      if meta.allowMultiple {
        var values := if answer.Many? then answer.values else [answer.value];
        if forall v | v in values :: q.Offers(v) { body := Some(ChosenMany(values)); }
      } else if answer.One? {
        if q.Offers(answer.value) { body := Some(Chosen(answer.value)); }
      } else if answer.values != [] && q.Offers(answer.values[0]) {
        body := Some(Chosen(answer.values[0]));
      }
    }

    method ProcessWithMeta(q: Request) returns (handled: bool)
      requires q.title in questionMetaByTitle
      modifies this`replies, this`questionsAnswered, this`questionsDefaulted
      ensures (View(), handled) == Answers.ProcessWithMeta(answerFile, old(View()), q)
    {
      hide Accepted;
      var body := AcceptedAnswer(questionMetaByTitle[q.title], q);
      if body.Some? {
        replies := replies + [Reply(q, body.value, true)];
        questionsAnswered := questionsAnswered + 1;
        return true;
      }
      questionsDefaulted := questionsDefaulted + 1;
      if answerFile.strategy == CancelRequest {
        replies := replies + [Reply(q, Cancelled, false)];
        return true;
      }
      return false;
    }

    /** The metadata of a deferred request has come. */
    method Undefer(q: Request)
      requires q.title in questionMetaByTitle
      modifies this
      ensures View() == Answers.Undefer(answerFile, old(View()), q)
    {
      hide Answers.ProcessWithMeta;
      timers, deferredEvents := timers - {q}, Without(deferredEvents, q.title);
      var handled := ProcessWithMeta(q);
      if !handled { dropped := dropped + {q}; }
    }

    /** A request that is not handled is the caller's; any other is answered or under its timer. */
    method TryHandle(q: Request) returns (handled: bool)
      requires Valid() && q.serial == |offered|
      modifies this
      ensures Valid() && offered == old(offered) + [q]
      ensures handled <==> q !in handedBack
      ensures |offered| == questionsAnswered + questionsDefaulted + |timers|
      ensures (View(), handled) == Answers.TryHandle(answerFile, old(View()), q)
    {
      hide Answers.ProcessWithMeta, Sound;
      TryHandleKeeps(answerFile, View(), q);
      HandedBackIsNotHandled(answerFile, View(), q);
      offered := offered + [q];
      if q.title in questionMetaByTitle {
        handled := ProcessWithMeta(q);
        if !handled { handedBack := handedBack + {q}; }
        return;
      }
      timers := timers + {q};
      deferredEvents := Put(deferredEvents, q);
      return true;
    }

    method ObserveEvent(questions: seq<Question>)
      requires Valid()
      modifies this
      ensures Valid() && offered == old(offered)
      ensures |offered| == questionsAnswered + questionsDefaulted + |timers|
      ensures View() == Answers.ObserveEvent(answerFile, old(View()), questions)
    {
      hide Sound;
      ObserveKeeps(answerFile, View(), questions);
      ObserveOffersNothing(answerFile, View(), questions);
      LearnQuestions(questions);
      var todo, n := deferredEvents, |deferredEvents|;
      ghost var learned := View();
      for i := 0 to n
        invariant View() == UndeferAll(answerFile, learned, todo[..i])
      {
        assert todo[..i + 1][..i] == todo[..i];
        hide Answers.Undefer;
        if todo[i].title in questionMetaByTitle { Undefer(todo[i]); }
      }
      assert todo[..n] == todo;
    }

    method LearnQuestions(questions: seq<Question>)
      modifies this`questionMetaByTitle
      ensures questionMetaByTitle == Learn(old(questionMetaByTitle), questions)
    {
      for i := 0 to |questions|
        invariant questionMetaByTitle == Learn(old(questionMetaByTitle), questions[..i])
      {
        assert questions[..i + 1][..i] == questions[..i];
        questionMetaByTitle := questionMetaByTitle[questions[i].title := questions[i].meta];
      }
      assert questions[..|questions|] == questions;
    }

    /** The callback of the timer that was set for `q`. */
    method TimerFires(q: Request)
      requires Valid() && q in timers
      modifies this
      ensures Valid() && offered == old(offered) && q !in timers && |replies| == |old(replies)| + 1
      ensures |offered| == questionsAnswered + questionsDefaulted + |timers|
      ensures View() == Fire(answerFile, old(View()), q)
    {
      hide Sound;
      FireKeeps(answerFile, View(), q);
      SoundCounts(Fire(answerFile, View(), q));
      timers, deferredEvents := timers - {q}, Without(deferredEvents, q.title);
      questionsDefaulted := questionsDefaulted + 1;
      if answerFile.strategy == CancelRequest {
        replies := replies + [Reply(q, Cancelled, false)];
      } else {
        var first := if q.options.Some? && q.options.value != [] then q.options.value[0] else "";
        replies := replies + [Reply(q, Chosen(first), false)];
      }
    }
  }
}
