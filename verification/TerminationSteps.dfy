/** What each step of a termination run does: which request is deferred, and how it is answered. */
module TerminationSteps {
  import opened Wrappers
  import opened ExitReceipts
  import opened Termination

  ghost function Reached(bootstrap: Option<Bootstrap>, actions: seq<Action>): System
  {
    Termination.Run(Start(bootstrap), actions)
  }

  lemma OneMore(bootstrap: Option<Bootstrap>, actions: seq<Action>, a: Action)
    ensures Reached(bootstrap, actions + [a]) == Step(Reached(bootstrap, actions), a)
  {
    assert (actions + [a])[..|actions|] == actions;
  }

  // ----- the reporter -----

  /** The terminal attempt has not both failed and delivered. */
  predicate Settled(r: Reporter)
  {
    !(r.failed && r.delivered.Some?)
  }

  lemma ReportMeans(r: Reporter, c: Call)
    requires Settled(r)
    ensures Settled(Report(r, c).0) && Report(r, c).0.bootstrap.Some? == r.bootstrap.Some?
    ensures Report(r, c).1 <==> r.bootstrap.None? || Report(r, c).0.delivered == Some(c.verdict)
  {
  }

  lemma {:induction false} ReporterSettled(bootstrap: Option<Bootstrap>, actions: seq<Action>)
    ensures Settled(Reached(bootstrap, actions).reporter)
    ensures Reached(bootstrap, actions).reporter.bootstrap.Some? == bootstrap.Some?
    decreases |actions|
  {
    if actions != [] {
      var front, a := actions[..|actions| - 1], actions[|actions| - 1];
      ReporterSettled(bootstrap, front);
      var s := Reached(bootstrap, front);
      StepReports(s, a);
      if CallOf(s, a) != [] {
        ReportMeans(s.reporter, CallOf(s, a)[0]);
      }
    }
  }

  // ----- the answer of a finished cleanup -----

  const CLEAN: Verdict := Verdict(0, true, false)

  /** Everything a native yes needs, in terms of the closure's inputs and the delivered receipt. */
  predicate Earned(bootstrap: Option<Bootstrap>, env: Env, delivered: Option<Verdict>)
  {
    && env.verified && !env.restarting && env.code == 0
    && (bootstrap.None? || delivered == Some(CLEAN))
  }

  /** Exactly one reply is added, it answers the request AppKit waits on, and it is yes exactly when earned. */
  lemma FinishAnswers(bootstrap: Option<Bootstrap>, actions: seq<Action>, token: nat, env: Env)
    requires var s := Reached(bootstrap, actions);
             && !s.exited && Termination.Token(s.register) == Some(token)
             && token in s.flights && s.flights[token].posted
    requires env.recipient && !env.replyFails
    ensures var s, s' := Reached(bootstrap, actions), Reached(bootstrap, actions + [Finish(token, Normal, env)]);
            var yes := Earned(bootstrap, env, s'.reporter.delivered);
            && s'.log == s.log + [Reply(Some(token), token, yes, env.verified, env.restarting)]
            && s'.waiting == None && s'.deferred == s.deferred
            && (s'.exited <==> yes && env.exits)
            && (!s'.exited ==> Termination.Token(s'.register).None?)
  {
    var s := Reached(bootstrap, actions);
    RunKeeps(bootstrap, actions);
    ReporterSettled(bootstrap, actions);
    OneMore(bootstrap, actions, Finish(token, Normal, env));
    ReportMeans(s.reporter, Call(CLEAN, env.written));
  }

  lemma Unreported(b: Bootstrap, actions: seq<Action>)
    requires !b.reported && b.attempts == [] && !Started(Reached(Some(b), actions).reporter)
    ensures Reached(Some(b), actions).reporter == New(Some(b))
  {
    ReporterIsRun(Some(b), actions);
    StartedByFirstCall(b, CallsOf(Start(Some(b)), actions));
  }

  /** Before any other report, an eligible cleanup's receipt is delivered exactly when it is written. */
  lemma FirstReportDelivers(b: Bootstrap, actions: seq<Action>, token: nat, env: Env)
    requires !b.reported && b.attempts == []
    requires var s := Reached(Some(b), actions);
             && !s.exited && Termination.Token(s.register) == Some(token)
             && token in s.flights && s.flights[token].posted && !Started(s.reporter)
    requires env.recipient && !env.replyFails && env.verified && !env.restarting && env.code == 0
    ensures var s, s' := Reached(Some(b), actions), Reached(Some(b), actions + [Finish(token, Normal, env)]);
            s'.log == s.log + [Reply(Some(token), token, env.written, true, false)]
  {
    Unreported(b, actions);
    FinishAnswers(Some(b), actions, token, env);
    OneMore(Some(b), actions, Finish(token, Normal, env));
  }

  // ----- the steps before it -----

  /** A request is deferred exactly when nothing stands in its way, under a token never used before; nothing is answered. */
  lemma RequestDeferred(bootstrap: Option<Bootstrap>, actions: seq<Action>, recipient: bool, restartRequested: bool,
                        deadlineStarts: bool, shutdownPanics: bool)
    requires !Reached(bootstrap, actions).exited
    ensures var s := Reached(bootstrap, actions);
            var s' := Reached(bootstrap, actions + [ShouldTerminate(recipient, restartRequested, deadlineStarts, shutdownPanics)]);
            var t := s.register.last + 1;
            var accepted := recipient && !restartRequested && deadlineStarts && !shutdownPanics
                            && Termination.Token(s.register).None? && t <= TOKEN_MAX;
            && s'.log == s.log && s'.flights == s.flights && !s'.exited
            && s'.deferred == (if accepted then s.deferred + [t] else s.deferred)
            && s'.waiting == (if accepted then Some(t) else s.waiting)
            && (accepted ==> t !in s.deferred && t !in s.flights && t in s'.deadlines
                             && s'.register.pending == Some(Pending(t, false)))
  {
    RunKeeps(bootstrap, actions);
    OneMore(bootstrap, actions, ShouldTerminate(recipient, restartRequested, deadlineStarts, shutdownPanics));
  }

  /** A completion for a pending token is queued once. */
  lemma CompletionQueued(bootstrap: Option<Bootstrap>, actions: seq<Action>, token: nat, code: int)
    requires var s := Reached(bootstrap, actions); !s.exited && s.register.pending == Some(Pending(token, false))
    ensures var s, s' := Reached(bootstrap, actions), Reached(bootstrap, actions + [Complete(code)]);
            s' == s.(register := s.register.(pending := Some(Pending(token, true))), flights := s.flights[token := Flight(code, false)])
            && Reached(bootstrap, actions + [Complete(code)] + [Complete(code)]) == s'
  {
    OneMore(bootstrap, actions, Complete(code));
    OneMore(bootstrap, actions + [Complete(code)], Complete(code));
  }

  /** A queued completion is posted, or else may be queued again. */
  lemma CompletionDispatched(bootstrap: Option<Bootstrap>, actions: seq<Action>, token: nat, code: int, posted: bool)
    requires var s := Reached(bootstrap, actions);
             !s.exited && Termination.Token(s.register) == Some(token) && token in s.flights && s.flights[token] == Flight(code, false)
    ensures var s, s' := Reached(bootstrap, actions), Reached(bootstrap, actions + [Dispatched(token, posted)]);
            s' == if posted then s.(flights := s.flights[token := Flight(code, true)])
                  else s.(flights := s.flights - {token}, register := s.register.(pending := Some(Pending(token, false))))
  {
    OneMore(bootstrap, actions, Dispatched(token, posted));
  }

  /** The action is the deadline of this token, or a cancellation. */
  predicate GivesUp(s: System, token: nat, a: Action)
  {
    (a.Deadline? && a.token == token && token in s.deadlines) || a.Cancel?
  }

  /** A deadline or a cancellation answers no, and frees the token. */
  lemma GivingUpAnswersNo(bootstrap: Option<Bootstrap>, actions: seq<Action>, token: nat, a: Action)
    requires var s := Reached(bootstrap, actions);
             !s.exited && Termination.Token(s.register) == Some(token) && GivesUp(s, token, a)
    requires a.env.recipient && !a.env.replyFails
    ensures var s, s' := Reached(bootstrap, actions), Reached(bootstrap, actions + [a]);
            && s'.log == s.log + [Reply(Some(token), token, false, a.env.verified, a.env.restarting)]
            && s'.waiting == None && s'.deferred == s.deferred && !s'.exited && Termination.Token(s'.register).None?
  {
    RunKeeps(bootstrap, actions);
    OneMore(bootstrap, actions, a);
  }

  /** From an idle state: request, completion, dispatch and closure give exactly one new request and its one answer. */
  lemma WholeRequest(bootstrap: Option<Bootstrap>, actions: seq<Action>, code: int, env: Env)
    requires var s := Reached(bootstrap, actions);
             !s.exited && Termination.Token(s.register).None? && s.register.last < TOKEN_MAX
    requires env.recipient && !env.replyFails
    ensures var s := Reached(bootstrap, actions);
            var t := s.register.last + 1;
            var s' := Reached(bootstrap, actions + [ShouldTerminate(true, false, true, false)] + [Complete(code)]
                                         + [Dispatched(t, true)] + [Finish(t, Normal, env)]);
            && s'.deferred == s.deferred + [t]
            && s'.log == s.log + [Reply(Some(t), t, Earned(bootstrap, env, s'.reporter.delivered), env.verified, env.restarting)]
  {
    var t := Reached(bootstrap, actions).register.last + 1;
    RequestDeferred(bootstrap, actions, true, false, true, false);
    var asked := actions + [ShouldTerminate(true, false, true, false)];
    CompletionQueued(bootstrap, asked, t, code);
    var queued := asked + [Complete(code)];
    CompletionDispatched(bootstrap, queued, t, code, true);
    FinishAnswers(bootstrap, queued + [Dispatched(t, true)], t, env);
  }
}
