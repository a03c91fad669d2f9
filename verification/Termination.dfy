/**
 Deferred AppKit termination: one pending token shared by the admission callback, queued
 completions, deadlines and cancellations. Every lock section and every main-loop closure
 is one atomic step; what AppKit, the exit coordinator and the socket do is an input.
 */
module Termination {
  import opened Wrappers
  import opened ExitReceipts

  const TOKEN_MAX: nat := 0xFFFF_FFFF_FFFF_FFFF

  datatype Pending = Pending(token: nat, queued: bool)

  datatype PendingState = PendingState(last: nat, pending: Option<Pending>)

  datatype Admission = NewToken(token: nat) | PendingToken(token: nat)

  datatype Completion = Queue(token: nat) | AlreadyQueued | NoPending

  // ----- the token register -----

  function Admit(p: PendingState): (PendingState, Option<Admission>)
  {
    if p.pending.Some? then (p, Some(PendingToken(p.pending.value.token)))
    else if p.last >= TOKEN_MAX then (p, None)
    else (PendingState(p.last + 1, Some(Pending(p.last + 1, false))), Some(NewToken(p.last + 1)))
  }

  function QueueCompletion(p: PendingState): (PendingState, Completion)
  {
    if p.pending.None? then (p, NoPending)
    else if p.pending.value.queued then (p, AlreadyQueued)
    else (p.(pending := Some(p.pending.value.(queued := true))), Queue(p.pending.value.token))
  }

  function Consume(p: PendingState, token: nat): (PendingState, bool)
  {
    if p.pending.Some? && p.pending.value.token == token then (p.(pending := None), true) else (p, false)
  }

  function DispatchFailed(p: PendingState, token: nat): PendingState
  {
    if p.pending.Some? && p.pending.value.token == token then p.(pending := Some(Pending(token, false))) else p
  }

  /** The register behind the mutex. */
  class TokenRegister {
    var lastToken: nat
    var pending: Option<Pending>

    ghost function View(): PendingState
      reads this
    {
      PendingState(lastToken, pending)
    }

    constructor ()
      ensures View() == PendingState(0, None)
    {
      lastToken, pending := 0, None;
    }

    method AdmitRequest() returns (admission: Option<Admission>)
      modifies this
      ensures (View(), admission) == Admit(old(View()))
    {
      if pending.Some? {
        return Some(PendingToken(pending.value.token));
      }
      if lastToken + 1 > TOKEN_MAX {
        return None;
      }
      lastToken := lastToken + 1;
      pending := Some(Pending(lastToken, false));
      admission := Some(NewToken(lastToken));
    }

    method QueueOnce() returns (completion: Completion)
      modifies this
      ensures (View(), completion) == QueueCompletion(old(View()))
    {
      match pending {
        case None =>
          completion := NoPending;
        case Some(p) =>
          if p.queued {
            return AlreadyQueued;
          }
          pending := Some(p.(queued := true));
          completion := Queue(p.token);
      }
    }

    method ConsumeToken(token: nat) returns (consumed: bool)
      modifies this
      ensures (View(), consumed) == Consume(old(View()), token)
    {
      consumed := pending.Some? && pending.value.token == token;
      if consumed {
        pending := None;
      }
    }

    method CompletionDispatchFailed(token: nat)
      modifies this
      ensures View() == DispatchFailed(old(View()), token)
    {
      if pending.Some? && pending.value.token == token {
        pending := Some(pending.value.(queued := false));
      }
    }
  }

  // ----- the final decision -----

  datatype Decision = NativeYes | Tauri(code: int) | RestartOwned

  function FinishDecision(verified: bool, restarting: bool, code: int, sent: bool): Decision
  {
    if restarting then RestartOwned
    else if verified && code == 0 && sent then NativeYes
    else Tauri(if code == 0 && (!verified || !sent) then 1 else code)
  }

  /** A native yes needs everything; a failed cleanup or receipt never leaves with code zero. */
  lemma DecisionIsSafe(verified: bool, restarting: bool, code: int, sent: bool)
    ensures FinishDecision(verified, restarting, code, sent).NativeYes? <==> verified && !restarting && code == 0 && sent
    ensures FinishDecision(verified, restarting, code, sent).Tauri? ==>
              FinishDecision(verified, restarting, code, sent).code == if code == 0 then 1 else code
    ensures FinishDecision(verified, restarting, code, sent).RestartOwned? <==> restarting
  {
  }

  // ----- the whole system -----

  /** A native reply: the request AppKit was waiting on, the token of the closure that answered. */
  datatype Reply = Reply(outstanding: Option<nat>, author: nat, yes: bool, verified: bool, restarting: bool)

  /** A completion on its way: taken from the register, then posted to the main loop. */
  datatype Flight = Flight(code: int, posted: bool)

  /**
   `waiting` is the request AppKit answered "later" and still waits for, named by its token;
   `deferred` lists all requests so answered, `log` all replies.
   */
  datatype System = System(
    register: PendingState,
    waiting: Option<nat>,
    deferred: seq<nat>,
    log: seq<Reply>,
    flights: map<nat, Flight>,
    deadlines: set<nat>,
    reporter: Reporter,
    exited: bool)

  datatype Claim = Held | RestartClaim | Normal

  /** What the environment decides while a closure runs. */
  datatype Env = Env(recipient: bool, verified: bool, restarting: bool, code: int, written: bool, replyFails: bool, exits: bool)

  datatype Action =
    | ShouldTerminate(recipient: bool, restartRequested: bool, deadlineStarts: bool, shutdownPanics: bool)
    | Complete(code: int)
    | Dispatched(token: nat, posted: bool)
    | Finish(token: nat, claim: Claim, env: Env)
    | Deadline(token: nat, env: Env)
    | Cancel(env: Env)
    | ReportElsewhere(call: Call)

  function Token(p: PendingState): Option<nat>
  {
    if p.pending.Some? then Some(p.pending.value.token) else None
  }

  /** The admission callback: "later" defers the request, anything else answers it at once. */
  function OnShouldTerminate(s: System, recipient: bool, restartRequested: bool, deadlineStarts: bool, shutdownPanics: bool): System
  {
    if !recipient || restartRequested then s
    else
      var (p, admission) := Admit(s.register);
      if admission.None? || admission.value.PendingToken? then s
      else
        var token := admission.value.token;
        var s1 := if deadlineStarts then s.(deadlines := s.deadlines + {token}) else s;
        if !deadlineStarts || shutdownPanics then s1.(register := Consume(p, token).0)
        else s1.(register := p, waiting := Some(token), deferred := s.deferred + [token])
  }

  /** A native reply followed by consuming the token; a reply that fails changes nothing. */
  function AnswerAndConsume(s: System, token: nat, yes: bool, env: Env): System
  {
    if env.replyFails then s
    else if yes && env.exits then
      s.(waiting := None, log := s.log + [Reply(s.waiting, token, yes, env.verified, env.restarting)], exited := true)
    else
      s.(waiting := None, log := s.log + [Reply(s.waiting, token, yes, env.verified, env.restarting)],
         register := Consume(s.register, token).0)
  }

  function OnFinish(s: System, token: nat, claim: Claim, env: Env): System
  {
    var s1 := s.(flights := s.flights - {token});
    match claim
    case Held => s1.(register := DispatchFailed(s1.register, token))
    case RestartClaim => s1
    case Normal =>
      if !env.recipient || Token(s1.register) != Some(token) then s1
      else
        var eligible := env.verified && !env.restarting && env.code == 0;
        var (reporter, ok) := if eligible then Report(s1.reporter, Call(Verdict(0, true, false), env.written)) else (s1.reporter, true);
        var decision := FinishDecision(env.verified, env.restarting, env.code, ok);
        AnswerAndConsume(s1.(reporter := reporter), token, decision.NativeYes?, env)
  }

  function Step(s: System, a: Action): System
  {
    if s.exited then s
    else match a
      case ShouldTerminate(recipient, restartRequested, deadlineStarts, shutdownPanics) =>
        OnShouldTerminate(s, recipient, restartRequested, deadlineStarts, shutdownPanics)
      case Complete(code) =>
        var (p, completion) := QueueCompletion(s.register);
        if completion.Queue? then s.(register := p, flights := s.flights[completion.token := Flight(code, false)]) else s
      case Dispatched(token, posted) =>
        if token !in s.flights || s.flights[token].posted then s
        else if posted then s.(flights := s.flights[token := s.flights[token].(posted := true)])
        else s.(flights := s.flights - {token}, register := DispatchFailed(s.register, token))
      case Finish(token, claim, env) =>
        if token in s.flights && s.flights[token].posted then OnFinish(s, token, claim, env) else s
      case Deadline(token, env) =>
        if token !in s.deadlines then s
        else
          var s1 := s.(deadlines := s.deadlines - {token});
          if Token(s.register) != Some(token) || !env.recipient then s1 else AnswerAndConsume(s1, token, false, env)
      case Cancel(env) =>
        if Token(s.register).None? || !env.recipient then s else AnswerAndConsume(s, Token(s.register).value, false, env)
      case ReportElsewhere(call) => s.(reporter := Report(s.reporter, call).0)
  }

  function Start(bootstrap: Option<Bootstrap>): System
  {
    System(PendingState(0, None), None, [], [], map[], {}, New(bootstrap), false)
  }

  function Run(s: System, actions: seq<Action>): System
  {
    if actions == [] then s else Step(Run(s, actions[..|actions| - 1]), actions[|actions| - 1])
  }

  // ----- invariants of every run -----

  ghost predicate Increasing(ts: seq<nat>)
  {
    forall i, j :: 0 <= i < j < |ts| ==> ts[i] < ts[j]
  }

  function Answered(log: seq<Reply>): seq<nat>
  {
    seq(|log|, i requires 0 <= i < |log| => log[i].author)
  }

  ghost predicate YesEarned(r: Reply, reporter: Reporter)
  {
    r.yes ==>
      && r.verified && !r.restarting
      && (reporter.bootstrap.Some? ==> reporter.delivered == Some(Verdict(0, true, false)))
  }

  /** While the process lives, AppKit waits exactly on the pending token. */
  ghost predicate Waits(s: System)
  {
    s.waiting == if s.exited then None else Token(s.register)
  }

  /** Every deferred request has been answered once, in order, except the one still pending. */
  ghost predicate Ledger(s: System)
  {
    && s.deferred == Answered(s.log) + (if s.waiting.Some? then [s.waiting.value] else [])
    && Increasing(s.deferred)
    && (forall t :: t in s.deferred ==> 0 < t <= s.register.last)
    && s.register.last <= TOKEN_MAX
    && (s.register.pending.Some? ==> 0 < s.register.pending.value.token == s.register.last)
  }

  /** No reply by a stale token, and no unearned yes. */
  ghost predicate RepliesSound(s: System)
  {
    forall i :: 0 <= i < |s.log| ==> s.log[i].outstanding == Some(s.log[i].author) && YesEarned(s.log[i], s.reporter)
  }

  /** At most one completion is under way for the pending token, and only while it is queued. */
  ghost predicate SingleFlight(s: System)
  {
    && (forall t :: t in s.flights ==> 0 < t <= s.register.last)
    && (s.register.pending.Some? && s.register.pending.value.token in s.flights ==> s.register.pending.value.queued)
  }

  ghost predicate Inv(s: System)
  {
    Waits(s) && Ledger(s) && RepliesSound(s) && SingleFlight(s)
  }

  lemma ReportKeepsDelivery(r: Reporter, c: Call)
    ensures Report(r, c).0.bootstrap.Some? == r.bootstrap.Some?
    ensures r.delivered.Some? ==> Report(r, c).0.delivered == r.delivered
    ensures Report(r, c).1 && r.bootstrap.Some? ==> Report(r, c).0.delivered == Some(c.verdict)
  {
  }

  lemma AnswerKeeps(s: System, token: nat, yes: bool, env: Env)
    requires Inv(s) && !s.exited && Token(s.register) == Some(token)
    requires YesEarned(Reply(Some(token), token, yes, env.verified, env.restarting), s.reporter)
    ensures Inv(AnswerAndConsume(s, token, yes, env))
  {
    if !env.replyFails {
      var s' := AnswerAndConsume(s, token, yes, env);
      assert Answered(s'.log) == Answered(s.log) + [token];
      assert Answered(s'.log) + [] == s.deferred;
    }
  }

  lemma AdmissionKeeps(s: System, recipient: bool, restartRequested: bool, deadlineStarts: bool, shutdownPanics: bool)
    requires Inv(s) && !s.exited
    ensures Inv(OnShouldTerminate(s, recipient, restartRequested, deadlineStarts, shutdownPanics))
  {
    var s' := OnShouldTerminate(s, recipient, restartRequested, deadlineStarts, shutdownPanics);
    if s'.deferred != s.deferred {
      assert s.deferred == Answered(s.log);
      assert forall i :: 0 <= i < |s.deferred| ==> s.deferred[i] in s.deferred;
    }
  }

  lemma FinishKeeps(s: System, token: nat, claim: Claim, env: Env)
    requires Inv(s) && !s.exited && token in s.flights
    ensures Inv(OnFinish(s, token, claim, env))
  {
    var s1 := s.(flights := s.flights - {token});
    assert Inv(s1);
    if claim.Normal? && env.recipient && Token(s1.register) == Some(token) {
      var eligible := env.verified && !env.restarting && env.code == 0;
      var call := Call(Verdict(0, true, false), env.written);
      ReportKeepsDelivery(s1.reporter, call);
      var (reporter, ok) := if eligible then Report(s1.reporter, call) else (s1.reporter, true);
      var s2 := s1.(reporter := reporter);
      assert Inv(s2);
      DecisionIsSafe(env.verified, env.restarting, env.code, ok);
      AnswerKeeps(s2, token, FinishDecision(env.verified, env.restarting, env.code, ok).NativeYes?, env);
    }
  }

  lemma StepKeeps(s: System, a: Action)
    requires Inv(s)
    ensures Inv(Step(s, a))
  {
    if !s.exited {
      match a {
        case ShouldTerminate(recipient, restartRequested, deadlineStarts, shutdownPanics) =>
          AdmissionKeeps(s, recipient, restartRequested, deadlineStarts, shutdownPanics);
        case Complete(code) =>
        case Dispatched(token, posted) =>
        case Finish(token, claim, env) =>
          if token in s.flights { FinishKeeps(s, token, claim, env); }
        case Deadline(token, env) =>
          if token in s.deadlines && Token(s.register) == Some(token) && env.recipient {
            var s1 := s.(deadlines := s.deadlines - {token});
            assert Inv(s1);
            AnswerKeeps(s1, token, false, env);
          }
        case Cancel(env) =>
          if Token(s.register).Some? && env.recipient { AnswerKeeps(s, Token(s.register).value, false, env); }
        case ReportElsewhere(call) =>
          ReportKeepsDelivery(s.reporter, call);
      }
    }
  }

  /** The invariant holds in every state of every run. */
  lemma {:induction false} RunKeeps(bootstrap: Option<Bootstrap>, actions: seq<Action>)
    ensures Inv(Run(Start(bootstrap), actions))
    decreases |actions|
  {
    if actions != [] {
      RunKeeps(bootstrap, actions[..|actions| - 1]);
      StepKeeps(Run(Start(bootstrap), actions[..|actions| - 1]), actions[|actions| - 1]);
    } else {
      assert Answered([]) == [];
    }
  }

  // ----- what the invariant means -----

  /** AppKit waits exactly while a token is pending, and on that very token. */
  lemma {:induction false} WaitsExactlyWhilePending(bootstrap: Option<Bootstrap>, actions: seq<Action>)
    ensures var s := Run(Start(bootstrap), actions);
            !s.exited ==> s.waiting == Token(s.register)
  {
    RunKeeps(bootstrap, actions);
  }

  /** Tokens of deferred requests strictly increase and stay below the wrap-around. */
  lemma TokensIncrease(bootstrap: Option<Bootstrap>, actions: seq<Action>, i: nat, j: nat)
    requires i < j < |Run(Start(bootstrap), actions).deferred|
    ensures 0 < Run(Start(bootstrap), actions).deferred[i] < Run(Start(bootstrap), actions).deferred[j] <= TOKEN_MAX
  {
    RunKeeps(bootstrap, actions);
    var s := Run(Start(bootstrap), actions);
    assert s.deferred[i] in s.deferred && s.deferred[j] in s.deferred;
  }

  /** No request is answered twice, and every answer comes from its own token. */
  lemma RepliesOnce(bootstrap: Option<Bootstrap>, actions: seq<Action>, i: nat, j: nat)
    requires i < j < |Run(Start(bootstrap), actions).log|
    ensures var log := Run(Start(bootstrap), actions).log;
            && log[i].outstanding == Some(log[i].author) && log[j].outstanding == Some(log[j].author)
            && log[i].outstanding != log[j].outstanding
  {
    RunKeeps(bootstrap, actions);
    var s := Run(Start(bootstrap), actions);
    assert s.deferred[i] == s.log[i].author && s.deferred[j] == s.log[j].author;
  }

  /** With a launch owner, a native yes means the clean receipt was delivered, and it alone was ever written. */
  lemma YesNeedsReceipt(b: Bootstrap, actions: seq<Action>, i: nat)
    requires !b.reported && b.attempts == []
    requires i < |Run(Start(Some(b)), actions).log| && Run(Start(Some(b)), actions).log[i].yes
    ensures var s := Run(Start(Some(b)), actions);
            && s.log[i].verified && !s.log[i].restarting
            && s.reporter.delivered == Some(Verdict(0, true, false))
            && Attempts(s.reporter) == [Receipt("shutdown_verified", b.nonce, Verdict(0, true, false))]
  {
    RunKeeps(Some(b), actions);
    var calls := CallsOf(Start(Some(b)), actions);
    ReporterIsRun(Some(b), actions);
    OneAttempt(b, calls);
    var s := Run(Start(Some(b)), actions);
    assert YesEarned(s.log[i], s.reporter);
    assert s.reporter == ExitReceipts.Run(New(Some(b)), calls);
    if calls != [] { FirstCallDecides(b, calls); }
  }

  /** The reports a step makes. */
  function CallOf(s: System, a: Action): seq<Call>
  {
    if s.exited then []
    else if a.ReportElsewhere? then [a.call]
    else if a.Finish? && a.token in s.flights && s.flights[a.token].posted && a.claim.Normal? && a.env.recipient
            && Token(s.register) == Some(a.token) && a.env.verified && !a.env.restarting && a.env.code == 0
    then [Call(Verdict(0, true, false), a.env.written)]
    else []
  }

  function CallsOf(s: System, actions: seq<Action>): seq<Call>
  {
    if actions == [] then []
    else
      var front := actions[..|actions| - 1];
      CallsOf(s, front) + CallOf(Run(s, front), actions[|actions| - 1])
  }

  lemma StepReports(s: System, a: Action)
    ensures |CallOf(s, a)| <= 1
    ensures Step(s, a).reporter == if CallOf(s, a) == [] then s.reporter else Report(s.reporter, CallOf(s, a)[0]).0
  {
  }

  lemma RunSnoc(r: Reporter, calls: seq<Call>, more: seq<Call>)
    requires |more| <= 1
    ensures ExitReceipts.Run(r, calls + more) ==
            if more == [] then ExitReceipts.Run(r, calls) else Report(ExitReceipts.Run(r, calls), more[0]).0
  {
    var all := calls + more;
    if more == [] {
      assert all == calls;
    } else {
      assert all[..|all| - 1] == calls;
    }
  }

  lemma {:induction false} ReporterIsRun(bootstrap: Option<Bootstrap>, actions: seq<Action>)
    ensures Run(Start(bootstrap), actions).reporter == ExitReceipts.Run(New(bootstrap), CallsOf(Start(bootstrap), actions))
    decreases |actions|
  {
    if actions != [] {
      var front := actions[..|actions| - 1];
      ReporterIsRun(bootstrap, front);
      var s, a := Run(Start(bootstrap), front), actions[|actions| - 1];
      StepReports(s, a);
      RunSnoc(New(bootstrap), CallsOf(Start(bootstrap), front), CallOf(s, a));
    }
  }
}
