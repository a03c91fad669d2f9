/** The one-shot exit receipt that an application sends to its launch controller. */
module ExitReceipts {
  import opened Wrappers

  datatype Scope = DesktopDevelopment | BrowserMediaAudit | BrowserCompatibilityAudit | AppkitMainLoopAudit

  /** Exit code, cleanup verified, restart requested. */
  datatype Verdict = Verdict(code: int, cleanup: bool, restart: bool)

  datatype Receipt = Receipt(event: string, nonce: string, verdict: Verdict)

  /** The control socket's owner; `attempts` lists the frames it tried to write. */
  datatype Bootstrap = Bootstrap(nonce: string, scope: Scope, reported: bool, attempts: seq<Receipt>)

  datatype Reporter = Reporter(bootstrap: Option<Bootstrap>, delivered: Option<Verdict>, failed: bool)

  datatype Call = Call(verdict: Verdict, written: bool)

  predicate MayAsk(scope: Scope, v: Verdict)
  {
    v.restart ==> scope.DesktopDevelopment? && v.code == 0 && v.cleanup
  }

  function New(bootstrap: Option<Bootstrap>): Reporter
  {
    Reporter(bootstrap, None, false)
  }

  function Send(b: Bootstrap, c: Call): (Bootstrap, bool)
  {
    if b.reported then (b, false)
    else if !MayAsk(b.scope, c.verdict) then (b.(reported := true), false)
    else (b.(reported := true, attempts := b.attempts + [Receipt("shutdown_verified", b.nonce, c.verdict)]), c.written)
  }

  function Report(r: Reporter, c: Call): (Reporter, bool)
  {
    if r.bootstrap.None? then (r, true)
    else if r.failed then (r, false)
    else if r.delivered.Some? then (r, r.delivered.value == c.verdict)
    else
      var (b, ok) := Send(r.bootstrap.value, c);
      (Reporter(Some(b), if ok then Some(c.verdict) else None, !ok), ok)
  }

  /** The shared reporter, one lock section per call; poisoning is not modelled. */
  class ExitReporter {
    var bootstrap: Option<Bootstrap>
    var delivered: Option<Verdict>
    var deliveryFailed: bool

    ghost function View(): Reporter
      reads this
    {
      Reporter(bootstrap, delivered, deliveryFailed)
    }

    constructor (bootstrap: Option<Bootstrap>)
      ensures View() == New(bootstrap)
    {
      this.bootstrap, delivered, deliveryFailed := bootstrap, None, false;
    }

    method ReportExitOnce(verdict: Verdict, written: bool) returns (ok: bool)
      modifies this
      ensures (View(), ok) == Report(old(View()), Call(verdict, written))
    {
      if bootstrap.None? {
        return true;
      }
      if deliveryFailed {
        return false;
      }
      if delivered.Some? {
        return delivered.value == verdict;
      }
      // The one send attempt is committed before anything is written.
      deliveryFailed := true;
      var (sent, result) := Send(bootstrap.value, Call(verdict, written));
      bootstrap := Some(sent);
      if !result {
        return false;
      }
      delivered := Some(verdict);
      deliveryFailed := false;
      ok := true;
    }

    method TerminalAttemptStarted() returns (started: bool)
      ensures started <==> Started(View())
    {
      started := deliveryFailed || delivered.Some?;
    }
  }

  predicate Started(r: Reporter)
  {
    r.failed || r.delivered.Some?
  }

  // ----- whole call sequences -----

  ghost function Run(r: Reporter, calls: seq<Call>): Reporter
  {
    if calls == [] then r else Report(Run(r, calls[..|calls| - 1]), calls[|calls| - 1]).0
  }

  /** The answer of the last call. */
  ghost function Answer(r: Reporter, calls: seq<Call>): bool
    requires calls != []
  {
    Report(Run(r, calls[..|calls| - 1]), calls[|calls| - 1]).1
  }

  /** The frames handed to the socket so far. */
  function Attempts(r: Reporter): seq<Receipt>
  {
    if r.bootstrap.None? then [] else r.bootstrap.value.attempts
  }

  /** The first call wins: it may ask for what it asks, and its frame is written. */
  predicate Wins(scope: Scope, c: Call)
  {
    MayAsk(scope, c.verdict) && c.written
  }

  /** Write-once register: the first call decides the state for ever. */
  lemma {:induction false} FirstCallDecides(b: Bootstrap, calls: seq<Call>)
    requires !b.reported && b.attempts == [] && calls != []
    ensures var r := Run(New(Some(b)), calls);
            && r.bootstrap.Some?
            && r.delivered == (if Wins(b.scope, calls[0]) then Some(calls[0].verdict) else None)
            && r.failed == !Wins(b.scope, calls[0])
            && r.bootstrap.value == Send(b, calls[0]).0
    decreases |calls|
  {
    if |calls| == 1 {
      assert calls[..0] == [];
    } else {
      FirstCallDecides(b, calls[..|calls| - 1]);
    }
  }

  /** A later call succeeds only with the delivered verdict, and never after a failed attempt. */
  lemma AnswersAgree(b: Bootstrap, calls: seq<Call>)
    requires !b.reported && b.attempts == [] && calls != []
    ensures Answer(New(Some(b)), calls) <==> Wins(b.scope, calls[0]) && calls[|calls| - 1].verdict == calls[0].verdict
  {
    if |calls| == 1 {
      assert calls[..0] == [];
    } else {
      FirstCallDecides(b, calls[..|calls| - 1]);
    }
  }

  /** At most one frame is ever attempted, and it carries the first call's verdict. */
  lemma {:induction false} OneAttempt(b: Bootstrap, calls: seq<Call>)
    requires !b.reported && b.attempts == []
    ensures var r := Run(New(Some(b)), calls);
            && |Attempts(r)| <= 1
            && (r.delivered.Some? ==> Attempts(r) == [Receipt("shutdown_verified", b.nonce, r.delivered.value)])
            && (Attempts(r) != [] ==> calls != [] && Attempts(r)[0].verdict == calls[0].verdict && MayAsk(b.scope, calls[0].verdict))
  {
    if calls != [] {
      FirstCallDecides(b, calls);
    }
  }

  /** With an owner, the terminal attempt counts as started exactly from the first call on. */
  lemma {:induction false} StartedByFirstCall(b: Bootstrap, calls: seq<Call>)
    requires !b.reported && b.attempts == []
    ensures Started(Run(New(Some(b)), calls)) <==> calls != []
  {
    if calls != [] {
      FirstCallDecides(b, calls);
    }
  }
}
