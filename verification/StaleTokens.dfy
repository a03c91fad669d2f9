/** Tokens that were answered or dropped: they never come back and never act again. */
module StaleTokens {
  import opened Wrappers
  import opened ExitReceipts
  import opened Termination

  /** The token was issued and is not the pending one. */
  predicate Stale(s: System, token: nat)
  {
    0 < token <= s.register.last && Token(s.register) != Some(token)
  }

  lemma StaleStays(s: System, a: Action, token: nat)
    requires Inv(s) && Stale(s, token)
    ensures Stale(Step(s, a), token)
  {
  }

  /** An issued token that is no longer pending never becomes pending again. */
  lemma {:induction false} StaleForEver(bootstrap: Option<Bootstrap>, actions: seq<Action>, more: seq<Action>, token: nat)
    requires Stale(Termination.Run(Start(bootstrap), actions), token)
    ensures Stale(Termination.Run(Start(bootstrap), actions + more), token)
    decreases |more|
  {
    if more == [] {
      assert actions + more == actions;
    } else {
      var n := |more| - 1;
      StaleForEver(bootstrap, actions, more[..n], token);
      assert (actions + more)[..|actions + more| - 1] == actions + more[..n];
      RunKeeps(bootstrap, actions + more[..n]);
      StaleStays(Termination.Run(Start(bootstrap), actions + more[..n]), more[n], token);
    }
  }

  /** Nothing that a requester or the launch owner can see differs. */
  predicate Untouched(s: System, s': System)
  {
    s'.register == s.register && s'.waiting == s.waiting && s'.log == s.log && s'.reporter == s.reporter
  }

  /** So, however long after, its completion and its deadline touch neither its successor nor the replies. */
  lemma StaleTokenIsInert(bootstrap: Option<Bootstrap>, actions: seq<Action>, more: seq<Action>,
                          token: nat, claim: Claim, env: Env)
    requires Stale(Termination.Run(Start(bootstrap), actions), token)
    ensures var s := Termination.Run(Start(bootstrap), actions + more);
            Untouched(s, Step(s, Finish(token, claim, env))) && Untouched(s, Step(s, Deadline(token, env)))
  {
    StaleForEver(bootstrap, actions, more, token);
    StaleStep(Termination.Run(Start(bootstrap), actions + more), token, claim, env);
  }

  lemma StaleStep(s: System, token: nat, claim: Claim, env: Env)
    requires Stale(s, token)
    ensures Untouched(s, Step(s, Finish(token, claim, env))) && Untouched(s, Step(s, Deadline(token, env)))
  {
  }
}
