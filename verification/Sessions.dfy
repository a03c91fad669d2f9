/**
 Cleanup of one system-execution session: however many callers ask to disconnect, and
 whenever they ask, the native shutdown runs once and all of them get its receipt once.
 A lock section is one step; the native report and the order of callbacks are inputs.
 */
module Sessions {
  import opened Wrappers

  datatype Receipt = Receipt(ok: bool, exact: bool, evidence: nat)

  predicate Exact(r: Receipt)
  {
    r.ok && r.exact
  }

  /** Who asked: a run of the connection's handlers, or one call of the listener's shutdown. */
  datatype Completion = Removal(turn: nat) | Part(shutdown: nat)

  /** The fields guarded by the session's lock. */
  datatype Cell = Cell(disconnected: bool, receipt: Option<Receipt>, waiters: seq<Completion>)

  function Register(cell: Cell, c: Completion): Cell
  {
    if cell.receipt.Some? then cell
    else Cell(true, None, cell.waiters + [c])
  }

  function Publish(report: Receipt, cell: Cell): Cell
  {
    Cell(cell.disconnected, Some(report), [])
  }

  class SystemExecutionSession {
    var disconnected: bool
    var shutdownReceipt: Option<Receipt>
    var shutdownWaiters: seq<Completion>

    function Value(): Cell
      reads this
    {
      Cell(disconnected, shutdownReceipt, shutdownWaiters)
    }

    constructor ()
      ensures Value() == Cell(false, None, [])
    {
      disconnected, shutdownReceipt, shutdownWaiters := false, None, [];
    }

    /** `direct` is the receipt to call `c` with at once; `start` asks for the native shutdown. */
    method Disconnect(c: Completion) returns (direct: Option<Receipt>, start: bool)
      modifies this
      ensures Value() == Register(old(Value()), c)
      ensures direct == old(shutdownReceipt)
      ensures start <==> !old(disconnected) && old(shutdownReceipt).None?
    {
      direct, start := shutdownReceipt, false;
      if shutdownReceipt.Some? {
        return;
      }
      shutdownWaiters := shutdownWaiters + [c];
      if disconnected {
        return;
      }
      disconnected, start := true, true;
    }

    /** Stores the report and takes the waiters, who are called outside the lock. */
    method StoreReceipt(report: Receipt) returns (waiters: seq<Completion>)
      modifies this
      ensures Value() == Publish(report, old(Value()))
      ensures waiters == old(shutdownWaiters)
    {
      shutdownReceipt := Some(report);
      waiters := shutdownWaiters;
      shutdownWaiters := [];
    }
  }

  // ----- any interleaving of callers and the cleanup job -----

  datatype Phase = Idle | Scheduled | Running | Done

  /**
   `ready` holds the completions due to be called. History: how often each completion was
   registered and called, and every receipt that was ever handed to one.
   */
  datatype Session = Session(
    cell: Cell,
    phase: Phase,
    nativeRuns: nat,
    ready: multiset<Completion>,
    registered: multiset<Completion>,
    called: multiset<Completion>,
    handed: set<Receipt>)

  const FRESH: Session :=
    Session(Cell(false, None, []), Idle, 0, multiset{}, multiset{}, multiset{}, {})

  datatype Action = Ask(c: Completion) | StartNative | FinishNative(report: Receipt) | CallOne(c: Completion)

  function Step(s: Session, a: Action): Session
  {
    match a
    case Ask(c) =>
      s.(cell := Register(s.cell, c),
         registered := s.registered + multiset{c},
         ready := if s.cell.receipt.Some? then s.ready + multiset{c} else s.ready,
         phase := if s.cell.receipt.None? && !s.cell.disconnected then Scheduled else s.phase)
    case StartNative =>
      if s.phase.Scheduled? then s.(phase := Running, nativeRuns := s.nativeRuns + 1) else s
    case FinishNative(report) =>
      if s.phase.Running? then
        s.(phase := Done, cell := Publish(report, s.cell), ready := s.ready + multiset(s.cell.waiters))
      else s
    case CallOne(c) =>
      if c in s.ready && s.cell.receipt.Some? then
        s.(ready := s.ready - multiset{c},
           called := s.called + multiset{c},
           handed := s.handed + {s.cell.receipt.value})
      else s
  }

  function Run(actions: seq<Action>): Session
  {
    if actions == [] then FRESH else Step(Run(actions[..|actions| - 1]), actions[|actions| - 1])
  }

  /** Every registered completion is waiting, due or called, exactly once. */
  ghost predicate Conserved(s: Session)
  {
    s.registered == multiset(s.cell.waiters) + s.ready + s.called
  }

  ghost predicate Progress(s: Session)
  {
    && s.nativeRuns == (if s.phase.Running? || s.phase.Done? then 1 else 0)
    && (s.cell.receipt.Some? <==> s.phase.Done?)
    && (s.cell.disconnected <==> !s.phase.Idle?)
    && (s.phase.Idle? ==> s.registered == multiset{})
    && (s.phase.Done? ==> s.cell.waiters == [])
    && (!s.phase.Done? ==> s.ready == multiset{} && s.called == multiset{})
  }

  ghost predicate OneReceipt(s: Session)
  {
    forall r :: r in s.handed ==> s.cell.receipt == Some(r)
  }

  ghost predicate Inv(s: Session)
  {
    Conserved(s) && Progress(s) && OneReceipt(s)
  }

  lemma StepConserves(s: Session, a: Action)
    requires Conserved(s)
    ensures Conserved(Step(s, a))
  {
    match a
    case Ask(c) => AskConserves(s, c);
    case StartNative =>
    case FinishNative(report) => FinishConserves(s, report);
    case CallOne(c) => CallConserves(s, c);
  }

  lemma AskConserves(s: Session, c: Completion)
    requires Conserved(s)
    ensures Conserved(Step(s, Ask(c)))
  {
    Moved(multiset(s.cell.waiters), s.ready, s.called, c);
    assert multiset(s.cell.waiters + [c]) == multiset(s.cell.waiters) + multiset{c};
  }

  lemma Moved(w: multiset<Completion>, r: multiset<Completion>, d: multiset<Completion>, c: Completion)
    ensures (w + r + d) + multiset{c} == (w + multiset{c}) + r + d
    ensures (w + r + d) + multiset{c} == w + (r + multiset{c}) + d
    ensures c in r ==> w + r + d == w + (r - multiset{c}) + (d + multiset{c})
  {
  }

  lemma FinishConserves(s: Session, report: Receipt)
    requires Conserved(s)
    ensures Conserved(Step(s, FinishNative(report)))
  {
    assert multiset(s.cell.waiters) + s.ready == multiset([]) + (s.ready + multiset(s.cell.waiters));
  }

  lemma CallConserves(s: Session, c: Completion)
    requires Conserved(s)
    ensures Conserved(Step(s, CallOne(c)))
  {
    Moved(multiset(s.cell.waiters), s.ready, s.called, c);
  }

  lemma StepProgresses(s: Session, a: Action)
    requires Progress(s)
    ensures Progress(Step(s, a))
    ensures s.cell.receipt.Some? ==> Step(s, a).cell.receipt == s.cell.receipt
  {
  }

  lemma StepKeeps(s: Session, a: Action)
    requires Inv(s)
    ensures Inv(Step(s, a))
    ensures s.cell.receipt.Some? ==> Step(s, a).cell.receipt == s.cell.receipt
  {
    StepConserves(s, a);
    StepProgresses(s, a);
  }

  lemma {:induction false} RunKeeps(actions: seq<Action>)
    ensures Inv(Run(actions))
    decreases |actions|
  {
    if actions != [] {
      RunKeeps(actions[..|actions| - 1]);
      StepKeeps(Run(actions[..|actions| - 1]), actions[|actions| - 1]);
    }
  }

  // ----- nobody waits in vain -----

  function After(s: Session, actions: seq<Action>): Session
    decreases |actions|
  {
    if actions == [] then s else After(Step(s, actions[0]), actions[1..])
  }

  lemma {:induction false} RunAfter(actions: seq<Action>, more: seq<Action>)
    ensures Run(actions + more) == After(Run(actions), more)
    decreases |more|
  {
    if more == [] {
      assert actions + more == actions;
    } else {
      Regrouped(actions, more);
      OneMore(actions, more[0]);
      RunAfter(actions + [more[0]], more[1..]);
    }
  }

  lemma Regrouped<T>(a: seq<T>, b: seq<T>)
    requires b != []
    ensures a + b == a + [b[0]] + b[1..]
  {
  }

  lemma OneMore(actions: seq<Action>, a: Action)
    ensures Run(actions + [a]) == Step(Run(actions), a)
  {
    assert (actions + [a])[..|actions|] == actions;
  }

  /** The cleanup is done and these are registered. */
  predicate DoneFor(s: Session, registered: multiset<Completion>, receipt: Option<Receipt>)
  {
    s.phase.Done? && s.registered == registered && s.cell.receipt == receipt && receipt.Some?
  }

  lemma CallShrinks(s: Session, c: Completion)
    requires c in s.ready && s.cell.receipt.Some?
    ensures |Step(s, CallOne(c)).ready| < |s.ready|
  {
    assert s.ready == (s.ready - multiset{c}) + multiset{c};
  }

  lemma {:induction false} CanDrain(s: Session, registered: multiset<Completion>, receipt: Option<Receipt>)
    returns (more: seq<Action>)
    requires DoneFor(s, registered, receipt)
    ensures DoneFor(After(s, more), registered, receipt) && After(s, more).ready == multiset{}
    decreases |s.ready|
  {
    if s.ready == multiset{} {
      more := [];
    } else {
      var c :| c in s.ready;
      CallShrinks(s, c);
      var rest := CanDrain(Step(s, CallOne(c)), registered, receipt);
      more := [CallOne(c)] + rest;
      assert more[1..] == rest;
    }
  }

  lemma Drained(s: Session)
    requires Inv(s) && s.phase.Done? && s.ready == multiset{}
    ensures s.called == s.registered && s.nativeRuns == 1
  {
  }

  lemma NativeFinishes(s: Session, report: Receipt)
    requires Inv(s) && s.registered != multiset{}
    ensures var s' := Step(Step(s, StartNative), FinishNative(report));
            DoneFor(s', s.registered, if s.cell.receipt.Some? then s.cell.receipt else Some(report))
  {
  }

  /** From every state with a caller the cleanup can go on until all have their receipt. */
  lemma CanServe(actions: seq<Action>, report: Receipt) returns (more: seq<Action>)
    requires Run(actions).registered != multiset{}
    ensures var s, s' := Run(actions), Run(actions + more);
            && s'.called == s'.registered == s.registered && s'.nativeRuns == 1
            && s'.cell.receipt == if s.cell.receipt.Some? then s.cell.receipt else Some(report)
  {
    RunKeeps(actions);
    var s := Run(actions);
    var receipt := if s.cell.receipt.Some? then s.cell.receipt else Some(report);
    NativeFinishes(s, report);
    var rest := CanDrain(Step(Step(s, StartNative), FinishNative(report)), s.registered, receipt);
    more := [StartNative, FinishNative(report)] + rest;
    assert more[1..][1..] == rest;
    assert more[1..][0] == FinishNative(report);
    RunAfter(actions, more);
    RunKeeps(actions + more);
    Drained(Run(actions + more));
  }

  /**
   Over every run: at most one native shutdown, one receipt for all, nobody called more often
   than registered, and once the cleanup is done and nothing is due, everybody was called.
   */
  lemma AllServedOnce(actions: seq<Action>)
    ensures var s := Run(actions);
            && s.nativeRuns <= 1
            && (s.registered != multiset{} ==> s.cell.disconnected)
            && (forall r :: r in s.handed ==> s.cell.receipt == Some(r))
            && s.called <= s.registered
            && (s.phase.Done? && s.ready == multiset{} ==> s.called == s.registered && s.nativeRuns == 1)
  {
    RunKeeps(actions);
  }
}
