/**
 The system-execution listener: admission in two lock sections, removal on an exact receipt,
 and any number of concurrent `shutdown` calls that each wait for all the sessions they saw.
 */
module Listeners {
  import opened Wrappers
  import S = Sessions

  /** One `shutdown` call: `group` is its dispatch group, `waiting` the sessions it stands for. */
  datatype Shutdown = Shutdown(
    active: set<nat>,
    asked: set<nat>,
    waiting: set<nat>,
    group: int,
    receipts: seq<S.Receipt>,
    result: Option<bool>)

  /** `cells` holds every session ever admitted, `sessions` the keys still in the map. */
  datatype Service = Service(
    stopping: bool,
    offers: set<nat>,
    sessions: set<nat>,
    cells: map<nat, S.Session>,
    shutdowns: map<nat, Shutdown>)

  const START := Service(false, {}, {}, map[], map[])

  datatype Action =
    | Offer(key: nat)
    | Insert(key: nat)
    | PeerGone(key: nat, turn: nat)
    | StartNative(key: nat)
    | FinishNative(key: nat, report: S.Receipt)
    | Deliver(key: nat, c: S.Completion)
    | Begin(id: nat)
    | AskOne(id: nat, key: nat)
    | Finish(id: nat)

  predicate AllExact(receipts: seq<S.Receipt>)
  {
    forall r :: r in receipts ==> S.Exact(r)
  }

  function OnCell(v: Service, key: nat, a: S.Action): Service
  {
    if key in v.cells then v.(cells := v.cells[key := S.Step(v.cells[key], a)]) else v
  }

  /** The body of the completion `c` that session `key` calls with `r`. */
  function Completed(v: Service, key: nat, c: S.Completion, r: S.Receipt): Service
  {
    match c
    case Removal(_) => if S.Exact(r) then v.(sessions := v.sessions - {key}) else v
    case Part(id) =>
      if id in v.shutdowns then
        var d := v.shutdowns[id];
        v.(shutdowns := v.shutdowns[id := d.(receipts := d.receipts + [r], group := d.group - 1, waiting := d.waiting - {key})])
      else v
  }

  predicate Waited(d: Shutdown)
  {
    d.result.None? && d.asked == d.active && d.group == 0
  }

  function Step(v: Service, a: Action): Service
  {
    match a
    case Offer(key) =>
      // Connection keys are fresh: never offered or admitted before.
      if v.stopping || key in v.cells || key in v.offers then v else v.(offers := v.offers + {key})
    case Insert(key) =>
      if key !in v.offers then v
      else if v.stopping || key in v.cells then v.(offers := v.offers - {key})
      else v.(offers := v.offers - {key}, sessions := v.sessions + {key}, cells := v.cells[key := S.FRESH])
    case PeerGone(key, turn) => OnCell(v, key, S.Ask(S.Removal(turn)))
    case StartNative(key) => OnCell(v, key, S.StartNative)
    case FinishNative(key, report) => OnCell(v, key, S.FinishNative(report))
    case Deliver(key, c) =>
      if key in v.cells && c in v.cells[key].ready && v.cells[key].cell.receipt.Some? then
        Completed(OnCell(v, key, S.CallOne(c)), key, c, v.cells[key].cell.receipt.value)
      else v
    case Begin(id) =>
      if id in v.shutdowns then v
      else v.(stopping := true, shutdowns := v.shutdowns[id := Shutdown(v.sessions, {}, {}, 0, [], None)])
    case AskOne(id, key) =>
      if id in v.shutdowns && key in v.shutdowns[id].active - v.shutdowns[id].asked then
        var d := v.shutdowns[id];
        OnCell(v, key, S.Ask(S.Part(id)))
        .(shutdowns := v.shutdowns[id := d.(asked := d.asked + {key}, group := d.group + 1, waiting := d.waiting + {key})])
      else v
    case Finish(id) =>
      if id in v.shutdowns && Waited(v.shutdowns[id]) then
        v.(shutdowns := v.shutdowns[id := v.shutdowns[id].(result := Some(AllExact(v.shutdowns[id].receipts)))])
      else v
  }

  function Run(actions: seq<Action>): Service
  {
    if actions == [] then START else Step(Run(actions[..|actions| - 1]), actions[|actions| - 1])
  }

  /** The listener's lock-guarded fields; each method is one lock section of the model's step. */
  class SystemExecutionListener {
    var sessions: map<nat, S.SystemExecutionSession>
    var stopping: bool

    constructor ()
      ensures Matches(START)
    {
      sessions, stopping := map[], false;
    }

    ghost predicate Matches(v: Service)
      reads this
    {
      v.stopping == stopping && v.sessions == sessions.Keys
    }

    /** The second check of admission, under the lock that stores the session. */
    method Accept(key: nat, session: S.SystemExecutionSession, ghost v: Service) returns (accepted: bool)
      requires Matches(v) && key in v.offers && key !in v.cells
      modifies this
      ensures Matches(Step(v, Insert(key)))
      ensures accepted <==> key in Step(v, Insert(key)).cells
      ensures accepted ==> sessions == old(sessions)[key := session]
    {
      if stopping {
        return false;
      }
      sessions := sessions[key := session];
      return true;
    }

    /** The completion of a handler: an inexact receipt keeps the session in the map. */
    method Forget(key: nat, receipt: S.Receipt, turn: nat, ghost v: Service)
      requires Matches(v)
      modifies this
      ensures Matches(Completed(v, key, S.Removal(turn), receipt))
      ensures forall k :: k in sessions ==> k in old(sessions) && sessions[k] == old(sessions)[k]
    {
      if !(receipt.ok && receipt.exact) {
        return;
      }
      sessions := sessions - {key};
    }

    method BeginShutdown(id: nat, ghost v: Service) returns (active: set<nat>)
      requires Matches(v) && id !in v.shutdowns
      modifies this
      ensures Matches(Step(v, Begin(id)))
      ensures active == Step(v, Begin(id)).shutdowns[id].active
      ensures sessions == old(sessions)
    {
      stopping := true;
      active := sessions.Keys;
    }
  }

  // ----- what every step keeps -----

  predicate ExactCell(s: S.Session)
  {
    s.cell.receipt.Some? && S.Exact(s.cell.receipt.value)
  }

  /** How the admitted session `k` stands towards shutdown call `id`. */
  ghost predicate Answers(cells: map<nat, S.Session>, id: nat, d: Shutdown, k: nat)
    requires k in cells
  {
    var s := cells[k];
    && (k in d.waiting ==> k in d.asked)
    && (k in d.asked ==> k in d.active)
    && (k !in d.active ==> ExactCell(s))
    && s.registered[S.Part(id)] == (if k in d.asked then 1 else 0)
    && s.called[S.Part(id)] == (if k in d.asked && k !in d.waiting then 1 else 0)
    && (k in d.asked && k !in d.waiting ==> s.cell.receipt.Some? && s.cell.receipt.value in d.receipts)
  }

  ghost predicate Origin(cells: map<nat, S.Session>, d: Shutdown, r: S.Receipt)
  {
    exists k :: k in d.active && k in cells && cells[k].cell.receipt == Some(r)
  }

  ghost predicate ShutdownOk(cells: map<nat, S.Session>, id: nat, d: Shutdown)
  {
    && d.active <= cells.Keys && d.asked <= d.active
    && (forall k {:trigger Answers(cells, id, d, k)} :: k in cells ==> Answers(cells, id, d, k))
    && d.waiting <= d.asked
    && d.group == |d.waiting|
    && (forall r :: r in d.receipts ==> Origin(cells, d, r))
    && (d.result.Some? ==> d.asked == d.active && d.group == 0 && d.result.value == AllExact(d.receipts))
  }

  /** No session knows a shutdown call that has not begun. */
  ghost predicate Unused(cells: map<nat, S.Session>, begun: set<nat>)
  {
    forall k, id :: k in cells && id !in begun ==> cells[k].registered[S.Part(id)] == 0
  }

  ghost predicate AllSound(cells: map<nat, S.Session>)
  {
    forall k {:trigger S.Inv(cells[k])} :: k in cells ==> S.Inv(cells[k])
  }

  ghost predicate CellsOk(v: Service)
  {
    && AllSound(v.cells)
    && v.sessions <= v.cells.Keys
    && (forall k :: k in v.cells && k !in v.sessions ==> ExactCell(v.cells[k]))
    && Unused(v.cells, v.shutdowns.Keys)
  }

  ghost predicate Inv(v: Service)
  {
    && CellsOk(v)
    && (v.shutdowns != map[] ==> v.stopping)
    && (forall id :: id in v.shutdowns ==> ShutdownOk(v.cells, id, v.shutdowns[id]))
  }

  /** A step of one session that leaves the completions of shutdown `id` alone. */
  ghost predicate Untouched(s: S.Session, s': S.Session, id: nat)
  {
    && s'.registered[S.Part(id)] == s.registered[S.Part(id)]
    && s'.called[S.Part(id)] == s.called[S.Part(id)]
    && (s.cell.receipt.Some? ==> s'.cell.receipt == s.cell.receipt)
  }

  lemma Frame(cells: map<nat, S.Session>, key: nat, s': S.Session, id: nat, d: Shutdown)
    requires ShutdownOk(cells, id, d) && key in cells && Untouched(cells[key], s', id)
    ensures ShutdownOk(cells[key := s'], id, d)
  {
    var cells' := cells[key := s'];
    forall k | k in cells'
      ensures Answers(cells', id, d, k)
    {
      assert Answers(cells, id, d, k);
    }
    forall r | r in d.receipts
      ensures Origin(cells', d, r)
    {
      var k :| k in d.active && k in cells && cells[k].cell.receipt == Some(r);
      assert k in cells' && cells'[k].cell.receipt == Some(r);
    }
  }

  lemma CellStep(s: S.Session, a: S.Action)
    requires S.Inv(s)
    ensures S.Inv(S.Step(s, a))
    ensures s.cell.receipt.Some? ==> S.Step(s, a).cell.receipt == s.cell.receipt
    ensures forall id :: (a.Ask? || a.CallOne? ==> a.c != S.Part(id)) ==> Untouched(s, S.Step(s, a), id)
  {
    S.StepKeeps(s, a);
    forall id | a.Ask? || a.CallOne? ==> a.c != S.Part(id)
      ensures Untouched(s, S.Step(s, a), id)
    {
      OthersUntouched(s, a, S.Part(id));
    }
  }

  lemma OthersUntouched(s: S.Session, a: S.Action, c: S.Completion)
    requires a.Ask? || a.CallOne? ==> a.c != c
    ensures S.Step(s, a).registered[c] == s.registered[c] && S.Step(s, a).called[c] == s.called[c]
  {
  }

  /** A completion that is due was asked for once, not yet called, and its receipt is there. */
  lemma DueOnce(s: S.Session, c: S.Completion)
    requires S.Inv(s) && c in s.ready
    ensures s.registered[c] >= s.called[c] + 1
    ensures s.cell.receipt.Some?
  {
    assert s.registered[c] == multiset(s.cell.waiters)[c] + s.ready[c] + s.called[c];
  }

  lemma SoundReplace(cells: map<nat, S.Session>, key: nat, s': S.Session)
    requires AllSound(cells) && S.Inv(s')
    ensures AllSound(cells[key := s'])
  {
    var cells' := cells[key := s'];
    forall k | k in cells'
      ensures S.Inv(cells'[k])
    {
      if k != key {
        assert S.Inv(cells[k]);
      }
    }
  }

  lemma UnusedReplace(cells: map<nat, S.Session>, key: nat, s': S.Session, begun: set<nat>)
    requires Unused(cells, begun) && key in cells
    requires forall id :: id !in begun ==> Untouched(cells[key], s', id)
    ensures Unused(cells[key := s'], begun)
  {
    var cells' := cells[key := s'];
    forall k, id | k in cells' && id !in begun
      ensures cells'[k].registered[S.Part(id)] == 0
    {
      assert cells[k].registered[S.Part(id)] == 0;
      assert Untouched(cells[key], s', id);
    }
  }

  /** Replacing one session keeps everything that does not belong to a touched shutdown. */
  lemma ReplaceCell(v: Service, key: nat, s': S.Session, touched: set<nat>, shutdowns': map<nat, Shutdown>)
    requires Inv(v) && key in v.cells && S.Inv(s') && touched <= v.shutdowns.Keys
    requires v.cells[key].cell.receipt.Some? ==> s'.cell.receipt == v.cells[key].cell.receipt
    requires forall id :: id !in touched ==> Untouched(v.cells[key], s', id)
    requires shutdowns'.Keys == v.shutdowns.Keys
    requires forall id :: id in v.shutdowns && id !in touched ==> shutdowns'[id] == v.shutdowns[id]
    requires forall id :: id in touched ==> ShutdownOk(v.cells[key := s'], id, shutdowns'[id])
    ensures Inv(v.(cells := v.cells[key := s'], shutdowns := shutdowns'))
  {
    forall id | id in shutdowns'
      ensures ShutdownOk(v.cells[key := s'], id, shutdowns'[id])
    {
      if id !in touched {
        Frame(v.cells, key, s', id, v.shutdowns[id]);
      }
    }
    SoundReplace(v.cells, key, s');
    UnusedReplace(v.cells, key, s', v.shutdowns.Keys);
  }

  lemma CellActionKeeps(v: Service, key: nat, a: S.Action)
    requires Inv(v)
    requires a.Ask? || a.CallOne? ==> a.c.Removal?
    ensures Inv(OnCell(v, key, a))
  {
    if key in v.cells {
      assert S.Inv(v.cells[key]);
      CellStep(v.cells[key], a);
      ReplaceCell(v, key, S.Step(v.cells[key], a), {}, v.shutdowns);
    }
  }

  lemma AdmissionKeeps(v: Service, key: nat)
    requires Inv(v)
    ensures Inv(Step(v, Insert(key)))
  {
    var v' := Step(v, Insert(key));
    assert S.Inv(S.FRESH);
    if v'.cells != v.cells {
      assert v.shutdowns == map[];
    }
  }

  lemma NeverCalled(s: S.Session, c: S.Completion)
    requires S.Inv(s) && s.registered[c] == 0
    ensures s.called[c] == 0
  {
    assert s.registered[c] == multiset(s.cell.waiters)[c] + s.ready[c] + s.called[c];
  }

  lemma BeginKeeps(v: Service, id: nat)
    requires Inv(v)
    ensures Inv(Step(v, Begin(id)))
  {
    if id !in v.shutdowns {
      var d := Shutdown(v.sessions, {}, {}, 0, [], None);
      forall k | k in v.cells
        ensures Answers(v.cells, id, d, k)
      {
        NeverCalled(v.cells[k], S.Part(id));
      }
    }
  }

  lemma AskCell(s: S.Session, id: nat, s': S.Session)
    requires S.Inv(s) && s.registered[S.Part(id)] == 0
    requires s' == S.Step(s, S.Ask(S.Part(id)))
    ensures s'.registered[S.Part(id)] == 1 && s'.called[S.Part(id)] == 0
  {
    assert s.registered[S.Part(id)] == multiset(s.cell.waiters)[S.Part(id)] + s.ready[S.Part(id)] + s.called[S.Part(id)];
  }

  lemma AskOwn(cells: map<nat, S.Session>, id: nat, d: Shutdown, key: nat, d': Shutdown, s': S.Session)
    requires ShutdownOk(cells, id, d) && key in d.active - d.asked
    requires s'.registered[S.Part(id)] == 1 && s'.called[S.Part(id)] == 0
    requires cells[key].cell.receipt.Some? ==> s'.cell.receipt == cells[key].cell.receipt
    requires d' == d.(asked := d.asked + {key}, group := d.group + 1, waiting := d.waiting + {key})
    ensures ShutdownOk(cells[key := s'], id, d')
  {
    var cells' := cells[key := s'];
    forall k | k in cells'
      ensures Answers(cells', id, d', k)
    {
      assert Answers(cells, id, d, k);
    }
    forall r | r in d'.receipts
      ensures Origin(cells', d', r)
    {
      var k :| k in d.active && k in cells && cells[k].cell.receipt == Some(r);
      assert k in cells' && cells'[k].cell.receipt == Some(r);
    }
  }

  lemma AskOneKeeps(v: Service, id: nat, key: nat)
    requires Inv(v)
    requires id in v.shutdowns && key in v.shutdowns[id].active - v.shutdowns[id].asked
    ensures Inv(Step(v, AskOne(id, key)))
  {
    var d := v.shutdowns[id];
    var s' := S.Step(v.cells[key], S.Ask(S.Part(id)));
    var d' := d.(asked := d.asked + {key}, group := d.group + 1, waiting := d.waiting + {key});
    assert Answers(v.cells, id, d, key);
    CellStep(v.cells[key], S.Ask(S.Part(id)));
    AskCell(v.cells[key], id, s');
    AskOwn(v.cells, id, d, key, d', s');
    ReplaceOwn(v, key, s', id, d');
  }

  /** Replacing a session together with the one shutdown call that its step concerns. */
  lemma ReplaceOwn(v: Service, key: nat, s': S.Session, id: nat, d': Shutdown)
    requires Inv(v) && key in v.cells && S.Inv(s') && id in v.shutdowns
    requires v.cells[key].cell.receipt.Some? ==> s'.cell.receipt == v.cells[key].cell.receipt
    requires forall other :: other != id ==> Untouched(v.cells[key], s', other)
    requires ShutdownOk(v.cells[key := s'], id, d')
    ensures Inv(v.(cells := v.cells[key := s'], shutdowns := v.shutdowns[id := d']))
  {
    ReplaceCell(v, key, s', {id}, v.shutdowns[id := d']);
  }

  lemma CallCell(s: S.Session, c: S.Completion, s': S.Session)
    requires S.Inv(s) && c in s.ready && s' == S.Step(s, S.CallOne(c))
    ensures s.cell.receipt.Some? && s'.cell.receipt == s.cell.receipt
    ensures s'.registered[c] == s.registered[c] && s'.called[c] == s.called[c] + 1
  {
    DueOnce(s, c);
  }

  lemma DeliverOwn(cells: map<nat, S.Session>, id: nat, d: Shutdown, key: nat, d': Shutdown, s': S.Session,
                   r: S.Receipt)
    requires ShutdownOk(cells, id, d) && key in cells
    requires s'.cell.receipt == cells[key].cell.receipt == Some(r)
    requires s'.registered[S.Part(id)] == cells[key].registered[S.Part(id)]
    requires s'.called[S.Part(id)] == cells[key].called[S.Part(id)] + 1
    requires cells[key].registered[S.Part(id)] >= cells[key].called[S.Part(id)] + 1
    requires d' == d.(receipts := d.receipts + [r], group := d.group - 1, waiting := d.waiting - {key})
    ensures ShutdownOk(cells[key := s'], id, d')
  {
    var cells' := cells[key := s'];
    assert Answers(cells, id, d, key);
    assert key in d.waiting;
    forall k | k in cells'
      ensures Answers(cells', id, d', k)
    {
      assert Answers(cells, id, d, k);
    }
    forall x | x in d'.receipts
      ensures Origin(cells', d', x)
    {
      var k :| k in d.active && k in cells && cells[k].cell.receipt == Some(x);
      assert k in cells' && cells'[k].cell.receipt == Some(x);
    }
  }

  lemma DeliverPartKeeps(v: Service, id: nat, key: nat)
    requires Inv(v)
    requires key in v.cells && S.Part(id) in v.cells[key].ready
    ensures Inv(Step(v, Deliver(key, S.Part(id))))
  {
    var s := v.cells[key];
    var s' := S.Step(s, S.CallOne(S.Part(id)));
    CellStep(s, S.CallOne(S.Part(id)));
    CallCell(s, S.Part(id), s');
    DueOnce(s, S.Part(id));
    assert id in v.shutdowns;
    var r := s.cell.receipt.value;
    var d := v.shutdowns[id];
    var d' := d.(receipts := d.receipts + [r], group := d.group - 1, waiting := d.waiting - {key});
    DeliverOwn(v.cells, id, d, key, d', s', r);
    ReplaceOwn(v, key, s', id, d');
  }

  lemma RemovalKeeps(v: Service, key: nat)
    requires Inv(v)
    requires key in v.cells && ExactCell(v.cells[key])
    ensures Inv(v.(sessions := v.sessions - {key}))
  {
  }

  lemma DeliverRemovalKeeps(v: Service, key: nat, turn: nat)
    requires Inv(v)
    requires key in v.cells && S.Removal(turn) in v.cells[key].ready
    ensures Inv(Step(v, Deliver(key, S.Removal(turn))))
  {
    var a := S.CallOne(S.Removal(turn));
    CellActionKeeps(v, key, a);
    CellStep(v.cells[key], a);
    if ExactCell(v.cells[key]) {
      RemovalKeeps(OnCell(v, key, a), key);
    }
  }

  lemma FinishKeeps(v: Service, id: nat)
    requires Inv(v)
    requires id in v.shutdowns && Waited(v.shutdowns[id])
    ensures Inv(Step(v, Finish(id)))
  {
    var d := v.shutdowns[id];
    var d' := d.(result := Some(AllExact(d.receipts)));
    forall k | k in v.cells
      ensures Answers(v.cells, id, d', k)
    {
      assert Answers(v.cells, id, d, k);
    }
    forall r | r in d'.receipts
      ensures Origin(v.cells, d', r)
    {
      var k :| k in d.active && k in v.cells && v.cells[k].cell.receipt == Some(r);
    }
    assert ShutdownOk(v.cells, id, d');
  }

  lemma StepKeeps(v: Service, a: Action)
    requires Inv(v)
    ensures Inv(Step(v, a))
  {
    match a {
      case Offer(key) =>
      case Insert(key) => AdmissionKeeps(v, key);
      case PeerGone(key, turn) => CellActionKeeps(v, key, S.Ask(S.Removal(turn)));
      case StartNative(key) => CellActionKeeps(v, key, S.StartNative);
      case FinishNative(key, report) => CellActionKeeps(v, key, S.FinishNative(report));
      case Deliver(key, c) =>
        if Step(v, a) != v {
          if c.Part? { DeliverPartKeeps(v, c.shutdown, key); } else { DeliverRemovalKeeps(v, key, c.turn); }
        }
      case Begin(id) => BeginKeeps(v, id);
      case AskOne(id, key) =>
        if Step(v, a) != v { AskOneKeeps(v, id, key); }
      case Finish(id) =>
        if Step(v, a) != v { FinishKeeps(v, id); }
    }
  }

  lemma {:induction false} RunKeeps(actions: seq<Action>)
    ensures Inv(Run(actions))
    decreases |actions|
  {
    if actions != [] {
      RunKeeps(actions[..|actions| - 1]);
      StepKeeps(Run(actions[..|actions| - 1]), actions[|actions| - 1]);
    }
  }

  /** An exact shutdown report covers every session ever admitted; an inexact one names a failure. */
  lemma ExactMeansAll(actions: seq<Action>, id: nat)
    requires id in Run(actions).shutdowns && Run(actions).shutdowns[id].result.Some?
    ensures Run(actions).shutdowns[id].result.value <==>
            forall k :: k in Run(actions).cells ==> ExactCell(Run(actions).cells[k])
  {
    RunKeeps(actions);
    var v := Run(actions);
    var d := v.shutdowns[id];
    assert ShutdownOk(v.cells, id, d);
    assert d.waiting == {};
    if d.result.value {
      forall k | k in v.cells
        ensures ExactCell(v.cells[k])
      {
        assert Answers(v.cells, id, d, k);
      }
    } else {
      var r :| r in d.receipts && !S.Exact(r);
      assert Origin(v.cells, d, r);
      var k :| k in d.active && k in v.cells && v.cells[k].cell.receipt == Some(r);
      assert !ExactCell(v.cells[k]);
    }
  }

  /** Once stopping, no step admits a session and the listener never starts again. */
  lemma {:induction false} NoneAdmittedAfterStopping(actions: seq<Action>, more: seq<Action>)
    requires Run(actions).stopping
    ensures Run(actions + more).stopping && Run(actions + more).cells.Keys == Run(actions).cells.Keys
    decreases |more|
  {
    if more == [] {
      assert actions + more == actions;
    } else {
      var n := |more| - 1;
      NoneAdmittedAfterStopping(actions, more[..n]);
      assert (actions + more)[..|actions + more| - 1] == actions + more[..n];
      StaysStopped(Run(actions + more[..n]), more[n]);
    }
  }

  lemma StaysStopped(v: Service, a: Action)
    requires v.stopping
    ensures Step(v, a).stopping && Step(v, a).cells.Keys == v.cells.Keys
  {
    if a.AskOne? && Step(v, a) != v {
      assert Step(v, a).cells == OnCell(v, a.key, S.Ask(S.Part(a.id))).cells;
    }
  }
}
