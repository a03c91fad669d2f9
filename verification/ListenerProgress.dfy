/** Every shutdown call of the listener can be brought to its report, from any state of any run. */
module ListenerProgress {
  import opened Wrappers
  import opened Listeners
  import S = Sessions

  function After(v: Service, actions: seq<Action>): Service
    decreases |actions|
  {
    if actions == [] then v else After(Step(v, actions[0]), actions[1..])
  }

  lemma OneMore(actions: seq<Action>, a: Action)
    ensures Run(actions + [a]) == Step(Run(actions), a)
  {
    assert (actions + [a])[..|actions|] == actions;
  }

  lemma {:induction false} RunAfter(actions: seq<Action>, more: seq<Action>)
    ensures Run(actions + more) == After(Run(actions), more)
    decreases |more|
  {
    if more == [] {
      assert actions + more == actions;
    } else {
      S.Regrouped(actions, more);
      OneMore(actions, more[0]);
      RunAfter(actions + [more[0]], more[1..]);
    }
  }

  lemma {:induction false} AfterAppend(v: Service, a: seq<Action>, b: seq<Action>)
    ensures After(v, a + b) == After(After(v, a), b)
    decreases |a|
  {
    if a == [] {
      assert a + b == b;
    } else {
      var v1 := Step(v, a[0]);
      AfterAppend(v1, a[1..], b);
      assert (a + b)[1..] == a[1..] + b && (a + b)[0] == a[0];
    }
  }

  // ----- admission and removal -----

  /** A fresh connection is admitted while no shutdown has begun. */
  lemma Admitted(actions: seq<Action>, key: nat)
    requires key !in Run(actions).cells && key !in Run(actions).offers && !Run(actions).stopping
    ensures var v, v' := Run(actions), Run(actions + [Offer(key), Insert(key)]);
            v'.sessions == v.sessions + {key} && v'.cells == v.cells[key := S.FRESH]
  {
    RunAfter(actions, [Offer(key), Insert(key)]);
    AfterTwo(Run(actions), Offer(key), Insert(key));
  }

  /** A shutdown that begins between the two checks of admission keeps the connection out. */
  lemma RefusedBetween(actions: seq<Action>, key: nat, id: nat)
    requires key !in Run(actions).cells && key !in Run(actions).offers && !Run(actions).stopping
    requires id !in Run(actions).shutdowns
    ensures var v, v' := Run(actions), Run(actions + [Offer(key), Begin(id), Insert(key)]);
            v'.sessions == v.sessions && v'.cells == v.cells
  {
    var three := [Offer(key), Begin(id), Insert(key)];
    assert three == three + [];
    RunAfter(actions, three);
    AfterThree(Run(actions), Offer(key), Begin(id), Insert(key), []);
  }

  lemma AfterFirst(v: Service, a: Action, rest: seq<Action>)
    ensures After(v, [a] + rest) == After(Step(v, a), rest)
  {
    assert ([a] + rest)[1..] == rest;
  }

  lemma AfterTwo(v: Service, a: Action, b: Action)
    ensures After(v, [a, b]) == Step(Step(v, a), b)
  {
    assert [a, b][1..] == [b] && [b][1..] == [];
    assert After(Step(v, a), [b]) == After(Step(Step(v, a), b), []);
  }

  /** A handler's completion takes the session out of the map exactly when its receipt is exact. */
  lemma RemovedExactly(actions: seq<Action>, key: nat, turn: nat)
    requires key in Run(actions).cells && S.Removal(turn) in Run(actions).cells[key].ready
    ensures var v := Run(actions);
            Run(actions + [Deliver(key, S.Removal(turn))]).sessions == if ExactCell(v.cells[key]) then v.sessions - {key} else v.sessions
  {
    RunKeeps(actions);
    assert S.Inv(Run(actions).cells[key]);
    OneMore(actions, Deliver(key, S.Removal(turn)));
    DueOnce(Run(actions).cells[key], S.Removal(turn));
  }

  // ----- reporting -----

  /** The call `id` is under way with these requests sent, and its result is what it was. */
  ghost predicate Under(v: Service, id: nat, active: set<nat>, result: Option<bool>)
  {
    && Inv(v) && id in v.shutdowns
    && v.shutdowns[id].active == active && v.shutdowns[id].result == result
  }

  lemma AskStep(v: Service, id: nat, key: nat, active: set<nat>, result: Option<bool>)
    requires Under(v, id, active, result) && key in active - v.shutdowns[id].asked
    ensures Under(Step(v, AskOne(id, key)), id, active, result)
    ensures Step(v, AskOne(id, key)).shutdowns[id].asked == v.shutdowns[id].asked + {key}
  {
    StepKeeps(v, AskOne(id, key));
  }

  lemma Missing(a: set<nat>, b: set<nat>) returns (x: nat)
    requires a <= b && a != b
    ensures x in b - a
  {
    x :| x in b && x !in a;
  }

  /** All sessions the call stands for can be asked. */
  lemma {:induction false} AskAll(v: Service, id: nat, active: set<nat>, result: Option<bool>) returns (more: seq<Action>)
    requires Under(v, id, active, result)
    ensures Under(After(v, more), id, active, result) && After(v, more).shutdowns[id].asked == active
    decreases active - v.shutdowns[id].asked
  {
    var asked := v.shutdowns[id].asked;
    assert ShutdownOk(v.cells, id, v.shutdowns[id]);
    if asked == active {
      more := [];
    } else {
      var key := Missing(asked, active);
      AskStep(v, id, key, active, result);
      var rest := AskAll(Step(v, AskOne(id, key)), id, active, result);
      more := [AskOne(id, key)] + rest;
      AfterFirst(v, AskOne(id, key), rest);
    }
  }

  lemma PartDue(s: S.Session, s': S.Session, c: S.Completion, report: S.Receipt)
    requires S.Inv(s) && s.registered[c] == 1 && s.called[c] == 0
    requires s' == S.Step(S.Step(s, S.StartNative), S.FinishNative(report))
    ensures c in s'.ready && s'.cell.receipt.Some?
  {
    S.NativeFinishes(s, report);
    S.StepKeeps(s, S.StartNative);
    S.StepKeeps(S.Step(s, S.StartNative), S.FinishNative(report));
    OthersUntouched(s, S.StartNative, c);
    OthersUntouched(S.Step(s, S.StartNative), S.FinishNative(report), c);
    AllDue(s', c);
  }

  lemma AllDue(s: S.Session, c: S.Completion)
    requires S.Inv(s) && s.phase.Done? && s.called[c] < s.registered[c]
    ensures c in s.ready && s.cell.receipt.Some?
  {
    assert s.registered[c] == multiset(s.cell.waiters)[c] + s.ready[c] + s.called[c];
    assert multiset(s.cell.waiters) == multiset{};
  }

  ghost function Served(v: Service, id: nat, key: nat, report: S.Receipt): Service
  {
    Step(Step(Step(v, StartNative(key)), FinishNative(key, report)), Deliver(key, S.Part(id)))
  }

  /** One session: its native shutdown runs if it has not, and its part of the report arrives. */
  lemma ServeOne(v: Service, id: nat, key: nat, report: S.Receipt, active: set<nat>, result: Option<bool>)
    requires Under(v, id, active, result) && v.shutdowns[id].asked == active && key in v.shutdowns[id].waiting
    ensures Under(Served(v, id, key, report), id, active, result)
    ensures var d' := Served(v, id, key, report).shutdowns[id];
            d'.asked == active && d'.waiting == v.shutdowns[id].waiting - {key}
  {
    var d := v.shutdowns[id];
    assert ShutdownOk(v.cells, id, d);
    assert Answers(v.cells, id, d, key);
    assert S.Inv(v.cells[key]);
    var v1 := Step(v, StartNative(key));
    StepKeeps(v, StartNative(key));
    var v2 := Step(v1, FinishNative(key, report));
    StepKeeps(v1, FinishNative(key, report));
    StepKeeps(v2, Deliver(key, S.Part(id)));
    PartDue(v.cells[key], v2.cells[key], S.Part(id), report);
  }

  lemma {:induction false} ServeAll(v: Service, id: nat, report: S.Receipt, active: set<nat>, result: Option<bool>)
    returns (more: seq<Action>)
    requires Under(v, id, active, result) && v.shutdowns[id].asked == active
    ensures Under(After(v, more), id, active, result)
    ensures After(v, more).shutdowns[id].asked == active && After(v, more).shutdowns[id].group == 0
    decreases v.shutdowns[id].waiting
  {
    var waiting := v.shutdowns[id].waiting;
    if waiting == {} {
      more := [];
      assert ShutdownOk(v.cells, id, v.shutdowns[id]);
    } else {
      var key :| key in waiting;
      ServeOne(v, id, key, report, active, result);
      var rest := ServeAll(Served(v, id, key, report), id, report, active, result);
      var three := [StartNative(key), FinishNative(key, report), Deliver(key, S.Part(id))];
      AfterThree(v, three[0], three[1], three[2], rest);
      more := three + rest;
    }
  }

  lemma AfterThree(v: Service, a: Action, b: Action, c: Action, rest: seq<Action>)
    ensures After(v, [a, b, c] + rest) == After(Step(Step(Step(v, a), b), c), rest)
  {
    assert ([a, b, c] + rest)[1..] == [b, c] + rest;
    assert ([b, c] + rest)[1..] == [c] + rest;
    assert ([c] + rest)[1..] == rest;
    assert After(Step(Step(v, a), b), [c] + rest) == After(Step(Step(Step(v, a), b), c), rest);
    assert After(Step(v, a), [b, c] + rest) == After(Step(Step(v, a), b), [c] + rest);
  }

  /** Whatever has happened, the call can still report: no order of steps blocks it. */
  lemma CanReport(actions: seq<Action>, id: nat, report: S.Receipt) returns (more: seq<Action>)
    requires id in Run(actions).shutdowns
    ensures id in Run(actions + more).shutdowns && Run(actions + more).shutdowns[id].result.Some?
  {
    RunKeeps(actions);
    var v := Run(actions);
    var active, result := v.shutdowns[id].active, v.shutdowns[id].result;
    var asks := AskAll(v, id, active, result);
    var v1 := After(v, asks);
    var serves := ServeAll(v1, id, report, active, result);
    var v2 := After(v1, serves);
    more := asks + (serves + [Finish(id)]);
    RunAfter(actions, more);
    AfterAppend(v, asks, serves + [Finish(id)]);
    AfterAppend(v1, serves, [Finish(id)]);
    assert After(v2, [Finish(id)]) == Step(v2, Finish(id));
  }
}
