/**
 Request/response over an event hub: response event names carry the request name and an id with
 no delimiter between them, and still tell all pending requests apart.
 */
module Bridge {
  import opened Wrappers

  // ----- ids -----

  const SAFE: nat := 0x20_0000_0000_0000

  /** Adding one to a double that holds an integer: 2^53 absorbs it. */
  function Increment(n: nat): nat
  {
    if n < SAFE then n + 1 else n
  }

  function Digit(n: nat): char
    requires n < 10
  {
    '0' + n as char
  }

  function Decimal(n: nat): (s: string)
    ensures s != "" && '_' !in s
  {
    if n < 10 then [Digit(n)] else Decimal(n / 10) + [Digit(n % 10)]
  }

  function Base36(n: nat): char
    requires n < 36
  {
    if n < 10 then '0' + n as char else 'a' + (n - 10) as char
  }

  /** Six random digits in base 36. */
  method RandomSuffix(draw: nat -> nat) returns (s: string)
    requires forall i :: draw(i) < 36
    ensures |s| == 6 && forall i :: 0 <= i < 6 ==> s[i] == Base36(draw(i))
    ensures '_' !in s
  {
    s := "";
    var i := 0;
    while i < 6
      invariant 0 <= i <= 6 && |s| == i
      invariant forall j :: 0 <= j < i ==> s[j] == Base36(draw(j))
    {
      s := s + [Base36(draw(i))];
      i := i + 1;
    }
  }

  function Id(name: string, counter: nat, suffix: string): string
  {
    name + "_" + Decimal(counter) + "_" + suffix
  }

  function ResponseEvent(name: string, counter: nat, suffix: string): string
  {
    "subscribe.callback-" + name + Id(name, counter, suffix)
  }

  lemma {:induction false} DecimalInjective(n: nat, m: nat)
    requires Decimal(n) == Decimal(m)
    ensures n == m
  {
    var s := Decimal(n);
    Unroll(n);
    Unroll(m);
    assert s[|s| - 1] == Digit(n % 10) == Digit(m % 10);
    if n >= 10 && m >= 10 {
      DecimalInjective(n / 10, m / 10);
    }
  }

  lemma Unroll(n: nat)
    ensures Decimal(n)[|Decimal(n)| - 1] == Digit(n % 10)
    ensures if n < 10 then |Decimal(n)| == 1 else Decimal(n)[..|Decimal(n)| - 1] == Decimal(n / 10)
  {
  }

  lemma PeelSuffix(a: string, x: string, b: string, y: string)
    requires |x| == |y| && a + x == b + y
    ensures a == b && x == y
  {
    assert |a| == |b|;
    assert a == (a + x)[..|a|] && b == (b + y)[..|b|];
    assert x == (a + x)[|a|..] && y == (b + y)[|b|..];
  }

  /** Behind the last '_' nothing else can hide: both ends are found from the right. */
  lemma PeelUnderscore(a: string, x: string, b: string, y: string)
    requires '_' !in x && '_' !in y && a + "_" + x == b + "_" + y
    ensures a == b && x == y
  {
    var s, t := a + "_" + x, b + "_" + y;
    assert s[|a|] == '_' && t[|b|] == '_';
    assert forall i :: |a| < i < |s| ==> s[i] == x[i - |a| - 1];
    assert forall i :: |b| < i < |t| ==> t[i] == y[i - |b| - 1];
    assert |a| == |b|;
    assert s == a + ("_" + x) && t == b + ("_" + y);
    PeelSuffix(a, "_" + x, b, "_" + y);
    assert ("_" + x)[1..] == x && ("_" + y)[1..] == y;
  }

  lemma Doubled(a: string, b: string)
    requires a + a == b + b
    ensures a == b
  {
    assert |a + a| == |b + b|;
    PeelSuffix(a, a, b, b);
  }

  /** The event name determines the request name, the counter and the suffix. */
  lemma EventInjective(a: string, n: nat, x: string, b: string, m: nat, y: string)
    requires |x| == |y| && ResponseEvent(a, n, x) == ResponseEvent(b, m, y)
    ensures a == b && n == m && x == y
  {
    var prefix := "subscribe.callback-";
    var left, right := prefix + (a + a), prefix + (b + b);
    assert ResponseEvent(a, n, x) == (left + "_" + Decimal(n)) + ("_" + x);
    assert ResponseEvent(b, m, y) == (right + "_" + Decimal(m)) + ("_" + y);
    PeelSuffix(left + "_" + Decimal(n), "_" + x, right + "_" + Decimal(m), "_" + y);
    PeelSuffix("_", x, "_", y);
    PeelUnderscore(left, Decimal(n), right, Decimal(m));
    DecimalInjective(n, m);
    assert left[|prefix|..] == a + a && right[|prefix|..] == b + b;
    Doubled(a, b);
  }

  // ----- the hub -----

  datatype Status = Pending | Resolved | Rejected

  datatype Listener = Listener(event: string, promise: nat)

  datatype Call = Call(name: string, suffix: string)

  /** Calls are numbered in order; `calls`, `events` and `status` are indexed by that number. */
  datatype Hub = Hub(counter: nat, calls: seq<Call>, events: seq<string>, status: seq<Status>, listeners: seq<Listener>)

  const EMPTY: Hub := Hub(0, [], [], [], [])

  datatype Action = Invoke(call: Call) | Reply(event: string) | SendFailed(promise: nat)

  predicate Distinct(ls: seq<Listener>)
  {
    forall i, j :: 0 <= i < j < |ls| ==> ls[i] != ls[j]
  }

  function Except(ls: seq<Listener>, event: string): (r: seq<Listener>)
    ensures forall l :: l in r <==> l in ls && l.event != event
  {
    if ls == [] then []
    else if ls[|ls| - 1].event == event then Except(ls[..|ls| - 1], event)
    else Except(ls[..|ls| - 1], event) + [ls[|ls| - 1]]
  }

  function Without(ls: seq<Listener>, gone: Listener): (r: seq<Listener>)
    ensures forall l :: l in r <==> l in ls && l != gone
  {
    if ls == [] then []
    else if ls[|ls| - 1] == gone then Without(ls[..|ls| - 1], gone)
    else Without(ls[..|ls| - 1], gone) + [ls[|ls| - 1]]
  }

  lemma LastIsNew(ls: seq<Listener>)
    requires ls != [] && Distinct(ls)
    ensures Distinct(ls[..|ls| - 1]) && ls[|ls| - 1] !in ls[..|ls| - 1]
  {
  }

  lemma {:induction false} ExceptDistinct(ls: seq<Listener>, event: string)
    requires Distinct(ls)
    ensures Distinct(Except(ls, event))
    decreases |ls|
  {
    if ls != [] {
      var front, last := ls[..|ls| - 1], ls[|ls| - 1];
      LastIsNew(ls);
      ExceptDistinct(front, event);
      assert last !in Except(front, event);
      Added(Except(front, event), last);
    }
  }

  lemma {:induction false} WithoutDistinct(ls: seq<Listener>, gone: Listener)
    requires Distinct(ls)
    ensures Distinct(Without(ls, gone))
    decreases |ls|
  {
    if ls != [] {
      var front, last := ls[..|ls| - 1], ls[|ls| - 1];
      LastIsNew(ls);
      WithoutDistinct(front, gone);
      assert last !in Without(front, gone);
      Added(Without(front, gone), last);
    }
  }

  lemma Added(ls: seq<Listener>, l: Listener)
    requires Distinct(ls) && l !in ls
    ensures Distinct(ls + [l])
  {
  }

  /** Resolving a promise that is already settled does nothing. */
  function Settle(status: seq<Status>, p: nat, outcome: Status): (r: seq<Status>)
    ensures |r| == |status|
  {
    if p < |status| && status[p].Pending? then status[p := outcome] else status
  }

  function ResolveAll(status: seq<Status>, ls: seq<Listener>, event: string): (r: seq<Status>)
    ensures |r| == |status|
  {
    if ls == [] then status
    else
      var rest := ResolveAll(status, ls[..|ls| - 1], event);
      if ls[|ls| - 1].event == event then Settle(rest, ls[|ls| - 1].promise, Resolved) else rest
  }

  function Step(h: Hub, a: Action): Hub
  {
    match a
    case Invoke(call) =>
      var event := ResponseEvent(call.name, h.counter, call.suffix);
      Hub(Increment(h.counter), h.calls + [call], h.events + [event], h.status + [Pending], h.listeners + [Listener(event, |h.events|)])
    case Reply(event) =>
      h.(listeners := Except(h.listeners, event), status := ResolveAll(h.status, h.listeners, event))
    case SendFailed(p) =>
      if p < |h.events| then
        h.(listeners := Without(h.listeners, Listener(h.events[p], p)), status := Settle(h.status, p, Rejected))
      else h
  }

  function Run(actions: seq<Action>): Hub
  {
    if actions == [] then EMPTY else Step(Run(actions[..|actions| - 1]), actions[|actions| - 1])
  }

  function Reached(n: nat): nat
  {
    if n < SAFE then n else SAFE
  }

  /** Every call has the event name of its turn. */
  ghost predicate Numbered(h: Hub)
  {
    && |h.calls| == |h.events| == |h.status| && h.counter == Reached(|h.calls|)
    && forall p :: 0 <= p < |h.events| ==> h.events[p] == ResponseEvent(h.calls[p].name, Reached(p), h.calls[p].suffix)
  }

  ghost predicate Own(h: Hub, l: Listener)
  {
    l.promise < |h.events| == |h.status| && l.event == h.events[l.promise] && h.status[l.promise].Pending?
  }

  ghost predicate Heard(h: Hub, p: nat)
    requires p < |h.events|
  {
    Listener(h.events[p], p) in h.listeners
  }

  /** A call is pending exactly while its own listener, of which there is one, is registered. */
  ghost predicate Listening(h: Hub)
  {
    && |h.events| == |h.status| && Distinct(h.listeners)
    && (forall l {:trigger Own(h, l)} :: l in h.listeners ==> Own(h, l))
    && (forall p: nat {:trigger Heard(h, p)} :: p < |h.events| ==> (h.status[p].Pending? <==> Heard(h, p)))
  }

  lemma {:induction false} ResolveAllExact(status: seq<Status>, ls: seq<Listener>, event: string, p: nat)
    requires p < |status|
    ensures ResolveAll(status, ls, event)[p] ==
            if Listener(event, p) in ls && status[p].Pending? then Resolved else status[p]
    decreases |ls|
  {
    if ls != [] {
      var n := |ls| - 1;
      ResolveAllExact(status, ls[..n], event, p);
      assert ls == ls[..n] + [ls[n]];
      if ls[n].event == event && ls[n].promise == p {
        assert ls[n] == Listener(event, p);
      }
    }
  }

  lemma InvokeListens(h: Hub, call: Call)
    requires Listening(h)
    ensures Listening(Step(h, Invoke(call)))
  {
    var h' := Step(h, Invoke(call));
    var n := |h.events|;
    forall l | l in h'.listeners
      ensures Own(h', l)
    {
      if l in h.listeners {
        assert Own(h, l);
      }
    }
    forall l | l in h.listeners
      ensures l.promise < n
    {
      assert Own(h, l);
    }
    Added(h.listeners, Listener(h'.events[n], n));
    forall p: nat | p < |h'.events|
      ensures h'.status[p].Pending? <==> Heard(h', p)
    {
      if p < n {
        assert h.status[p].Pending? <==> Heard(h, p);
      } else {
        assert h'.listeners[|h.listeners|] == Listener(h'.events[p], p);
      }
    }
  }

  lemma ReplyListens(h: Hub, event: string)
    requires Listening(h)
    ensures Listening(Step(h, Reply(event)))
  {
    var h' := Step(h, Reply(event));
    ExceptDistinct(h.listeners, event);
    forall p: nat | p < |h'.events|
      ensures h'.status[p].Pending? <==> Heard(h', p)
    {
      if Listener(event, p) in h.listeners {
        assert Own(h, Listener(event, p));
      }
      ResolveAllExact(h.status, h.listeners, event, p);
      assert h.status[p].Pending? <==> Heard(h, p);
    }
    forall l | l in h'.listeners
      ensures Own(h', l)
    {
      assert Own(h, l);
      ResolveAllExact(h.status, h.listeners, event, l.promise);
    }
  }

  lemma FailureListens(h: Hub, p: nat)
    requires Listening(h)
    ensures Listening(Step(h, SendFailed(p)))
  {
    if p < |h.events| {
      var h' := Step(h, SendFailed(p));
      WithoutDistinct(h.listeners, Listener(h.events[p], p));
      forall l | l in h'.listeners
        ensures Own(h', l)
      {
        assert Own(h, l);
      }
      forall q: nat | q < |h'.events|
        ensures h'.status[q].Pending? <==> Heard(h', q)
      {
        assert h.status[q].Pending? <==> Heard(h, q);
      }
    }
  }

  lemma StepKeeps(h: Hub, a: Action)
    requires Listening(h) && Numbered(h)
    ensures Listening(Step(h, a)) && Numbered(Step(h, a))
  {
    match a
    case Invoke(call) => InvokeListens(h, call);
    case Reply(event) => ReplyListens(h, event);
    case SendFailed(p) => FailureListens(h, p);
  }

  lemma {:induction false} RunKeeps(actions: seq<Action>)
    ensures Listening(Run(actions)) && Numbered(Run(actions))
    decreases |actions|
  {
    if actions != [] {
      RunKeeps(actions[..|actions| - 1]);
      StepKeeps(Run(actions[..|actions| - 1]), actions[|actions| - 1]);
    }
  }

  predicate Suffixed(calls: seq<Call>)
  {
    forall i :: 0 <= i < |calls| ==> |calls[i].suffix| == 6
  }

  /**
   Two calls share their response event exactly when both came after the counter stopped
   counting, have the same name and happened to draw the same suffix.
   */
  lemma EventsClash(actions: seq<Action>, p: nat, q: nat)
    requires p < q < |Run(actions).calls| && Suffixed(Run(actions).calls)
    ensures |Run(actions).events| == |Run(actions).calls|
    ensures Run(actions).events[p] == Run(actions).events[q] <==> p >= SAFE && Run(actions).calls[p] == Run(actions).calls[q]
  {
    RunKeeps(actions);
    var h := Run(actions);
    if h.events[p] == h.events[q] {
      EventInjective(h.calls[p].name, Reached(p), h.calls[p].suffix, h.calls[q].name, Reached(q), h.calls[q].suffix);
    }
  }

  /** Up to 2^53 + 1 calls, a reply settles the one call it is for, and removes its listener. */
  lemma ReplySettlesOne(actions: seq<Action>, p: nat)
    requires p < |Run(actions).calls| <= SAFE + 1 && Suffixed(Run(actions).calls)
    ensures |Run(actions).events| == |Run(actions).status| == |Run(actions).calls|
    ensures var h := Run(actions);
            var h' := Step(h, Reply(h.events[p]));
            && h'.status == Settle(h.status, p, Resolved)
            && forall l :: l in h'.listeners <==> l in h.listeners && l.promise != p
  {
    RunKeeps(actions);
    var h := Run(actions);
    var event := h.events[p];
    var h' := Step(h, Reply(event));
    forall q: nat | q < |h.events|
      ensures (h.events[q] == event <==> q == p) && h'.status[q] == Settle(h.status, p, Resolved)[q]
    {
      if q < p {
        EventsClash(actions, q, p);
      } else if p < q {
        EventsClash(actions, p, q);
      }
      ResolveAllExact(h.status, h.listeners, event, q);
      assert h.status[q].Pending? <==> Heard(h, q);
      if Listener(event, q) in h.listeners {
        assert Own(h, Listener(event, q));
      }
    }
    forall l | l in h.listeners
      ensures l.event == event <==> l.promise == p
    {
      assert Own(h, l);
    }
  }

  /** A new call is pending under the response event of its turn until its reply or its failure settles it. */
  lemma InvokeSettles(actions: seq<Action>, call: Call)
    requires |Run(actions).calls| <= SAFE && Suffixed(Run(actions).calls + [call])
    ensures var h, h' := Run(actions), Run(actions + [Invoke(call)]);
            var p := |h.calls|;
            && p == |h.status| == |h.events|
            && h'.calls == h.calls + [call] && h'.events == h.events + [ResponseEvent(call.name, p, call.suffix)]
            && h'.status == h.status + [Pending]
            && Step(h', Reply(h'.events[p])).status == h.status + [Resolved]
            && Step(h', SendFailed(p)).status == h.status + [Rejected]
  {
    RunKeeps(actions);
    var more := actions + [Invoke(call)];
    assert more[..|actions|] == actions;
    var p := |Run(actions).calls|;
    ReplySettlesOne(more, p);
    assert (Run(actions).status + [Pending])[p := Resolved] == Run(actions).status + [Resolved];
    assert (Run(actions).status + [Pending])[p := Rejected] == Run(actions).status + [Rejected];
  }

  function Repeated(call: Call, n: nat): seq<Action>
  {
    seq(n, i => Invoke(call))
  }

  lemma {:induction false} RepeatedCalls(call: Call, n: nat)
    ensures Run(Repeated(call, n)).calls == seq(n, i => call)
  {
    if n > 0 {
      RepeatedCalls(call, n - 1);
      assert Repeated(call, n)[..n - 1] == Repeated(call, n - 1);
    }
  }

  /** Past that point a repeated name and suffix do share one response event. */
  lemma ClashHappens(call: Call, n: nat)
    requires |call.suffix| == 6 && n >= SAFE + 2
    ensures |Run(Repeated(call, n)).events| == n
    ensures Run(Repeated(call, n)).events[SAFE] == Run(Repeated(call, n)).events[SAFE + 1]
  {
    RepeatedCalls(call, n);
    RunKeeps(Repeated(call, n));
    EventsClash(Repeated(call, n), SAFE, SAFE + 1);
  }

  // ----- the module's state -----

  class EventBridge {
    var idCounter: nat
    var calls: seq<Call>
    var events: seq<string>
    var status: seq<Status>
    var listeners: seq<Listener>

    function Value(): Hub
      reads this
    {
      Hub(idCounter, calls, events, status, listeners)
    }

    constructor ()
      ensures Value() == EMPTY
    {
      idCounter, calls, events, status, listeners := 0, [], [], [], [];
    }

    method NextId(prefix: string, suffix: string) returns (id: string)
      modifies `idCounter
      ensures id == Id(prefix, old(idCounter), suffix) && idCounter == Increment(old(idCounter))
    {
      id := prefix + "_" + Decimal(idCounter) + "_" + suffix;
      idCounter := Increment(idCounter);
    }

    /** The part of `invoke` up to sending: the listener is there before anything is sent. */
    method Begin(name: string, suffix: string) returns (promise: nat)
      requires |events| == |status|
      modifies this
      ensures Value() == Step(old(Value()), Invoke(Call(name, suffix)))
      ensures promise == |old(events)|
    {
      var id := NextId(name, suffix);
      var responseEvent := "subscribe.callback-" + name + id;
      promise := |events|;
      calls, events, status := calls + [Call(name, suffix)], events + [responseEvent], status + [Pending];
      listeners := listeners + [Listener(responseEvent, promise)];
    }

    /** Delivers an event: one-shot listeners for it are removed and called. */
    method Emit(event: string)
      modifies this
      ensures Value() == Step(old(Value()), Reply(event))
    {
      var kept: seq<Listener> := [];
      var i := 0;
      while i < |listeners|
        invariant 0 <= i <= |listeners|
        invariant kept == Except(listeners[..i], event)
        invariant status == ResolveAll(old(status), listeners[..i], event)
        invariant Value() == old(Value()).(status := status)
      {
        assert listeners[..i + 1][..i] == listeners[..i];
        var l := listeners[i];
        if l.event == event {
          if l.promise < |status| && status[l.promise].Pending? {
            status := status[l.promise := Resolved];
          }
        } else {
          kept := kept + [l];
        }
        i := i + 1;
      }
      assert listeners[..i] == listeners;
      listeners := kept;
    }

    /** Sending threw: the listener goes, and the promise is rejected unless a reply came first. */
    method Abort(promise: nat)
      requires promise < |events|
      modifies this
      ensures Value() == Step(old(Value()), SendFailed(promise))
    {
      listeners := Without(listeners, Listener(events[promise], promise));
      status := Settle(status, promise, Rejected);
    }
  }
}
