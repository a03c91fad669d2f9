/**
 The computer worker's ledger of native sessions: bound under a fresh handle, kept until
 their `end_session` call succeeds, closed exactly then. Tool outcomes are inputs.
 */
module Ledgers {
  import opened Wrappers

  /** A finished tool call: its JSON may not parse, and may itself say `"shutdown": true`. */
  datatype Tool =
    | Returned(isError: bool, parses: bool, saysShutdown: bool)
    | Refused(error: string)

  predicate Succeeds(t: Tool)
  {
    t.Returned? && !t.isError
  }

  /**
   `live` is the worker's map from handle to native session. Native sessions are numbered in
   order of creation; `ended` and `closed` are those whose `end_session` succeeded and whose
   authorization was revoked, `twice` tells whether one was revoked again.
   */
  datatype Ledger = Ledger(live: map<string, nat>, created: nat, ended: set<nat>, closed: set<nat>, twice: bool)

  const EMPTY: Ledger := Ledger(map[], 0, {}, {}, false)

  /** Exactly the sessions created and not yet successfully ended are in the map, once each. */
  ghost predicate Inv(l: Ledger)
  {
    && (forall h, g :: h in l.live && g in l.live && l.live[h] == l.live[g] ==> h == g)
    && (forall n: nat :: n in l.live.Values <==> n < l.created && n !in l.ended)
    && l.closed == l.ended
    && (forall n :: n in l.ended ==> n < l.created)
    && !l.twice
  }

  function EndOne(l: Ledger, h: string): Ledger
    requires h in l.live
  {
    var n := l.live[h];
    Ledger(l.live - {h}, l.created, l.ended + {n}, l.closed + {n}, l.twice || n in l.closed)
  }

  /** All the sessions under the handles `done` ended and closed, in whatever order. */
  function EndAll(l: Ledger, done: set<string>): Ledger
    requires done <= l.live.Keys
  {
    var natives := set h | h in done :: l.live[h];
    Ledger(l.live - done, l.created, l.ended + natives, l.closed + natives, l.twice)
  }

  function Ending(l: Ledger, end: string -> Tool): set<string>
  {
    set h | h in l.live && Succeeds(end(h))
  }

  function Bound(l: Ledger, handle: string): Ledger
  {
    l.(live := l.live[handle := l.created], created := l.created + 1)
  }

  datatype Options = Missing | Invalid | Named(blank: bool)

  datatype Request =
    | Call(name: string, handle: Option<string>, outcome: Tool)
    | Bind(options: Options, uuid: string, created: bool, start: Tool)
    | Close(handleToClose: Option<string>, end: Tool)
    | Shutdown(ends: string -> Tool, driverStops: bool)
    | Query(answer: Option<bool>)

  datatype Code = SessionNotBound | InvalidRequest | WorkerRequestFailed

  datatype Response = Success(shutdown: bool) | Failure(code: Code)

  function Answered(t: Tool): Response
  {
    if t.Returned? && t.parses then Success(t.saysShutdown) else Failure(WorkerRequestFailed)
  }

  function Handle(l: Ledger, req: Request): (Ledger, Response)
  {
    match req
    case Call(name, handle, outcome) =>
      if handle.Some? && handle.value !in l.live then (l, Failure(SessionNotBound))
      else if handle.Some? && name == "end_session" && Succeeds(outcome) then
        (EndOne(l, handle.value), Answered(outcome))
      else (l, Answered(outcome))
    case Bind(options, uuid, created, start) =>
      if options.Named? && !options.blank && created then
        (Bound(l, uuid), if Succeeds(start) then Success(false) else Failure(WorkerRequestFailed))
      else (l, Failure(WorkerRequestFailed))
    case Close(handle, end) =>
      if handle.None? then (l, Failure(InvalidRequest))
      else if handle.value !in l.live then (l, Success(false))
      else if Succeeds(end) then (EndOne(l, handle.value), Success(false))
      else (l, Failure(WorkerRequestFailed))
    case Shutdown(ends, driverStops) =>
      var l' := EndAll(l, Ending(l, ends));
      (l', if l'.live == map[] && driverStops then Success(true) else Failure(WorkerRequestFailed))
    case Query(answer) =>
      (l, if answer.Some? then Success(answer.value) else Failure(WorkerRequestFailed))
  }

  // ----- what each operation keeps -----

  lemma EndOneIsEndAll(l: Ledger, h: string)
    requires Inv(l) && h in l.live
    ensures EndOne(l, h) == EndAll(l, {h})
  {
    assert l.live[h] in l.live.Values;
    assert (set g | g in {h} :: l.live[g]) == {l.live[h]};
  }

  lemma EndAllKeeps(l: Ledger, done: set<string>)
    requires Inv(l) && done <= l.live.Keys
    ensures Inv(EndAll(l, done))
  {
    var l' := EndAll(l, done);
    forall n: nat
      ensures n in l'.live.Values <==> n < l'.created && n !in l'.ended
    {
      if n in l.live.Values {
        var h :| h in l.live && l.live[h] == n;
        if h !in done {
          assert h in l'.live;
        }
      }
    }
    forall n | n in l'.ended
      ensures n < l'.created
    {
      if n !in l.ended {
        var h :| h in done && l.live[h] == n;
        assert n in l.live.Values;
      }
    }
  }

  /** Ending in two rounds is ending at once. */
  lemma EndAllSplits(l: Ledger, done: set<string>, h: string)
    requires Inv(l) && done <= l.live.Keys && h in l.live && h !in done
    ensures h in EndAll(l, done).live && EndAll(l, done).live[h] == l.live[h]
    ensures EndOne(EndAll(l, done), h) == EndAll(l, done + {h})
  {
    EndAllKeeps(l, done);
    var mid := EndAll(l, done);
    EndOneIsEndAll(mid, h);
    assert mid.live - {h} == l.live - (done + {h});
    assert (set g | g in done + {h} :: l.live[g]) == (set g | g in done :: l.live[g]) + (set g | g in {h} :: mid.live[g]);
  }

  /** A handle taken from a live session loses that session: freshness is exactly what is needed. */
  lemma BoundKeeps(l: Ledger, handle: string)
    requires Inv(l)
    ensures Inv(Bound(l, handle)) <==> handle !in l.live
  {
    var l' := Bound(l, handle);
    assert l.created !in l.live.Values;
    if handle in l.live {
      var n := l.live[handle];
      assert n in l.live.Values;
      assert n !in l'.live.Values;
    } else {
      forall n: nat
        ensures n in l'.live.Values <==> n < l'.created && n !in l'.ended
      {
        if n in l.live.Values {
          var h :| h in l.live && l.live[h] == n;
          assert h in l'.live && l'.live[h] == n;
        }
        if n == l.created {
          assert handle in l'.live;
        }
      }
    }
  }

  /** No request but a binding under a live handle breaks the ledger. */
  lemma HandleKeeps(l: Ledger, req: Request)
    requires Inv(l)
    requires req.Bind? ==> req.uuid !in l.live
    ensures Inv(Handle(l, req).0)
    ensures l.ended <= Handle(l, req).0.ended
    ensures Handle(l, req).0.created == l.created + (if req.Bind? && Handle(l, req).0 != l then 1 else 0)
  {
    match req {
      case Call(name, handle, outcome) =>
        if Handle(l, req).0 != l {
          EndOneIsEndAll(l, handle.value);
          EndAllKeeps(l, {handle.value});
        }
      case Bind(options, uuid, created, start) =>
        BoundKeeps(l, uuid);
      case Close(handle, end) =>
        if Handle(l, req).0 != l {
          EndOneIsEndAll(l, handle.value);
          EndAllKeeps(l, {handle.value});
        }
      case Shutdown(ends, driverStops) =>
        EndAllKeeps(l, Ending(l, ends));
      case Query(answer) =>
    }
  }

  /** A `shutdown` request keeps exactly the sessions that failed to end, and succeeds only without any. */
  lemma ShutdownExact(l: Ledger, ends: string -> Tool, driverStops: bool)
    ensures var (l', r) := Handle(l, Shutdown(ends, driverStops));
            && (forall h :: h in l'.live <==> h in l.live && !Succeeds(ends(h)))
            && (forall h :: h in l'.live ==> l'.live[h] == l.live[h])
            && (r == Success(true) <==> driverStops && forall h :: h in l.live ==> Succeeds(ends(h)))
            && (r == Success(true) ==> l'.live == map[])
  {
    var l' := Handle(l, Shutdown(ends, driverStops)).0;
    if l'.live != map[] {
      var h :| h in l'.live;
      assert h in l.live && !Succeeds(ends(h));
    }
  }

  // ----- requests, told from outside -----

  /** The request reports a successful `end_session` for the session under this handle. */
  predicate Reports(req: Request, h: string)
  {
    match req
    case Call(name, handle, outcome) => name == "end_session" && handle == Some(h) && Succeeds(outcome)
    case Close(handle, end) => handle == Some(h) && Succeeds(end)
    case Shutdown(ends, _) => Succeeds(ends(h))
    case _ => false
  }

  /** The request creates a session under this handle. */
  predicate Binds(req: Request, h: string)
  {
    req.Bind? && req.uuid == h && req.options == Named(false) && req.created
  }

  ghost predicate EndsNative(l: Ledger, req: Request, n: nat)
  {
    exists h :: h in l.live && l.live[h] == n && Reports(req, h)
  }

  /** Live handles lose those reported ended and gain the bound one; exactly those natives are ended and closed. */
  lemma HandleExact(l: Ledger, req: Request)
    ensures var l' := Handle(l, req).0;
            && (forall h :: h in l'.live <==> (h in l.live && !Reports(req, h)) || Binds(req, h))
            && (forall h :: h in l'.live ==> l'.live[h] == if Binds(req, h) then l.created else l.live[h])
            && (forall n: nat :: n in l'.ended <==> n in l.ended || EndsNative(l, req, n))
            && (forall n: nat :: n in l'.closed <==> n in l.closed || EndsNative(l, req, n))
            && l'.created == l.created + if req.Bind? && Binds(req, req.uuid) then 1 else 0
  {
    var l' := Handle(l, req).0;
    forall n: nat
      ensures n in l'.ended <==> n in l.ended || EndsNative(l, req, n)
      ensures n in l'.closed <==> n in l.closed || EndsNative(l, req, n)
    {
      if EndsNative(l, req, n) {
        var h :| h in l.live && l.live[h] == n && Reports(req, h);
        if req.Shutdown? {
          assert h in Ending(l, req.ends);
        }
      }
    }
  }

  /** What the caller is told: a closed handle is one that is no longer live, a bound one has started. */
  lemma AnswerExact(l: Ledger, req: Request)
    ensures var (l', r) := Handle(l, req);
            match req
            case Call(_, handle, outcome) =>
              if handle.Some? && handle.value !in l.live then r == Failure(SessionNotBound)
              else r.Success? <==> outcome.Returned? && outcome.parses
            case Bind(_, uuid, _, start) => r == Success(false) <==> Binds(req, uuid) && Succeeds(start)
            case Close(handle, _) => r == Success(false) <==> handle.Some? && handle.value !in l'.live
            case Shutdown(_, driverStops) => r == Success(true) <==> driverStops && l'.live == map[]
            case Query(answer) => r.Success? <==> answer.Some?
  {
  }

  // ----- the worker -----

  /** The handles outside `rest` whose session ended. */
  function Passed(l: Ledger, rest: set<string>, end: string -> Tool): set<string>
  {
    set h | h in l.live && h !in rest && Succeeds(end(h))
  }

  predicate AllPassed(l: Ledger, rest: set<string>, end: string -> Tool)
  {
    forall h :: h in l.live && h !in rest ==> Succeeds(end(h))
  }

  lemma PassOne(l: Ledger, rest: set<string>, h: string, end: string -> Tool)
    requires Inv(l) && rest <= l.live.Keys && h in rest
    ensures h in EndAll(l, Passed(l, rest, end)).live
    ensures EndAll(l, Passed(l, rest - {h}, end)) ==
            if Succeeds(end(h)) then EndOne(EndAll(l, Passed(l, rest, end)), h) else EndAll(l, Passed(l, rest, end))
    ensures AllPassed(l, rest - {h}, end) <==> AllPassed(l, rest, end) && Succeeds(end(h))
  {
    EndAllSplits(l, Passed(l, rest, end), h);
    assert Passed(l, rest - {h}, end) == Passed(l, rest, end) + (if Succeeds(end(h)) then {h} else {});
  }

  datatype Content = ReadError | Malformed | OtherGeneration | Accepted(request: Request)

  /** One input line and whether its response could be written. */
  datatype Line = Line(content: Content, written: bool)

  datatype Exit = Clean | CleanupFailed | WriteFailed

  class Worker {
    var sessions: map<string, nat>
    var created: nat
    var ended: set<nat>
    var closed: set<nat>
    var twice: bool

    function Value(): Ledger
      reads this
    {
      Ledger(sessions, created, ended, closed, twice)
    }

    constructor ()
      ensures Value() == EMPTY
    {
      sessions, created, ended, closed, twice := map[], 0, {}, {}, false;
    }

    method CloseNative(n: nat)
      modifies `closed, `twice
      ensures closed == old(closed) + {n} && twice == (old(twice) || n in old(closed))
    {
      closed, twice := closed + {n}, twice || n in closed;
    }

    method CloseSession(handle: string, end: Tool) returns (failure: Option<string>)
      modifies this
      ensures handle !in old(sessions) || !Succeeds(end) ==> Value() == old(Value())
      ensures handle in old(sessions) && Succeeds(end) ==> Value() == EndOne(old(Value()), handle)
      ensures failure.Some? <==> handle in old(sessions) && !Succeeds(end)
      ensures failure.Some? && end.Refused? ==> failure.value == end.error
    {
      if handle !in sessions {
        return None;
      }
      var session := sessions[handle];
      if end.Refused? {
        return Some(end.error);
      }
      if end.isError {
        return Some("end native session");
      }
      ended := ended + {session};
      CloseNative(session);
      sessions := sessions - {handle};
      return None;
    }

    /** Whatever the map's order, exactly the failures stay. */
    method CloseSessions(end: string -> Tool) returns (failure: Option<string>)
      requires Inv(Value())
      modifies this
      ensures Value() == EndAll(old(Value()), Ending(old(Value()), end)) && Inv(Value())
      ensures failure.None? <==> sessions == map[]
    {
      ghost var start := Value();
      var handles := sessions.Keys;
      failure := None;
      while handles != {}
        invariant handles <= start.live.Keys
        invariant Value() == EndAll(start, Passed(start, handles, end))
        invariant failure.None? <==> AllPassed(start, handles, end)
        decreases |handles|
      {
        var handle :| handle in handles;
        PassOne(start, handles, handle, end);
        var outcome := CloseSession(handle, end(handle));
        if failure.None? {
          failure := outcome;
        }
        handles := handles - {handle};
      }
      assert Passed(start, {}, end) == Ending(start, end);
      EndAllKeeps(start, Ending(start, end));
      EndsNone(start, end);
    }

    method HandleRequest(req: Request) returns (response: Response)
      requires Inv(Value())
      modifies this
      ensures (Value(), response) == Handle(old(Value()), req)
    {
      match req
      case Call(name, handle, outcome) =>
        if handle.Some? && handle.value !in sessions {
          return Failure(SessionNotBound);
        }
        if handle.Some? && name == "end_session" && outcome.Returned? && !outcome.isError {
          var session := sessions[handle.value];
          ended := ended + {session};
          sessions := sessions - {handle.value};
          CloseNative(session);
        }
        response := Answered(outcome);
      case Bind(options, uuid, success, start) =>
        if !options.Named? || options.blank || !success {
          return Failure(WorkerRequestFailed);
        }
        sessions, created := sessions[uuid := created], created + 1;
        response := if start.Returned? && !start.isError then Success(false) else Failure(WorkerRequestFailed);
      case Close(handle, end) =>
        if handle.None? {
          return Failure(InvalidRequest);
        }
        var failure := CloseSession(handle.value, end);
        response := if failure.None? then Success(false) else Failure(WorkerRequestFailed);
      case Shutdown(ends, driverStops) =>
        var failure := CloseSessions(ends);
        response := if failure.None? && driverStops then Success(true) else Failure(WorkerRequestFailed);
      case Query(answer) =>
        response := if answer.Some? then Success(answer.value) else Failure(WorkerRequestFailed);
    }

    /** The request loop with its final cleanup: a clean exit leaves no native session behind. */
    method Serve(lines: seq<Line>, ends: string -> Tool, driverStops: bool) returns (exit: Exit)
      requires Value() == EMPTY && FreshHandles(lines)
      modifies this
      ensures Inv(Value())
      ensures exit == Clean ==> sessions == map[] && forall n: nat :: n in closed <==> n < created
      ensures exit != WriteFailed ==>
                Value() == EndAll(Loop(lines).0, Ending(Loop(lines).0, ends)) &&
                (exit == Clean <==> driverStops && forall h :: h in Loop(lines).0.live ==> Succeeds(ends(h)))
      ensures exit == WriteFailed <==> Loop(lines).1 == Broken
    {
      var i := 0;
      var stopped := false;
      while i < |lines| && !stopped
        invariant 0 <= i <= |lines|
        invariant Loop(lines[..i]) == (Value(), if stopped then Stopped else Running)
        decreases |lines| - i
      {
        LoopGrows(lines, i);
        var line := lines[i];
        if line.content.ReadError? {
          stopped := true;
        } else {
          var shutdown := false;
          if line.content.Accepted? {
            var response := HandleRequest(line.content.request);
            shutdown := response.Success? && response.shutdown;
          }
          if !line.written {
            return WriteFailed;
          }
          stopped := shutdown;
        }
        i := i + 1;
      }
      LoopStays(lines, i);
      assert lines[..|lines|] == lines;
      LoopKeeps(lines);
      var failure := CloseSessions(ends);
      EndsNone(Loop(lines).0, ends);
      return if failure.Some? || !driverStops then CleanupFailed else Clean;
    }
  }

  datatype Mode = Running | Stopped | Broken

  /** The ledger and mode after the loop has read `lines`. */
  function Loop(lines: seq<Line>): (Ledger, Mode)
  {
    if lines == [] then (EMPTY, Running)
    else
      var (l, mode) := Loop(lines[..|lines| - 1]);
      var line := lines[|lines| - 1];
      if !mode.Running? then (l, mode)
      else if line.content.ReadError? then (l, Stopped)
      else
        var (l', r) := if line.content.Accepted? then Handle(l, line.content.request) else (l, Success(false));
        (l', if !line.written then Broken else if r.Success? && r.shutdown then Stopped else Running)
  }

  function Uuids(lines: seq<Line>): set<string>
  {
    set i | 0 <= i < |lines| && lines[i].content.Accepted? && lines[i].content.request.Bind? :: lines[i].content.request.uuid
  }

  /** Random handles do not repeat within a run. */
  predicate FreshHandles(lines: seq<Line>)
  {
    forall i :: 0 <= i < |lines| && lines[i].content.Accepted? && lines[i].content.request.Bind? ==>
                  lines[i].content.request.uuid !in Uuids(lines[..i])
  }

  lemma {:induction false} LoopStays(lines: seq<Line>, i: nat)
    requires i <= |lines|
    ensures !Loop(lines[..i]).1.Running? ==> Loop(lines) == Loop(lines[..i])
    decreases |lines|
  {
    if i < |lines| {
      var n := |lines| - 1;
      LoopStays(lines[..n], i);
      assert lines[..n][..i] == lines[..i];
    } else {
      assert lines[..i] == lines;
    }
  }

  lemma EndsNone(l: Ledger, ends: string -> Tool)
    ensures EndAll(l, Ending(l, ends)).live == map[] <==> forall h :: h in l.live ==> Succeeds(ends(h))
  {
    ShutdownExact(l, ends, true);
  }

  /** One more line: the loop's ledger is sound and a handle to be bound is not live. */
  lemma LoopGrows(lines: seq<Line>, i: nat)
    requires i < |lines| && FreshHandles(lines)
    ensures lines[..i + 1][..i] == lines[..i]
    ensures Inv(Loop(lines[..i]).0) && Inv(Loop(lines[..i + 1]).0)
    ensures !Loop(lines[..i + 1]).1.Running? ==> Loop(lines) == Loop(lines[..i + 1])
  {
    FreshPrefix(lines, i);
    LoopKeeps(lines[..i]);
    FreshPrefix(lines, i + 1);
    LoopKeeps(lines[..i + 1]);
    LoopStays(lines, i + 1);
  }

  lemma FreshPrefix(lines: seq<Line>, n: nat)
    requires n <= |lines| && FreshHandles(lines)
    ensures FreshHandles(lines[..n])
  {
    var rest := lines[..n];
    forall i | 0 <= i < |rest| && rest[i].content.Accepted? && rest[i].content.request.Bind?
      ensures rest[i].content.request.uuid !in Uuids(rest[..i])
    {
      assert rest[..i] == lines[..i];
    }
  }

  /** In every run, at every point: exactly the created and not yet ended sessions are in the map. */
  lemma {:induction false} LoopKeeps(lines: seq<Line>)
    requires FreshHandles(lines)
    ensures Inv(Loop(lines).0)
    ensures Loop(lines).0.live.Keys <= Uuids(lines)
    decreases |lines|
  {
    if lines != [] {
      var n := |lines| - 1;
      var rest := lines[..n];
      FreshPrefix(lines, n);
      LoopKeeps(rest);
      if lines[n].content.Accepted? {
        HandleKeeps(Loop(rest).0, lines[n].content.request);
        HandleKeys(Loop(rest).0, lines[n].content.request);
      }
      assert forall u :: u in Uuids(rest) ==> u in Uuids(lines);
    }
  }

  lemma HandleKeys(l: Ledger, req: Request)
    ensures Handle(l, req).0.live.Keys <= l.live.Keys + (if req.Bind? then {req.uuid} else {})
  {
  }

  /** Line `i` is read by the running loop and its request is handled. */
  ghost predicate HandledAt(lines: seq<Line>, i: nat)
  {
    i < |lines| && Loop(lines[..i]).1.Running? && lines[i].content.Accepted?
  }

  ghost predicate BindsAt(lines: seq<Line>, i: nat, h: string)
  {
    HandledAt(lines, i) && Binds(lines[i].content.request, h)
  }

  ghost predicate ReportsAt(lines: seq<Line>, i: nat, h: string)
  {
    HandledAt(lines, i) && Reports(lines[i].content.request, h)
  }

  ghost predicate EndsAt(lines: seq<Line>, i: nat, n: nat)
  {
    HandledAt(lines, i) && EndsNative(Loop(lines[..i]).0, lines[i].content.request, n)
  }

  lemma HandledEarlier(lines: seq<Line>, i: nat)
    requires lines != [] && i < |lines| - 1
    ensures lines[..|lines| - 1][..i] == lines[..i] && lines[..|lines| - 1][i] == lines[i]
    ensures HandledAt(lines[..|lines| - 1], i) <==> HandledAt(lines, i)
  {
    assert lines[..|lines| - 1][..i] == lines[..i];
  }

  lemma LoopLast(lines: seq<Line>)
    requires lines != []
    ensures var n := |lines| - 1;
            Loop(lines).0 == if HandledAt(lines, n) then Handle(Loop(lines[..n]).0, lines[n].content.request).0 else Loop(lines[..n]).0
  {
  }

  /** Over a run the ended and the closed sessions are those for which some handled line reports a successful end. */
  lemma {:induction false} EndedExactly(lines: seq<Line>, n: nat)
    ensures n in Loop(lines).0.ended <==> exists i: nat :: EndsAt(lines, i, n)
    ensures n in Loop(lines).0.closed <==> exists i: nat :: EndsAt(lines, i, n)
    decreases |lines|
  {
    if lines != [] {
      var last := |lines| - 1;
      var rest := lines[..last];
      EndedExactly(rest, n);
      LoopLast(lines);
      if HandledAt(lines, last) {
        HandleExact(Loop(rest).0, lines[last].content.request);
      }
      forall i: nat | i < last
        ensures EndsAt(rest, i, n) <==> EndsAt(lines, i, n)
      {
        HandledEarlier(lines, i);
      }
      if i: nat :| EndsAt(rest, i, n) {
        assert EndsAt(lines, i, n);
      }
      assert EndsAt(lines, last, n) <==> HandledAt(lines, last) && EndsNative(Loop(rest).0, lines[last].content.request, n);
    }
  }

  /** A handle is bound and has not been reported ended since. */
  ghost predicate BoundSince(lines: seq<Line>, i: nat, h: string)
  {
    BindsAt(lines, i, h) && forall j: nat :: i < j ==> !ReportsAt(lines, j, h)
  }

  lemma BoundEarlier(lines: seq<Line>, i: nat, h: string)
    requires lines != [] && i < |lines| - 1
    ensures BoundSince(lines, i, h) <==> BoundSince(lines[..|lines| - 1], i, h) && !ReportsAt(lines, |lines| - 1, h)
  {
    var last := |lines| - 1;
    var rest := lines[..last];
    HandledEarlier(lines, i);
    forall j: nat | i < j < last
      ensures ReportsAt(rest, j, h) <==> ReportsAt(lines, j, h)
    {
      HandledEarlier(lines, j);
    }
  }

  /** Over a run the live handles are those bound and not reported ended since. */
  lemma {:induction false} LiveExactly(lines: seq<Line>, h: string)
    ensures h in Loop(lines).0.live <==> exists i: nat :: BoundSince(lines, i, h)
    decreases |lines|
  {
    if lines != [] {
      var last := |lines| - 1;
      var rest := lines[..last];
      LiveExactly(rest, h);
      LoopLast(lines);
      if HandledAt(lines, last) {
        HandleExact(Loop(rest).0, lines[last].content.request);
      }
      forall i: nat | i < last
        ensures BoundSince(lines, i, h) <==> BoundSince(rest, i, h) && !ReportsAt(lines, last, h)
      {
        BoundEarlier(lines, i, h);
      }
      assert BoundSince(lines, last, h) <==> BindsAt(lines, last, h);
      if i: nat :| BoundSince(rest, i, h) {
        assert BoundSince(lines, i, h) <==> !ReportsAt(lines, last, h);
      }
    }
  }

  /** A tool or query answer that itself says `"shutdown": true`. */
  predicate SaysShutdown(l: Ledger, req: Request)
  {
    if req.Call? then
      (req.handle.Some? ==> req.handle.value in l.live) && req.outcome.Returned? && req.outcome.parses && req.outcome.saysShutdown
    else
      req.Query? && req.answer == Some(true)
  }

  /** A line that stops the loop and leaves sessions bound: no `shutdown` request ever does. */
  predicate StopsBound(l: Ledger, line: Line)
  {
    if line.content.ReadError? then l.live != map[]
    else
      && line.content.Accepted? && line.written
      && SaysShutdown(l, line.content.request) && Handle(l, line.content.request).0.live != map[]
  }

  lemma ShutdownAnswers(l: Ledger, req: Request)
    ensures Handle(l, req).1 == Success(true) <==> SaysShutdown(l, req) || (req.Shutdown? && Handle(l, req).1 == Success(true))
    ensures req.Shutdown? && Handle(l, req).1 == Success(true) ==> Handle(l, req).0.live == map[]
  {
    if req.Shutdown? {
      ShutdownExact(l, req.ends, req.driverStops);
    }
  }

  /** In every run the loop stops with sessions bound exactly because of such a line. */
  lemma {:induction false} StopsBoundExactly(lines: seq<Line>)
    ensures Loop(lines).1.Stopped? && Loop(lines).0.live != map[] <==>
            exists i: nat :: StopsAt(lines, i)
    decreases |lines|
  {
    if lines != [] {
      var n := |lines| - 1;
      var rest := lines[..n];
      StopsBoundExactly(rest);
      StopsEarlier(lines);
      LastLine(lines);
      if Loop(lines).1.Stopped? && Loop(lines).0.live != map[] && !StopsAt(lines, n) {
        var i: nat :| StopsAt(rest, i);
        assert StopsAt(lines, i);
      }
      if i: nat :| StopsAt(lines, i) && i < n {
        assert StopsAt(rest, i);
      }
    }
  }

  ghost predicate StopsAt(lines: seq<Line>, i: nat)
  {
    i < |lines| && Loop(lines[..i]).1.Running? && StopsBound(Loop(lines[..i]).0, lines[i])
  }

  lemma StopsEarlier(lines: seq<Line>)
    requires lines != []
    ensures forall i: nat :: i < |lines| - 1 ==> (StopsAt(lines, i) <==> StopsAt(lines[..|lines| - 1], i))
  {
    var rest := lines[..|lines| - 1];
    forall i: nat | i < |rest|
      ensures StopsAt(lines, i) <==> StopsAt(rest, i)
    {
      assert rest[..i] == lines[..i];
    }
  }

  lemma LastLine(lines: seq<Line>)
    requires lines != []
    ensures var n := |lines| - 1;
            var stopped := Loop(lines).1.Stopped? && Loop(lines).0.live != map[];
            if Loop(lines[..n]).1.Running? then stopped <==> StopsAt(lines, n) else Loop(lines) == Loop(lines[..n]) && !StopsAt(lines, n)
  {
    var n := |lines| - 1;
    if Loop(lines[..n]).1.Running? && lines[n].content.Accepted? {
      ShutdownAnswers(Loop(lines[..n]).0, lines[n].content.request);
    }
  }

  /** This does happen: a tool that answers `"shutdown": true` stops the loop with a session still bound. */
  lemma ToolStopsLoop()
    ensures exists lines: seq<Line> :: FreshHandles(lines) && Loop(lines).1.Stopped? && Loop(lines).0.live != map[]
                            && forall i :: 0 <= i < |lines| ==> lines[i].content.Accepted? && !lines[i].content.request.Shutdown?
  {
    var bind := Line(Accepted(Bind(Named(false), "a", true, Returned(false, true, false))), true);
    var call := Line(Accepted(Call("", None, Returned(false, true, true))), true);
    var lines := [bind, call];
    assert lines[..1] == [bind] && lines[..0] == [];
    assert [bind][..0] == [];
    assert Loop([bind]) == (Ledger(map["a" := 0], 1, {}, {}, false), Running);
    assert "a" in Loop(lines).0.live;
  }
}
