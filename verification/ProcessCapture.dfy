/**
 Capturing descendants of a private bus by pidfd while processes exit, fork and PIDs are
 reused between any two reads. A history of process tables is an input; every system call
 looks at it at some later time.
 */
module ProcessCapture {
  import opened Wrappers

  datatype Proc = Proc(started: nat, session: nat, uid: nat)

  type History = nat -> map<nat, Proc>

  /** One process: a PID and the start time that tells its reuses apart. */
  datatype Identity = Identity(pid: nat, started: nat)

  predicate Alive(w: History, id: Identity, t: nat)
  {
    id.pid in w(t) && w(t)[id.pid].started == id.started
  }

  predicate Between(t: nat, u: nat, v: nat)
  {
    t <= u <= v
  }

  /** A pair of PID and start time never comes back: its lifetime is one interval. */
  ghost predicate Coherent(w: History)
  {
    forall id, t: nat, u: nat, v: nat {:trigger Between(t, u, v), Alive(w, id, u)} ::
      Between(t, u, v) && Alive(w, id, t) && Alive(w, id, v) ==> Alive(w, id, u)
  }

  predicate InSession(w: History, id: Identity, t: nat, bus: nat)
  {
    Alive(w, id, t) && w(t)[id.pid].session == bus
  }

  predicate OwnedBy(w: History, id: Identity, t: nat, uid: nat)
  {
    Alive(w, id, t) && w(t)[id.pid].uid == uid
  }

  /** Until `now`, the process was in the bus session, then owned by `uid`, then in the session again. */
  ghost predicate Ours(w: History, bus: nat, uid: nat, id: Identity, now: nat)
  {
    exists t: nat, u: nat ::
      t <= u <= now && InSession(w, id, t, bus) && OwnedBy(w, id, u, uid) && InSession(w, id, now, bus)
  }

  /** From `t` to `v` the process stays in the bus session and owned by `uid`. */
  ghost predicate Steady(w: History, bus: nat, uid: nat, id: Identity, t: nat, v: nat)
  {
    forall u: nat {:trigger Between(t, u, v)} :: Between(t, u, v) ==> InSession(w, id, u, bus) && OwnedBy(w, id, u, uid)
  }

  ghost predicate AliveThrough(w: History, id: Identity, t: nat, v: nat)
  {
    forall u: nat {:trigger Between(t, u, v)} :: Between(t, u, v) ==> Alive(w, id, u)
  }

  /** Those of `ids` that live on from `t` to `v` are among `reached`. */
  ghost predicate AllReached(w: History, reached: set<Identity>, ids: set<Identity>, t: nat, v: nat)
  {
    forall id {:trigger AliveThrough(w, id, t, v)} :: id in ids && AliveThrough(w, id, t, v) ==> id in reached
  }

  lemma ReachedWithin(w: History, reached: set<Identity>, reached': set<Identity>, ids: set<Identity>, ids': set<Identity>,
                      t: nat, v: nat, t': nat, v': nat)
    requires AllReached(w, reached, ids, t, v) && reached <= reached' && ids' <= ids && t' <= t && v <= v'
    ensures AllReached(w, reached', ids', t', v')
  {
    forall id | id in ids' && AliveThrough(w, id, t', v')
      ensures id in reached'
    {
      forall u: nat | Between(t, u, v)
        ensures Alive(w, id, u)
      {
        assert Between(t', u, v');
      }
      assert AliveThrough(w, id, t, v);
    }
  }

  lemma ReachedAt(w: History, reached: set<Identity>, id: Identity, t: nat, v: nat)
    requires t <= v && (Alive(w, id, v) ==> id in reached)
    ensures AllReached(w, reached, {id}, t, v)
  {
    assert Between(t, v, v);
  }

  lemma ReachedMore(w: History, reached: set<Identity>, reached': set<Identity>, ids: set<Identity>, id: Identity,
                    t: nat, v: nat, t': nat, v': nat)
    requires AllReached(w, reached, ids, t, v) && AllReached(w, reached', {id}, t', v')
    requires reached <= reached' && t <= t' && v <= v'
    ensures AllReached(w, reached', ids + {id}, t, v')
  {
    ReachedWithin(w, reached, reached', ids, ids, t, v, t, v');
    ReachedWithin(w, reached', reached', {id}, {id}, t', v', t, v');
  }

  /** The processes with one of these PIDs that stay ours from `t` to `v` are among `ids`. */
  ghost predicate AllTaken(w: History, bus: nat, uid: nat, ids: set<Identity>, pids: set<nat>, t: nat, v: nat)
  {
    forall id: Identity {:trigger Steady(w, bus, uid, id, t, v)} :: id.pid in pids && Steady(w, bus, uid, id, t, v) ==> id in ids
  }

  /** A process seen missing, in another session or with another owner was not ours all the time. */
  lemma Unsteady(w: History, bus: nat, uid: nat, ids: set<Identity>, pid: nat, t: nat, u: nat, v: nat)
    requires t <= u <= v && (pid !in w(u) || w(u)[pid].session != bus || w(u)[pid].uid != uid)
    ensures AllTaken(w, bus, uid, ids, {pid}, t, v)
  {
    assert Between(t, u, v);
  }

  /** Only the process alive under this PID can have been ours all the time. */
  lemma OnlySteady(w: History, bus: nat, uid: nat, ids: set<Identity>, id: Identity, t: nat, u: nat, v: nat)
    requires t <= u <= v && Alive(w, id, u)
    ensures id in ids ==> AllTaken(w, bus, uid, ids, {id.pid}, t, v)
    ensures forall other: Identity :: other.pid == id.pid && Steady(w, bus, uid, other, t, v) ==> other == id
  {
    assert Between(t, u, v);
  }

  lemma SteadyWithin(w: History, bus: nat, uid: nat, id: Identity, t: nat, v: nat, t': nat, v': nat)
    requires Steady(w, bus, uid, id, t, v) && t <= t' && v' <= v
    ensures Steady(w, bus, uid, id, t', v')
  {
    forall u: nat | Between(t', u, v')
      ensures InSession(w, id, u, bus) && OwnedBy(w, id, u, uid)
    {
      assert Between(t, u, v);
    }
  }

  lemma TakenWithin(w: History, bus: nat, uid: nat, ids: set<Identity>, ids': set<Identity>, pids: set<nat>, t: nat,
                    v: nat, t': nat, v': nat)
    requires AllTaken(w, bus, uid, ids, pids, t, v) && ids <= ids' && t' <= t && v <= v'
    ensures AllTaken(w, bus, uid, ids', pids, t', v')
  {
    forall id: Identity | id.pid in pids && Steady(w, bus, uid, id, t', v')
      ensures id in ids'
    {
      SteadyWithin(w, bus, uid, id, t', v', t, v);
    }
  }

  lemma TakenMore(w: History, bus: nat, uid: nat, ids: set<Identity>, ids': set<Identity>, pids: set<nat>, pid: nat,
                  t: nat, t': nat, v: nat, v': nat)
    requires AllTaken(w, bus, uid, ids, pids, t, v) && AllTaken(w, bus, uid, ids', {pid}, t', v')
    requires ids <= ids' && t <= t' && v <= v'
    ensures AllTaken(w, bus, uid, ids', pids + {pid}, t, v')
  {
    TakenWithin(w, bus, uid, ids, ids', pids, t, v, t, v');
    TakenWithin(w, bus, uid, ids', ids', {pid}, t', v', t, v');
  }

  /** The two reads around `pidfd_open` pin the process that the descriptor was opened on. */
  lemma SameProcess(w: History, id: Identity, t: nat, u: nat, v: nat, behind: Identity)
    requires Coherent(w)
    requires t <= u <= v && Alive(w, id, t) && Alive(w, id, v)
    requires Alive(w, behind, u) && behind.pid == id.pid
    ensures behind == id
  {
    assert Between(t, u, v) && Alive(w, id, u);
  }

  /**
   Reads in the order stat, owner, open, stat: equal start times make the owner and the opened
   descriptor belong to the process that was in the session at both ends.
   */
  lemma Pinned(w: History, bus: nat, uid: nat, id: Identity, t: nat, u: nat, o: nat, v: nat, behind: Identity)
    requires Coherent(w) && t <= u <= o <= v
    requires InSession(w, id, t, bus) && InSession(w, id, v, bus)
    requires id.pid in w(u) && w(u)[id.pid].uid == uid
    requires Alive(w, behind, o) && behind.pid == id.pid
    ensures behind == id && Ours(w, bus, uid, id, v)
  {
    SameProcess(w, id, t, o, v, behind);
    SameProcess(w, id, t, u, v, Identity(id.pid, w(u)[id.pid].started));
    assert OwnedBy(w, id, u, uid);
  }

  /** Gone after having been seen means gone for good. */
  lemma GoneForGood(w: History, id: Identity, seen: nat, now: nat, later: nat)
    requires Coherent(w) && seen <= now <= later
    requires Alive(w, id, seen) && !Alive(w, id, now)
    ensures !Alive(w, id, later)
  {
    assert Between(seen, now, later);
  }

  datatype Errno = NoProcess | Other

  datatype ProcIdentity = ProcIdentity(uid: nat, session: nat, started: nat)

  /** What the operating system answers, by number of the call. */
  datatype Oracle = Oracle(
    delay: nat -> nat,
    fails: nat -> bool,
    listing: nat -> seq<nat>,
    ready: nat -> bool,
    waitable: nat -> bool,
    running: nat -> bool)

  class Kernel {
    const history: History
    const oracle: Oracle
    const pidLimit: nat
    var clock: nat
    var calls: nat
    var fds: map<nat, Identity>
    var nextFd: nat
    var signalled: set<Identity>
    /** Whether a call has failed for another reason than a missing process, and the PIDs listed so far. */
    ghost var faulty: bool
    ghost var named: set<nat>
    /** The processes that were reported terminated. */
    ghost var readied: set<Identity>

    ghost predicate Valid()
      reads this
    {
      forall fd :: fd in fds ==> fd < nextFd
    }

    constructor (history: History, oracle: Oracle, pidLimit: nat)
      ensures this.history == history && this.oracle == oracle && this.pidLimit == pidLimit
      ensures Valid() && fds == map[] && signalled == {}
    {
      this.history, this.oracle, this.pidLimit := history, oracle, pidLimit;
      clock, calls, fds, nextFd, signalled := 0, 0, map[], 0, {};
      faulty, named, readied := false, {}, {};
    }

    /** Time passes before every call, by any amount. */
    method Advance() returns (fails: bool)
      modifies `clock, `calls
      ensures clock >= old(clock)
    {
      clock := clock + oracle.delay(calls);
      fails := oracle.fails(calls);
      calls := calls + 1;
    }

    method Sleep(time: nat)
      modifies `clock
      ensures clock == old(clock) + time
    {
      clock := clock + time;
    }

    /** Whether the bus process, a child of ours, is still unreaped. */
    method Poll() returns (running: bool)
      modifies `clock, `calls
      ensures clock >= old(clock)
    {
      var _ := Advance();
      running := oracle.running(calls);
    }

    method ReadStat(pid: nat) returns (r: Result<(nat, nat), Errno>)
      modifies `clock, `calls, `faulty
      ensures clock >= old(clock) && faulty == (old(faulty) || r == Err(Other))
      ensures r.Ok? ==> pid in history(clock) && r.value == (history(clock)[pid].session, history(clock)[pid].started)
      ensures r == Err(NoProcess) ==> pid !in history(clock)
    {
      var fails := Advance();
      if fails {
        faulty := true;
        return Err(Other);
      }
      if pid !in history(clock) {
        return Err(NoProcess);
      }
      return Ok((history(clock)[pid].session, history(clock)[pid].started));
    }

    method ReadUid(pid: nat) returns (r: Result<nat, Errno>)
      modifies `clock, `calls, `faulty
      ensures clock >= old(clock) && faulty == (old(faulty) || r == Err(Other))
      ensures r.Ok? ==> pid in history(clock) && r.value == history(clock)[pid].uid
      ensures r == Err(NoProcess) ==> pid !in history(clock)
    {
      var fails := Advance();
      if fails {
        faulty := true;
        return Err(Other);
      }
      if pid !in history(clock) {
        return Err(NoProcess);
      }
      return Ok(history(clock)[pid].uid);
    }

    method Children(pid: nat) returns (r: Result<seq<nat>, Errno>)
      modifies `clock, `calls, `faulty, `named
      ensures clock >= old(clock) && faulty == (old(faulty) || r == Err(Other))
      ensures r.Err? ==> r.error.Other?
      ensures named == old(named) + if r.Ok? then (set p | p in r.value) else {}
      ensures r.Ok? ==> forall i :: 0 <= i < |r.value| ==> r.value[i] < pidLimit
    {
      var fails := Advance();
      var pids := oracle.listing(calls);
      if fails || exists i :: 0 <= i < |pids| && pids[i] >= pidLimit {
        faulty := true;
        return Err(Other);
      }
      named := named + set p | p in pids;
      return Ok(pids);
    }

    method OpenPidfd(pid: nat) returns (r: Result<nat, Errno>)
      requires Valid()
      modifies `clock, `calls, `fds, `nextFd, `faulty
      ensures Valid() && clock >= old(clock) && faulty == (old(faulty) || r == Err(Other))
      ensures r == Err(NoProcess) ==> pid !in history(clock)
      ensures r.Ok? ==> r.value !in old(fds) && pid in history(clock)
                        && fds == old(fds)[r.value := Identity(pid, history(clock)[pid].started)]
      ensures r.Err? ==> fds == old(fds)
    {
      var fails := Advance();
      if fails {
        faulty := true;
        return Err(Other);
      }
      if pid !in history(clock) {
        return Err(NoProcess);
      }
      fds := fds[nextFd := Identity(pid, history(clock)[pid].started)];
      nextFd := nextFd + 1;
      return Ok(nextFd - 1);
    }

    method Close(fd: nat)
      requires Valid() && fd in fds
      modifies `fds
      ensures Valid() && fds == old(fds) - {fd}
    {
      fds := fds - {fd};
    }

    /** Whether the process behind the descriptor has terminated. */
    method Select(fd: nat) returns (ready: bool)
      requires fd in fds
      modifies `clock, `calls, `readied
      ensures clock >= old(clock)
      ensures readied == if ready then old(readied) + {fds[fd]} else old(readied)
    {
      var _ := Advance();
      ready := oracle.ready(calls);
      readied := if ready then readied + {fds[fd]} else readied;
    }

    /** A signal reaches the process the descriptor stands for and nothing else. */
    method SendSignal(fd: nat)
      requires fd in fds
      modifies `clock, `calls, `signalled
      ensures clock >= old(clock)
      ensures signalled == if Alive(history, fds[fd], clock) then old(signalled) + {fds[fd]} else old(signalled)
    {
      var _ := Advance();
      if Alive(history, fds[fd], clock) {
        signalled := signalled + {fds[fd]};
      }
    }

    /** `Ok(true)`: reaped by this call. The error says that it is not a child of ours. */
    method WaitPidfd(fd: nat) returns (r: Result<bool, ()>)
      requires fd in fds
      modifies `clock, `calls
      ensures clock >= old(clock)
      ensures r == Ok(true) ==> !Alive(history, fds[fd], clock)
    {
      var notChild := Advance();
      if notChild {
        return Err(());
      }
      return Ok(oracle.waitable(calls) && !Alive(history, fds[fd], clock));
    }
  }

  /** The kept descriptor stands for the recorded process, which was ours at the time `seen`. */
  ghost predicate Kept(w: History, bus: nat, uid: nat, children: map<Identity, nat>, fds: map<nat, Identity>,
                       seen: map<Identity, nat>, id: Identity)
    requires id in children
  {
    id in seen && children[id] in fds && fds[children[id]] == id && Ours(w, bus, uid, id, seen[id])
  }

  predicate Owned(children: map<Identity, nat>, fds: map<nat, Identity>, fd: nat)
    requires fd in fds
  {
    fds[fd] in children && children[fds[fd]] == fd
  }

  /** All kept descriptors are right, and no other descriptor is open. */
  ghost predicate Sound(w: History, bus: nat, uid: nat, children: map<Identity, nat>, fds: map<nat, Identity>,
                        seen: map<Identity, nat>)
  {
    && (forall id {:trigger Kept(w, bus, uid, children, fds, seen, id)} :: id in children ==> Kept(w, bus, uid, children, fds, seen, id))
    && (forall fd {:trigger Owned(children, fds, fd)} :: fd in fds ==> Owned(children, fds, fd))
  }

  ghost predicate Past(children: map<Identity, nat>, seen: map<Identity, nat>, now: nat)
  {
    forall id :: id in children && id in seen ==> seen[id] <= now
  }

  /** Not alive now or ever again. */
  ghost predicate Dead(w: History, id: Identity, now: nat)
  {
    forall t: nat {:trigger Alive(w, id, t)} :: now <= t ==> !Alive(w, id, t)
  }

  lemma SeenThenGone(w: History, bus: nat, uid: nat, id: Identity, seen: nat, gone: nat, now: nat)
    requires Coherent(w) && Ours(w, bus, uid, id, seen) && seen <= gone <= now
    requires !Alive(w, id, gone)
    ensures Dead(w, id, now)
  {
    forall t: nat | now <= t
      ensures !Alive(w, id, t)
    {
      GoneForGood(w, id, seen, gone, t);
    }
  }

  ghost predicate Truthful(w: History, results: map<Identity, Status>, now: nat)
  {
    forall id {:trigger results[id]} :: id in results && results[id].Reaped? ==> Dead(w, id, now)
  }

  lemma Keep(w: History, bus: nat, uid: nat, children: map<Identity, nat>, fds: map<nat, Identity>,
             seen: map<Identity, nat>,
             id: Identity, fd: nat, now: nat)
    requires Sound(w, bus, uid, children, fds, seen)
    requires id !in children && fd !in fds && Ours(w, bus, uid, id, now)
    ensures Sound(w, bus, uid, children[id := fd], fds[fd := id], seen[id := now])
  {
    var children', fds', seen' := children[id := fd], fds[fd := id], seen[id := now];
    forall c | c in children'
      ensures Kept(w, bus, uid, children', fds', seen', c)
    {
      if c != id {
        assert Kept(w, bus, uid, children, fds, seen, c);
      }
    }
    forall f | f in fds'
      ensures Owned(children', fds', f)
    {
      if f != fd {
        assert Owned(children, fds, f);
      }
    }
  }

  lemma DropAdded(fds: map<nat, Identity>, fd: nat, started: nat, pid: nat)
    requires fd !in fds
    ensures fds[fd := Identity(pid, started)] - {fd} == fds
  {
  }

  function Below(n: nat): set<nat>
  {
    if n == 0 then {} else Below(n - 1) + {n - 1}
  }

  lemma {:induction false} InBelow(n: nat, p: nat)
    requires p < n
    ensures p in Below(n)
  {
    if p < n - 1 {
      InBelow(n - 1, p);
    }
  }

  datatype Status = Reaped | Unknown

  class PrivateBusServices {
    const kernel: Kernel
    const bus: nat
    const self: nat
    const uid: nat
    var children: map<Identity, nat>
    var captureIssues: seq<nat>
    ghost var seen: map<Identity, nat>

    constructor (kernel: Kernel, bus: nat, self: nat, uid: nat)
      requires kernel.Valid() && kernel.fds == map[] && kernel.signalled == {} && Coherent(kernel.history)
      ensures Valid() && this.kernel == kernel && children == map[]
    {
      this.kernel, this.bus, this.self, this.uid := kernel, bus, self, uid;
      children, captureIssues, seen := map[], [], map[];
    }

    ghost predicate Valid()
      reads this, kernel
    {
      && kernel.Valid() && Coherent(kernel.history)
      && Sound(kernel.history, bus, uid, children, kernel.fds, seen)
      && Past(children, seen, kernel.clock)
      && kernel.signalled <= children.Keys
    }

    /** The session and start time are read first, the owner by path at a later time. */
    method ReadIdentity(pid: nat) returns (r: Result<ProcIdentity, Errno>, ghost t: nat, ghost u: nat)
      modifies kernel`clock, kernel`calls, kernel`faulty
      ensures old(kernel.clock) <= t <= u <= kernel.clock
      ensures kernel.faulty == (old(kernel.faulty) || r == Err(Other))
      ensures r.Ok? ==> InSession(kernel.history, Identity(pid, r.value.started), t, r.value.session)
      ensures r.Ok? ==> pid in kernel.history(u) && kernel.history(u)[pid].uid == r.value.uid
      ensures r == Err(NoProcess) ==> pid !in kernel.history(t) || pid !in kernel.history(u)
    {
      var stat := kernel.ReadStat(pid);
      t, u := kernel.clock, kernel.clock;
      if stat.Err? {
        return Err(stat.error), t, u;
      }
      var owner := kernel.ReadUid(pid);
      u := kernel.clock;
      if owner.Err? {
        return Err(owner.error), t, u;
      }
      r := Ok(ProcIdentity(owner.value, stat.value.0, stat.value.1));
    }

    /** Opens `pid`, reads its identity again and keeps the descriptor only if nothing changed. */
    method Adopt(pid: nat, before: ProcIdentity, ghost t: nat, ghost u: nat) returns (issue: bool)
      requires Valid() && Identity(pid, before.started) !in children
      requires t <= u <= kernel.clock && before.uid == uid && before.session == bus
      requires InSession(kernel.history, Identity(pid, before.started), t, bus)
      requires pid in kernel.history(u) && kernel.history(u)[pid].uid == uid
      modifies kernel, this`children, this`seen
      ensures Valid() && kernel.clock >= old(kernel.clock)
      ensures kernel.signalled == old(kernel.signalled) && kernel.named == old(kernel.named) && kernel.readied == old(kernel.readied)
      ensures old(children.Keys) <= children.Keys <= old(children.Keys) + {Identity(pid, before.started)}
      ensures old(kernel.faulty) ==> kernel.faulty
      ensures !kernel.faulty ==> AllTaken(kernel.history, bus, uid, children.Keys, {pid}, t, kernel.clock)
    {
      var identity := Identity(pid, before.started);
      var fd := kernel.OpenPidfd(pid);
      ghost var o := kernel.clock;
      if fd.Err? {
        if fd.error.NoProcess? {
          Unsteady(kernel.history, bus, uid, children.Keys, pid, t, o, kernel.clock);
        }
        return fd.error.Other?;
      }
      var after;
      ghost var v, w;
      after, v, w := ReadIdentity(pid);
      if after.Err? || after.value != before {
        kernel.Close(fd.value);
        DropAdded(old(kernel.fds), fd.value, kernel.history(o)[pid].started, pid);
        Changed(pid, before, after, t, v, w);
        return after.Err? && after.error.Other?;
      }
      Pinned(kernel.history, bus, uid, identity, t, u, o, v, kernel.fds[fd.value]);
      Keep(kernel.history, bus, uid, children, old(kernel.fds), seen, identity, fd.value, v);
      children, seen := children[identity := fd.value], seen[identity := v];
      OnlySteady(kernel.history, bus, uid, children.Keys, identity, t, v, kernel.clock);
      return false;
    }

    /** A second reading that differs shows that the process was not ours all the time. */
    lemma Changed(pid: nat, before: ProcIdentity, after: Result<ProcIdentity, Errno>, t: nat, v: nat, w: nat)
      requires t <= v <= w <= kernel.clock && before.uid == uid && before.session == bus
      requires InSession(kernel.history, Identity(pid, before.started), t, bus)
      requires after.Ok? ==> after.value != before && InSession(kernel.history, Identity(pid, after.value.started), v, after.value.session)
      requires after.Ok? ==> pid in kernel.history(w) && kernel.history(w)[pid].uid == after.value.uid
      requires after == Err(NoProcess) ==> pid !in kernel.history(v) || pid !in kernel.history(w)
      ensures after != Err(Other) ==> AllTaken(kernel.history, bus, uid, children.Keys, {pid}, t, kernel.clock)
    {
      if after.Err? {
        if after.error.NoProcess? {
          Unsteady(kernel.history, bus, uid, children.Keys, pid, t, if pid !in kernel.history(v) then v else w, kernel.clock);
        }
      } else {
        if after.value.session != bus {
          Unsteady(kernel.history, bus, uid, children.Keys, pid, t, v, kernel.clock);
        } else if after.value.uid != uid {
          Unsteady(kernel.history, bus, uid, children.Keys, pid, t, w, kernel.clock);
        } else {
          var first, second := Identity(pid, before.started), Identity(pid, after.value.started);
          OnlySteady(kernel.history, bus, uid, children.Keys, first, t, t, kernel.clock);
          OnlySteady(kernel.history, bus, uid, children.Keys, second, t, v, kernel.clock);
          assert first != second;
        }
      }
    }

    /** One pass of the capture loop over `pid`: `found` are its children, `issue` an error to report. */
    method Inspect(pid: nat) returns (found: seq<nat>, issue: bool)
      requires Valid()
      modifies kernel, this`children, this`seen
      ensures Valid() && kernel.clock >= old(kernel.clock)
      ensures kernel.signalled == old(kernel.signalled) && kernel.readied == old(kernel.readied)
      ensures forall i :: 0 <= i < |found| ==> found[i] < kernel.pidLimit
      ensures old(children.Keys) <= children.Keys
      ensures forall id :: id in children && id !in old(children) ==> id.pid == pid
      ensures old(kernel.faulty) ==> kernel.faulty
      ensures kernel.named == old(kernel.named) + set p | p in found
      ensures !kernel.faulty ==> AllTaken(kernel.history, bus, uid, children.Keys, {pid}, old(kernel.clock), kernel.clock)
    {
      found, issue := [], false;
      ghost var start := kernel.clock;
      var before;
      ghost var t, u;
      before, t, u := ReadIdentity(pid);
      if before.Err? {
        if before.error.NoProcess? {
          Unsteady(kernel.history, bus, uid, children.Keys, pid, start, if pid !in kernel.history(t) then t else u, kernel.clock);
        }
        return [], before.error.Other?;
      }
      if before.value.uid != uid || before.value.session != bus {
        Unsteady(kernel.history, bus, uid, children.Keys, pid, start, if before.value.session != bus then t else u, kernel.clock);
        return;
      }
      var listed := kernel.Children(pid);
      if listed.Err? {
        return [], listed.error.Other?;
      }
      found := listed.value;
      var identity := Identity(pid, before.value.started);
      if identity in children {
        OnlySteady(kernel.history, bus, uid, children.Keys, identity, start, t, kernel.clock);
        return;
      }
      issue := Adopt(pid, before.value, t, u);
      if !kernel.faulty {
        TakenWithin(kernel.history, bus, uid, children.Keys, children.Keys, {pid}, t, kernel.clock, start, kernel.clock);
      }
    }

    /** The children of the bus, while it runs, and our own. */
    method Roots() returns (queue: Option<seq<nat>>)
      requires Valid()
      modifies kernel`clock, kernel`calls, kernel`faulty, kernel`named
      ensures Valid() && kernel.clock >= old(kernel.clock) && (old(kernel.faulty) ==> kernel.faulty)
      ensures queue.None? ==> kernel.faulty
      ensures queue.Some? ==> Listed(kernel.named, old(kernel.named), {}, queue.value)
      ensures queue.Some? ==> forall i :: 0 <= i < |queue.value| ==> queue.value[i] < kernel.pidLimit
    {
      var pids: seq<nat> := [];
      var running := kernel.Poll();
      if running {
        var first := kernel.Children(bus);
        if first.Err? {
          return None;
        }
        pids := first.value;
      }
      var own := kernel.Children(self);
      if own.Err? {
        return None;
      }
      queue := Some(pids + own.value);
    }

    /** One turn for a PID not seen before. */
    method Visit(pid: nat, queue: seq<nat>, visited: set<nat>, ghost base: set<nat>, ghost start: nat)
      returns (queue': seq<nat>, issue: bool)
      requires Valid() && start <= kernel.clock && Listed(kernel.named, base, visited, queue + [pid])
      requires !kernel.faulty ==> AllTaken(kernel.history, bus, uid, children.Keys, visited, start, kernel.clock)
      requires forall i :: 0 <= i < |queue| ==> queue[i] < kernel.pidLimit
      modifies kernel, this`children, this`seen
      ensures Valid() && kernel.clock >= old(kernel.clock) && (old(kernel.faulty) ==> kernel.faulty)
      ensures kernel.signalled == old(kernel.signalled) && kernel.readied == old(kernel.readied)
      ensures forall i :: 0 <= i < |queue'| ==> queue'[i] < kernel.pidLimit
      ensures old(children.Keys) <= children.Keys
      ensures forall id :: id in children && id !in old(children) ==> id.pid == pid
      ensures Listed(kernel.named, base, visited + {pid}, queue')
      ensures !kernel.faulty ==> AllTaken(kernel.history, bus, uid, children.Keys, visited + {pid}, start, kernel.clock)
    {
      var found;
      found, issue := Inspect(pid);
      queue' := queue + found;
      if !kernel.faulty {
        TakenMore(kernel.history, bus, uid, old(children.Keys), children.Keys, visited, pid, start, old(kernel.clock),
                  old(kernel.clock), kernel.clock);
      }
    }

    /** Unless a call fails, every process that is listed meanwhile and stays ours all the time is captured. */
    method Capture()
      requires Valid()
      modifies kernel, this
      ensures Valid() && kernel.clock >= old(kernel.clock) && (old(kernel.faulty) ==> kernel.faulty)
      ensures kernel.signalled == old(kernel.signalled) && kernel.readied == old(kernel.readied)
      ensures old(children.Keys) <= children.Keys
      ensures forall id :: id in children && id !in old(children) ==> id.pid != bus
      ensures !kernel.faulty ==>
                AllTaken(kernel.history, bus, uid, children.Keys, kernel.named - old(kernel.named) - {bus}, old(kernel.clock),
                         kernel.clock)
    {
      var first := Roots();
      if first.None? {
        captureIssues := [bus];
        return;
      }
      var queue: seq<nat> := first.value;
      var visited: set<nat> := {};
      var issues: seq<nat> := [];
      while queue != []
        invariant Valid() && kernel.clock >= old(kernel.clock) && (old(kernel.faulty) ==> kernel.faulty)
        invariant kernel.signalled == old(kernel.signalled) && kernel.readied == old(kernel.readied)
        invariant old(children.Keys) <= children.Keys
        invariant forall id :: id in children && id !in old(children) ==> id.pid != bus
        invariant forall i :: 0 <= i < |queue| ==> queue[i] < kernel.pidLimit
        invariant Listed(kernel.named, old(kernel.named), visited, queue)
        invariant !kernel.faulty ==>
                    AllTaken(kernel.history, bus, uid, children.Keys, visited, old(kernel.clock), kernel.clock)
        decreases Below(kernel.pidLimit) - visited, |queue|
      {
        var pid, rest := queue[|queue| - 1], queue[..|queue| - 1];
        assert queue == rest + [pid];
        if pid in visited || pid == bus {
          queue := rest;
          continue;
        }
        InBelow(kernel.pidLimit, pid);
        var issue;
        queue, issue := Visit(pid, rest, visited, old(kernel.named), old(kernel.clock));
        visited := visited + {pid};
        if issue {
          issues := issues + [pid];
        }
      }
      captureIssues := issues;
    }

    /** Every newly listed PID is the bus, visited or still queued. */
    ghost predicate Listed(named: set<nat>, base: set<nat>, visited: set<nat>, queue: seq<nat>)
    {
      forall pid {:trigger pid in named} :: pid in named && pid !in base ==> pid == bus || pid in visited || pid in queue
    }

    /** Signals one kept process if it still runs; `Ok(true)` only when it is gone for good. */
    method Attempt(id: Identity) returns (r: Result<bool, ()>)
      requires Valid() && id in children
      modifies kernel`clock, kernel`calls, kernel`signalled, kernel`faulty, kernel`readied
      ensures Valid() && kernel.clock >= old(kernel.clock) && old(Reached()) <= Reached()
      ensures r == Ok(true) ==> Dead(kernel.history, id, kernel.clock)
      ensures AllReached(kernel.history, Reached(), {id}, old(kernel.clock), kernel.clock)
    {
      assert Kept(kernel.history, bus, uid, children, kernel.fds, seen, id);
      var fd := children[id];
      var ready := kernel.Select(fd);
      if !ready {
        kernel.SendSignal(fd);
      }
      ghost var sent := kernel.clock;
      ReachedAt(kernel.history, Reached(), id, old(kernel.clock), sent);
      var waited := kernel.WaitPidfd(fd);
      if waited.Ok? {
        if waited.value {
          SeenThenGone(kernel.history, bus, uid, id, seen[id], kernel.clock, kernel.clock);
        }
        ReachedWithin(kernel.history, Reached(), Reached(), {id}, {id}, old(kernel.clock), sent, old(kernel.clock), kernel.clock);
        return Ok(waited.value);
      }
      ghost var reached := Reached();
      ready := kernel.Select(fd);
      if !ready {
        ReachedWithin(kernel.history, reached, Reached(), {id}, {id}, old(kernel.clock), sent, old(kernel.clock), kernel.clock);
        return Ok(false);
      }
      r := Vanished(id);
      ReachedWithin(kernel.history, reached, Reached(), {id}, {id}, old(kernel.clock), sent, old(kernel.clock), kernel.clock);
    }

    /** The processes that were signalled or reported terminated. */
    ghost function Reached(): set<Identity>
      reads kernel
    {
      kernel.signalled + kernel.readied
    }

    method Vanished(id: Identity) returns (r: Result<bool, ()>)
      requires Coherent(kernel.history) && id in seen && seen[id] <= kernel.clock
      requires Ours(kernel.history, bus, uid, id, seen[id])
      modifies kernel`clock, kernel`calls, kernel`faulty
      ensures kernel.clock >= old(kernel.clock)
      ensures r == Ok(true) ==> Dead(kernel.history, id, kernel.clock)
    {
      var current, t, u := ReadIdentity(id.pid);
      if current.Err? && current.error.Other? {
        return Err(());
      }
      if current.Ok? && current.value.started == id.started {
        return Ok(false);
      }
      ghost var gone := if Alive(kernel.history, id, t) then u else t;
      SeenThenGone(kernel.history, bus, uid, id, seen[id], gone, kernel.clock);
      return Ok(true);
    }

    /** One attempt, and its result if it has one. */
    method Try(id: Identity, known: map<Identity, Status>, ghost tried: set<Identity>, ghost start: nat)
      returns (results: map<Identity, Status>, raised: bool)
      requires Valid() && id in children && start <= kernel.clock
      requires Truthful(kernel.history, known, kernel.clock)
      requires AllReached(kernel.history, Reached(), tried, start, kernel.clock)
      modifies kernel`clock, kernel`calls, kernel`signalled, kernel`faulty, kernel`readied
      ensures Valid() && kernel.clock >= old(kernel.clock) && old(Reached()) <= Reached()
      ensures known.Keys <= results.Keys <= known.Keys + {id}
      ensures Truthful(kernel.history, results, kernel.clock)
      ensures AllReached(kernel.history, Reached(), tried + {id}, start, kernel.clock)
    {
      var gone := Attempt(id);
      ReachedMore(kernel.history, old(Reached()), Reached(), tried, id, start, old(kernel.clock), old(kernel.clock), kernel.clock);
      results, raised := known, gone.Err?;
      if gone == Ok(true) {
        results := known[id := Reaped];
      }
    }

    /** One round over the kept processes that have no result yet, in any order: none that lives on is passed over. */
    method Round(known: map<Identity, Status>) returns (results: map<Identity, Status>, raised: bool)
      requires Valid() && known.Keys <= children.Keys && Truthful(kernel.history, known, kernel.clock)
      modifies kernel`clock, kernel`calls, kernel`signalled, kernel`faulty, kernel`readied
      ensures Valid() && kernel.clock >= old(kernel.clock) && old(Reached()) <= Reached()
      ensures known.Keys <= results.Keys <= children.Keys
      ensures Truthful(kernel.history, results, kernel.clock)
      ensures !raised ==>
                AllReached(kernel.history, Reached(), children.Keys - known.Keys, old(kernel.clock), kernel.clock)
    {
      results, raised := known, false;
      var todo := children.Keys - known.Keys;
      ghost var tried: set<Identity> := {};
      while todo != {}
        invariant todo <= children.Keys && children.Keys - known.Keys <= tried + todo
        invariant Valid() && kernel.clock >= old(kernel.clock) && old(Reached()) <= Reached()
        invariant known.Keys <= results.Keys <= children.Keys
        invariant Truthful(kernel.history, results, kernel.clock)
        invariant AllReached(kernel.history, Reached(), tried, old(kernel.clock), kernel.clock)
        decreases |todo|
      {
        var id :| id in todo;
        todo := todo - {id};
        results, raised := Try(id, results, tried, old(kernel.clock));
        tried := tried + {id};
        if raised {
          return;
        }
      }
      ReachedWithin(kernel.history, Reached(), Reached(), tried, children.Keys - known.Keys, old(kernel.clock), kernel.clock,
                    old(kernel.clock), kernel.clock);
    }

    /**
     Stops everything captured: only captured processes are signalled, each gets one result,
     and `Reaped` is claimed only of a process that can never be seen again.
     */
    method Stop() returns (r: Result<map<Identity, Status>, ()>)
      requires Valid()
      modifies kernel, this
      ensures Valid()
      ensures r.Ok? ==> r.value.Keys == children.Keys && Truthful(kernel.history, r.value, kernel.clock)
      ensures r.Ok? ==> AllReached(kernel.history, Reached(), old(children.Keys), old(kernel.clock), kernel.clock)
      ensures forall id :: id in kernel.signalled ==> id in seen && Ours(kernel.history, bus, uid, id, seen[id])
    {
      Capture();
      var results: map<Identity, Status> := map[];
      var signal := 0;
      while signal < 2
        invariant Valid() && old(kernel.clock) <= kernel.clock && old(children.Keys) <= children.Keys
        invariant results.Keys <= children.Keys && Truthful(kernel.history, results, kernel.clock)
        invariant signal == 0 ==> results == map[]
        invariant signal > 0 ==> AllReached(kernel.history, Reached(), old(children.Keys), old(kernel.clock), kernel.clock)
      {
        ghost var reached, now := Reached(), kernel.clock;
        var deadline := kernel.clock + if signal == 0 then 10000 else 5000;
        var raised := false;
        results, raised := StopUntil(deadline, results, old(children.Keys));
        if raised {
          SignalledOurs();
          return Err(());
        }
        if signal == 0 {
          ReachedWithin(kernel.history, Reached(), Reached(), old(children.Keys), old(children.Keys), now, kernel.clock,
                        old(kernel.clock), kernel.clock);
        } else {
          ReachedWithin(kernel.history, reached, Reached(), old(children.Keys), old(children.Keys), old(kernel.clock), now,
                        old(kernel.clock), kernel.clock);
        }
        if |results| == |children| {
          break;
        }
        signal := signal + 1;
      }
      SignalledOurs();
      r := Ok(map id | id in children :: if id in results then results[id] else Unknown);
    }

    method StopUntil(deadline: nat, known: map<Identity, Status>, ghost ids: set<Identity>)
      returns (results: map<Identity, Status>, raised: bool)
      requires Valid() && known.Keys <= children.Keys && Truthful(kernel.history, known, kernel.clock)
      requires ids <= children.Keys
      modifies kernel, this
      ensures Valid() && old(kernel.clock) <= kernel.clock && old(children.Keys) <= children.Keys
      ensures old(Reached()) <= Reached()
      ensures results.Keys <= children.Keys && Truthful(kernel.history, results, kernel.clock)
      ensures !raised && old(kernel.clock) < deadline ==>
                AllReached(kernel.history, Reached(), ids - known.Keys, old(kernel.clock), kernel.clock)
    {
      results, raised := known, false;
      ghost var turns := 0;
      while kernel.clock < deadline
        invariant Valid() && old(kernel.clock) <= kernel.clock && old(children.Keys) <= children.Keys
        invariant old(Reached()) <= Reached()
        invariant results.Keys <= children.Keys && Truthful(kernel.history, results, kernel.clock)
        invariant turns == 0 ==> results == known && kernel.clock == old(kernel.clock)
        invariant turns > 0 ==> AllReached(kernel.history, Reached(), ids - known.Keys, old(kernel.clock), kernel.clock)
        decreases deadline - kernel.clock
      {
        ghost var reached, start := Reached(), kernel.clock;
        Capture();
        ghost var before, todo := kernel.clock, children.Keys - results.Keys;
        results, raised := Round(results);
        if raised {
          return;
        }
        ghost var attempted, after := Reached(), kernel.clock;
        Capture();
        if turns == 0 {
          ReachedWithin(kernel.history, attempted, Reached(), todo, ids - known.Keys, before, after, old(kernel.clock), kernel.clock);
        } else {
          ReachedWithin(kernel.history, reached, Reached(), ids - known.Keys, ids - known.Keys, old(kernel.clock), start,
                        old(kernel.clock), kernel.clock);
        }
        if |results| == |children| {
          return;
        }
        ghost var awake := kernel.clock;
        kernel.Sleep(50);
        ReachedWithin(kernel.history, Reached(), Reached(), ids - known.Keys, ids - known.Keys, old(kernel.clock), awake,
                      old(kernel.clock), kernel.clock);
        turns := turns + 1;
      }
    }

    lemma SignalledOurs()
      requires Valid()
      ensures forall id :: id in kernel.signalled ==> id in seen && Ours(kernel.history, bus, uid, id, seen[id])
    {
      forall id | id in kernel.signalled
        ensures id in seen && Ours(kernel.history, bus, uid, id, seen[id])
      {
        assert Kept(kernel.history, bus, uid, children, kernel.fds, seen, id);
      }
    }
  }
}
