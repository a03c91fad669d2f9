/** The launch controller's exit loop: one receipt from the peer, one exit status from the kernel. */
module Controllers {
  import opened Wrappers
  import opened Framing
  import opened ExitReceipts

  datatype Status = Status(code: Option<int>, signal: Option<int>)

  datatype Poll = Running | Exited(status: Status) | ObserverFailed

  /** The loop's variables; `events` is what the socket will still deliver. */
  datatype Loop = Loop(receipt: Option<Receipt>, peerClosed: bool, buffered: seq<byte>, events: seq<Event>)

  /** The admitted launch; `parse` reads a frame as a shutdown receipt. */
  datatype Launch = Launch(nonce: string, scope: Scope, parse: seq<byte> -> Option<Receipt>)

  /** The returned code with the published restart flag, an error, or no verdict yet. */
  datatype Ending = Returned(code: int, restart: bool) | Error | Undecided

  /** Parsing and `validate_receipt_scope`. */
  function Accept(l: Launch, frame: seq<byte>): Option<Receipt>
  {
    var r := l.parse(frame);
    if r.Some? && MayAsk(l.scope, r.value.verdict) then r else None
  }

  /** A non-terminal read; a closed peer is remembered, any other fault ends the loop. */
  ghost function Receive(l: Launch, s: Loop): Option<Loop>
  {
    if s.receipt.Some? || s.peerClosed then Some(s)
    else
      var r := ReadFrame(s.buffered, s.events);
      match r.outcome
      case Frame(f) => if Accept(l, f).None? then None else Some(Loop(Accept(l, f), false, r.buffered, r.events))
      case Pending => Some(Loop(None, false, r.buffered, r.events))
      case Closed => Some(Loop(None, true, r.buffered, r.events))
      case _ => None
  }

  /** The read after the kernel reported the exit; here a closed peer is an error too. */
  ghost function ReceiveLast(l: Launch, s: Loop): Option<Option<Receipt>>
  {
    if s.receipt.Some? || s.peerClosed then Some(s.receipt)
    else
      var r := ReadFrame(s.buffered, s.events);
      match r.outcome
      case Frame(f) => if Accept(l, f).None? then None else Some(Accept(l, f))
      case Pending => Some(None)
      case _ => None
  }

  predicate Verified(l: Launch, r: Option<Receipt>, status: Status)
  {
    && r.Some? && r.value.event == "shutdown_verified" && r.value.nonce == l.nonce
    && r.value.verdict.cleanup && r.value.verdict.code == 0
    && status.code == Some(0) && status.signal.None?
  }

  ghost function Conclude(l: Launch, s: Loop, status: Status): Ending
  {
    var last := ReceiveLast(l, s);
    if last.None? then Error
    else if Verified(l, last.value, status) then Returned(0, last.value.value.verdict.restart)
    else Returned(1, false)
  }

  /** The loop over successive polls of the kernel observer. */
  ghost function Control(l: Launch, s: Loop, polls: seq<Poll>): Ending
    decreases |polls|
  {
    if polls == [] then Undecided
    else
      var s' := Receive(l, s);
      if s'.None? then Error
      else match polls[0]
        case Running => Control(l, s'.value, polls[1..])
        case ObserverFailed => Error
        case Exited(status) => Conclude(l, s'.value, status)
  }

  /** The loop as the controller runs it, mutating its receipt and its peer flag. */
  method AwaitExit(l: Launch, buffered: seq<byte>, events: seq<Event>, polls: seq<Poll>) returns (end: Ending)
    ensures end == Control(l, Loop(None, false, buffered, events), polls)
  {
    var reader := new Reader(events);
    reader.buffered := buffered;
    var receipt: Option<Receipt> := None;
    var peerClosed := false;
    var i := 0;
    while i < |polls|
      invariant 0 <= i <= |polls|
      invariant Control(l, Loop(receipt, peerClosed, reader.buffered, reader.events), polls[i..]) ==
                Control(l, Loop(None, false, buffered, events), polls)
    {
      assert polls[i..][1..] == polls[i + 1..];
      if receipt.None? && !peerClosed {
        var outcome := reader.Read();
        match outcome {
          case Frame(f) =>
            receipt := Accept(l, f);
            if receipt.None? {
              return Error;
            }
          case Pending =>
          case Closed =>
            peerClosed := true;
          case _ =>
            return Error;
        }
      }
      match polls[i] {
        case Running =>
        case ObserverFailed =>
          return Error;
        case Exited(status) =>
          if receipt.None? && !peerClosed {
            var outcome := reader.Read();
            match outcome {
              case Frame(f) =>
                receipt := Accept(l, f);
                if receipt.None? {
                  return Error;
                }
              case Pending =>
              case _ =>
                return Error;
            }
          }
          if Verified(l, receipt, status) {
            return Returned(0, receipt.value.verdict.restart);
          }
          return Returned(1, false);
      }
      i := i + 1;
    }
    end := Undecided;
  }

  // ----- bytes are neither lost nor invented -----

  lemma FrameOff(buffered: seq<byte>, rest: seq<byte>)
    requires NEWLINE in buffered
    ensures var end := End(buffered);
            buffered + rest == buffered[..end] + [NEWLINE] + (buffered[end + 1..] + rest)
  {
    var end := End(buffered);
    assert buffered == buffered[..end] + [NEWLINE] + buffered[end + 1..];
  }

  /** A returned frame is the stream's first, and a pending read keeps every byte. */
  lemma {:induction false} ReadConserves(buffered: seq<byte>, events: seq<Event>)
    ensures var r := ReadFrame(buffered, events);
            && (r.outcome.Frame? ==>
                  && NEWLINE !in r.outcome.bytes
                  && buffered + Bytes(events) == r.outcome.bytes + [NEWLINE] + (r.buffered + Bytes(r.events)))
            && (r.outcome.Pending? ==> r.buffered + Bytes(r.events) == buffered + Bytes(events))
    decreases |events|
  {
    if events != [] && events[0].Expired? {
    } else if NEWLINE in buffered {
      FrameOff(buffered, Bytes(events));
    } else if |buffered| < MAX_FRAME && events != [] {
      DataShift(buffered, events);
      if events[0].Data? {
        if |buffered| + |events[0].bytes| <= MAX_FRAME { ReadConserves(buffered + events[0].bytes, events[1..]); }
      } else if events[0].Interrupted? {
        ReadConserves(buffered, events[1..]);
      }
    }
  }

  /** The first complete frame of a byte stream. */
  ghost function FirstOf(stream: seq<byte>): Option<seq<byte>>
  {
    if NEWLINE in stream then Some(stream[..End(stream)]) else None
  }

  lemma FirstOfFrame(f: seq<byte>, rest: seq<byte>)
    requires NEWLINE !in f
    ensures FirstOf(f + [NEWLINE] + rest) == Some(f)
  {
    EndOfFrame(f, rest);
    assert (f + [NEWLINE] + rest)[..|f|] == f;
  }

  /** A held receipt is the stream's first frame; without one every byte is still to come. */
  ghost predicate Consistent(l: Launch, s: Loop, stream: seq<byte>)
  {
    && (s.receipt.Some? ==> FirstOf(stream).Some? && Accept(l, FirstOf(stream).value) == s.receipt)
    && (s.receipt.None? && !s.peerClosed ==> s.buffered + Bytes(s.events) == stream)
  }

  lemma ReceiveConsistent(l: Launch, s: Loop, stream: seq<byte>)
    requires Consistent(l, s, stream)
    ensures Receive(l, s).Some? ==> Consistent(l, Receive(l, s).value, stream)
    ensures ReceiveLast(l, s).Some? && ReceiveLast(l, s).value.Some? ==>
              FirstOf(stream).Some? && Accept(l, FirstOf(stream).value) == ReceiveLast(l, s).value
  {
    if s.receipt.None? && !s.peerClosed {
      ReadConserves(s.buffered, s.events);
      var r := ReadFrame(s.buffered, s.events);
      if r.outcome.Frame? {
        FirstOfFrame(r.outcome.bytes, r.buffered + Bytes(r.events));
      }
    }
  }

  /** The first poll that is not `Running`. */
  function FirstExit(polls: seq<Poll>): Option<Status>
  {
    if polls == [] || polls[0].ObserverFailed? then None
    else if polls[0].Exited? then Some(polls[0].status)
    else FirstExit(polls[1..])
  }

  /**
   Over every order of bytes, faults and kernel events, success needs the stream's first
   complete frame to be a verified receipt with this nonce and the kernel to report a plain
   zero exit; a restart is published only when that receipt asked for it in the desktop scope.
   */
  lemma {:induction false} SuccessMeans(l: Launch, s: Loop, polls: seq<Poll>, stream: seq<byte>)
    requires Consistent(l, s, stream)
    ensures Control(l, s, polls).Returned? && Control(l, s, polls).code == 0 ==>
              && FirstExit(polls).Some? && FirstOf(stream).Some?
              && Accept(l, FirstOf(stream).value).Some?
              && Verified(l, Accept(l, FirstOf(stream).value), FirstExit(polls).value)
              && Control(l, s, polls).restart == Accept(l, FirstOf(stream).value).value.verdict.restart
              && (Control(l, s, polls).restart ==> l.scope.DesktopDevelopment?)
    ensures Control(l, s, polls).Returned? && Control(l, s, polls).code != 0 ==> !Control(l, s, polls).restart
    decreases |polls|
  {
    if polls != [] {
      ReceiveConsistent(l, s, stream);
      var s' := Receive(l, s);
      if s'.Some? {
        match polls[0] {
          case Running => SuccessMeans(l, s'.value, polls[1..], stream);
          case ObserverFailed =>
          case Exited(status) => ReceiveConsistent(l, s'.value, stream);
        }
      }
    }
  }

  // ----- when a delivered receipt is in time -----

  /** Number of polls of the socket that come back empty. */
  function EmptyPolls(events: seq<Event>): nat
  {
    if events == [] then 0 else (if events[0].WouldBlock? then 1 else 0) + EmptyPolls(events[1..])
  }

  /** What is left behind the first empty poll. */
  function AfterEmpty(events: seq<Event>): seq<Event>
  {
    if events == [] then [] else if events[0].WouldBlock? then events[1..] else AfterEmpty(events[1..])
  }

  /** The buffer and `coming` hold one frame with its newline, which the last of `coming` brings. */
  predicate Arriving(buffered: seq<byte>, coming: seq<Event>, f: seq<byte>)
  {
    && NEWLINE !in f && |f| <= MAX_FRAME - CHUNK && Undisturbed(coming)
    && buffered + Bytes(coming) == f + [NEWLINE]
    && (coming != [] ==> coming[|coming| - 1].Data?)
  }

  /** No deadline expires right behind the frame. */
  predicate InTime(after: seq<Event>)
  {
    after == [] || !after[0].Expired?
  }

  lemma {:induction false} LastBringsBytes(coming: seq<Event>)
    requires coming != [] && coming[|coming| - 1].Data? && Undisturbed(coming)
    ensures Bytes(coming) != []
  {
    if |coming| > 1 {
      assert coming[1..][|coming| - 2] == coming[|coming| - 1];
      LastBringsBytes(coming[1..]);
    } else {
      assert coming[0] in coming;
    }
  }

  lemma NotYetThere(buffered: seq<byte>, coming: seq<Event>, f: seq<byte>)
    requires Arriving(buffered, coming, f)
    ensures coming != [] <==> NEWLINE !in buffered
    ensures coming == [] ==> buffered == f + [NEWLINE] && End(buffered) == |f| && buffered[..|f|] == f
    ensures |buffered| <= |f| + 1 && (coming != [] ==> |buffered| <= |f|)
  {
    var all := f + [NEWLINE];
    if coming == [] {
      assert buffered + Bytes(coming) == buffered;
      EndOfFrame(f, []);
      assert f + [NEWLINE] + [] == buffered;
    } else {
      LastBringsBytes(coming);
      assert |buffered| < |all|;
      assert forall i :: 0 <= i < |buffered| ==> buffered[i] == all[i] == f[i];
    }
  }

  lemma ArrivingOn(buffered: seq<byte>, coming: seq<Event>, f: seq<byte>)
    requires Arriving(buffered, coming, f) && coming != []
    ensures Arriving(if coming[0].Data? then buffered + coming[0].bytes else buffered, coming[1..], f)
  {
    DataShift(buffered, coming);
    assert coming[0] in coming && forall e :: e in coming[1..] ==> e in coming;
    if |coming| == 1 {
      assert Bytes(coming[1..]) == [];
    } else {
      assert coming[1..][|coming| - 2] == coming[|coming| - 1];
    }
  }

  /** One read takes the frame when no empty poll is left before it, and one empty poll otherwise. */
  lemma {:induction false} ReadArriving(buffered: seq<byte>, coming: seq<Event>, after: seq<Event>, f: seq<byte>)
    requires Arriving(buffered, coming, f) && InTime(after)
    ensures var r := ReadFrame(buffered, coming + after);
            if EmptyPolls(coming) == 0 then r.outcome == Frame(f)
            else
              && r.outcome == Pending && r.events == AfterEmpty(coming) + after
              && Arriving(r.buffered, AfterEmpty(coming), f) && EmptyPolls(AfterEmpty(coming)) == EmptyPolls(coming) - 1
    decreases |coming|
  {
    NotYetThere(buffered, coming, f);
    var events := coming + after;
    if coming == [] {
      assert events == after;
    } else {
      assert events[0] == coming[0] && events[1..] == coming[1..] + after;
      assert coming[0] in coming;
      ArrivingOn(buffered, coming, f);
      if !coming[0].WouldBlock? {
        ReadArriving(if coming[0].Data? then buffered + coming[0].bytes else buffered, coming[1..], after, f);
      }
    }
  }

  function Waiting(k: nat): seq<Poll>
  {
    seq(k, i => Running)
  }

  /** A held receipt is kept until the exit and decides it. */
  lemma {:induction false} HeldReceipt(l: Launch, s: Loop, k: nat, status: Status, later: seq<Poll>)
    requires s.receipt.Some? && Verified(l, s.receipt, status)
    ensures Control(l, s, Waiting(k) + [Exited(status)] + later) == Returned(0, s.receipt.value.verdict.restart)
    decreases k
  {
    PollsOn(k, status, later);
    if k > 0 {
      HeldReceipt(l, s, k - 1, status, later);
    }
  }

  lemma PollsOn(k: nat, status: Status, later: seq<Poll>)
    ensures var polls := Waiting(k) + [Exited(status)] + later;
            if k == 0 then polls[0] == Exited(status)
            else polls[0] == Running && polls[1..] == Waiting(k - 1) + [Exited(status)] + later
  {
  }

  /**
   The process is seen running `k` times and then exits. A verified receipt makes a plain zero
   exit a success exactly when at most `k + 1` polls of the socket come back empty before it is
   complete: one read per turn, and the last one after the exit.
   */
  lemma {:induction false} ReceiptInTime(l: Launch, buffered: seq<byte>, coming: seq<Event>, after: seq<Event>,
                                         f: seq<byte>,
                                         k: nat, status: Status, later: seq<Poll>)
    requires Arriving(buffered, coming, f) && InTime(after)
    requires Accept(l, f).Some? && Verified(l, Accept(l, f), status)
    ensures Control(l, Loop(None, false, buffered, coming + after), Waiting(k) + [Exited(status)] + later) ==
            if EmptyPolls(coming) <= k + 1 then Returned(0, Accept(l, f).value.verdict.restart) else Returned(1, false)
    decreases k
  {
    var s := Loop(None, false, buffered, coming + after);
    PollsOn(k, status, later);
    ReadArriving(buffered, coming, after, f);
    var s' := Receive(l, s).value;
    if EmptyPolls(coming) == 0 {
      HeldReceipt(l, s', k, status, later);
      HeldAlready(l, s, s', k, status, later);
    } else if k > 0 {
      ReceiptInTime(l, s'.buffered, AfterEmpty(coming), after, f, k - 1, status, later);
    } else {
      ReadArriving(s'.buffered, AfterEmpty(coming), after, f);
    }
  }

  lemma HeldAlready(l: Launch, s: Loop, s': Loop, k: nat, status: Status, later: seq<Poll>)
    requires Receive(l, s) == Some(s') && s'.receipt.Some?
    ensures Control(l, s, Waiting(k) + [Exited(status)] + later) == Control(l, s', Waiting(k) + [Exited(status)] + later)
  {
    PollsOn(k, status, later);
  }

  // ----- a peer that closes -----

  /** Bytes without a newline, too few to fill the buffer. */
  predicate Quiet(buffered: seq<byte>, coming: seq<Event>)
  {
    && Undisturbed(coming) && NEWLINE !in buffered + Bytes(coming)
    && |buffered + Bytes(coming)| < MAX_FRAME
  }

  lemma QuietOn(buffered: seq<byte>, coming: seq<Event>)
    requires Quiet(buffered, coming)
    ensures NEWLINE !in buffered && |buffered| < MAX_FRAME
    ensures coming != [] ==> Quiet(if coming[0].Data? then buffered + coming[0].bytes else buffered, coming[1..])
    ensures coming != [] && coming[0].Data? ==> |buffered| + |coming[0].bytes| < MAX_FRAME
  {
    var all := buffered + Bytes(coming);
    assert forall i :: 0 <= i < |buffered| ==> all[i] == buffered[i];
    if coming != [] {
      DataShift(buffered, coming);
      assert forall e :: e in coming[1..] ==> e in coming;
    }
  }

  /** One read meets the end of the stream when no empty poll is left before it, and one empty poll otherwise. */
  lemma {:induction false} ReadQuiet(buffered: seq<byte>, coming: seq<Event>, after: seq<Event>)
    requires Quiet(buffered, coming)
    ensures var r := ReadFrame(buffered, coming + ([Eof] + after));
            if EmptyPolls(coming) == 0 then r.outcome == Closed
            else
              && r.outcome == Pending && r.events == AfterEmpty(coming) + ([Eof] + after)
              && Quiet(r.buffered, AfterEmpty(coming)) && EmptyPolls(AfterEmpty(coming)) == EmptyPolls(coming) - 1
    decreases |coming|
  {
    QuietOn(buffered, coming);
    var events := coming + ([Eof] + after);
    if coming == [] {
      assert events == [Eof] + after;
    } else {
      assert events[0] == coming[0] && events[1..] == coming[1..] + ([Eof] + after);
      assert coming[0] in coming;
      if !coming[0].WouldBlock? {
        ReadQuiet(if coming[0].Data? then buffered + coming[0].bytes else buffered, coming[1..], after);
      }
    }
  }

  lemma {:induction false} PeerGone(l: Launch, s: Loop, k: nat, status: Status, later: seq<Poll>)
    requires s.peerClosed && s.receipt.None?
    ensures Control(l, s, Waiting(k) + [Exited(status)] + later) == Returned(1, false)
    decreases k
  {
    PollsOn(k, status, later);
    if k > 0 {
      PeerGone(l, s, k - 1, status, later);
    }
  }

  /**
   A peer that closes without a receipt makes the launch fail, whatever the exit status:
   with code 1 when the loop had noticed the end before the exit or does not notice it at
   all, and with an error exactly when the last read after the exit is the one that meets it.
   */
  lemma {:induction false} ClosedPeer(l: Launch, buffered: seq<byte>, coming: seq<Event>, after: seq<Event>, k: nat,
                                      status: Status, later: seq<Poll>)
    requires Quiet(buffered, coming)
    ensures Control(l, Loop(None, false, buffered, coming + ([Eof] + after)), Waiting(k) + [Exited(status)] + later) ==
            if EmptyPolls(coming) == k + 1 then Error else Returned(1, false)
    decreases k
  {
    PollsOn(k, status, later);
    ReadQuiet(buffered, coming, after);
    var s := Loop(None, false, buffered, coming + ([Eof] + after));
    var s' := Receive(l, s).value;
    if EmptyPolls(coming) == 0 {
      PeerGone(l, s', k, status, later);
      if k > 0 {
        PeerGone(l, s', k - 1, status, later);
      }
    } else if k > 0 {
      ClosedPeer(l, s'.buffered, AfterEmpty(coming), after, k - 1, status, later);
    } else {
      ReadQuiet(s'.buffered, AfterEmpty(coming), after);
    }
  }

  // ----- end to end -----

  /**
   The other way round: a first report of zero with verified cleanup, asking for a restart only in
   the desktop scope, reaches a controller of the same launch as a success whenever its frame
   arrives in time.
   */
  lemma EndToEndSucceeds(l: Launch, b: Bootstrap, calls: seq<Call>, write: Receipt -> seq<byte>, coming: seq<Event>,
                         after: seq<Event>, k: nat, later: seq<Poll>, restart: bool)
    requires !b.reported && b.attempts == [] && b.nonce == l.nonce && b.scope == l.scope
    requires forall r :: NEWLINE !in write(r) && l.parse(write(r)) == Some(r)
    requires calls != [] && calls[0] == Call(Verdict(0, true, restart), true)
    requires restart ==> b.scope.DesktopDevelopment?
    requires Arriving([], coming, write(Receipt("shutdown_verified", b.nonce, Verdict(0, true, restart)))) && InTime(after)
    ensures Attempts(Run(New(Some(b)), calls)) == [Receipt("shutdown_verified", b.nonce, Verdict(0, true, restart))]
    ensures Control(l, Loop(None, false, [], coming + after), Waiting(k) + [Exited(Status(Some(0), None))] + later) ==
            if EmptyPolls(coming) <= k + 1 then Returned(0, restart) else Returned(1, false)
  {
    FirstCallDecides(b, calls);
    var receipt := Receipt("shutdown_verified", b.nonce, Verdict(0, true, restart));
    assert Accept(l, write(receipt)) == Some(receipt);
    ReceiptInTime(l, [], coming, after, write(receipt), k, Status(Some(0), None), later);
  }

  /**
   From the application's calls to the controller's verdict: if the peer's bytes are what the
   reporter wrote, success means that the first report said zero with verified cleanup.
   */
  lemma EndToEnd(l: Launch, b: Bootstrap, calls: seq<Call>, write: Receipt -> seq<byte>,
                 buffered: seq<byte>, events: seq<Event>, polls: seq<Poll>)
    requires !b.reported && b.attempts == []
    requires forall r :: NEWLINE !in write(r) && l.parse(write(r)) == Some(r)
    requires var attempts := Attempts(Run(New(Some(b)), calls));
             buffered + Bytes(events) <= if attempts == [] then [] else write(attempts[0]) + [NEWLINE]
    ensures var end := Control(l, Loop(None, false, buffered, events), polls);
            end.Returned? && end.code == 0 ==>
              && calls != [] && b.nonce == l.nonce
              && calls[0].verdict == Verdict(0, true, end.restart)
              && FirstExit(polls) == Some(Status(Some(0), None))
  {
    var stream := buffered + Bytes(events);
    var s := Loop(None, false, buffered, events);
    OneAttempt(b, calls);
    SuccessMeans(l, s, polls, stream);
    var end := Control(l, s, polls);
    if end.Returned? && end.code == 0 {
      FirstCallDecides(b, calls);
      var attempts := Attempts(Run(New(Some(b)), calls));
      var f := write(attempts[0]);
      var p := End(stream);
      assert stream[p] == (f + [NEWLINE])[p];
      assert forall i :: 0 <= i < |f| ==> (f + [NEWLINE])[i] == f[i] && f[i] != NEWLINE;
      assert p == |f|;
      assert stream[..p] == f;
    }
  }
}
