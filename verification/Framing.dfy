/** Newline frames over a stream socket: writing, and reading through a bounded buffer. */
module Framing {
  import opened Wrappers

  const MAX_FRAME: nat := 1048576
  const CHUNK: nat := 4096
  const NEWLINE: byte := 10

  /** What one turn of the receive loop meets; a chunk holds 1 to 4096 bytes. */
  datatype Event = Data(bytes: seq<byte>) | WouldBlock | Interrupted | Eof | Failure | Expired

  datatype Outcome = Frame(bytes: seq<byte>) | Pending | TooLong | Closed | Failed | TimedOut

  /** A frame and its newline, unless the frame is too long to be sent. */
  function WriteFrame(json: seq<byte>): Option<seq<byte>>
  {
    if |json| >= MAX_FRAME then None else Some(json + [NEWLINE])
  }

  /** The position of the first newline. */
  ghost predicate IsFirst(s: seq<byte>, i: nat)
  {
    i < |s| && s[i] == NEWLINE && forall k :: 0 <= k < i ==> s[k] != NEWLINE
  }

  method Position(s: seq<byte>) returns (i: Option<nat>)
    ensures i.Some? ==> IsFirst(s, i.value)
    ensures i.None? ==> NEWLINE !in s
  {
    var n := 0;
    while n < |s|
      invariant 0 <= n <= |s| && forall k :: 0 <= k < n ==> s[k] != NEWLINE
    {
      if s[n] == NEWLINE {
        return Some(n);
      }
      n := n + 1;
    }
    i := None;
  }

  lemma {:induction false} FirstExists(s: seq<byte>) returns (i: nat)
    requires NEWLINE in s
    ensures IsFirst(s, i)
  {
    if s[0] == NEWLINE {
      i := 0;
    } else {
      var j := FirstExists(s[1..]);
      i := j + 1;
      assert forall k :: 0 < k < i ==> s[k] == s[1..][k - 1];
    }
  }

  lemma FirstUnique(s: seq<byte>, i: nat, j: nat)
    requires IsFirst(s, i) && IsFirst(s, j)
    ensures i == j
  {
  }

  ghost function End(s: seq<byte>): (i: nat)
    requires NEWLINE in s
    ensures IsFirst(s, i)
  {
    assert exists i: nat :: IsFirst(s, i) by { var i := FirstExists(s); }
    var i: nat :| IsFirst(s, i);
    i
  }

  datatype Reading = Reading(outcome: Outcome, buffered: seq<byte>, events: seq<Event>)

  /** One call of `read_frame`, turn by turn. */
  ghost function ReadFrame(buffered: seq<byte>, events: seq<Event>): (r: Reading)
    decreases |events|
  {
    if events != [] && events[0].Expired? then Reading(TimedOut, buffered, events[1..])
    else if NEWLINE in buffered then Reading(Frame(buffered[..End(buffered)]), buffered[End(buffered) + 1..], events)
    else if |buffered| >= MAX_FRAME then Reading(TooLong, buffered, events)
    else if events == [] then Reading(Pending, buffered, [])
    else if events[0].Data? then
      if |buffered| + |events[0].bytes| > MAX_FRAME then Reading(TooLong, buffered + events[0].bytes, events[1..])
      else ReadFrame(buffered + events[0].bytes, events[1..])
    else if events[0].Interrupted? then ReadFrame(buffered, events[1..])
    else Reading(if events[0].WouldBlock? then Pending else if events[0].Eof? then Closed else Failed, buffered, events[1..])
  }

  function Bytes(events: seq<Event>): seq<byte>
  {
    if events == [] then []
    else (if events[0].Data? then events[0].bytes else []) + Bytes(events[1..])
  }

  /** The reader's state: the carry-over buffer and what the socket will still deliver. */
  class Reader {
    var buffered: seq<byte>
    var events: seq<Event>

    constructor (events: seq<Event>)
      ensures this.buffered == [] && this.events == events
    {
      this.buffered, this.events := [], events;
    }

    /** The receive loop. */
    method Read() returns (outcome: Outcome)
      modifies this
      ensures Reading(outcome, buffered, events) == ReadFrame(old(buffered), old(events))
    {
      while true
        invariant ReadFrame(buffered, events) == ReadFrame(old(buffered), old(events))
        decreases |events|
      {
        if events != [] && events[0].Expired? {
          events := events[1..];
          return TimedOut;
        }
        var end := Position(buffered);
        if end.Some? {
          FirstUnique(buffered, end.value, End(buffered));
          var frame := buffered[..end.value];
          buffered := buffered[end.value + 1..];
          return Frame(frame);
        }
        if |buffered| >= MAX_FRAME {
          return TooLong;
        }
        if events == [] {
          return Pending;
        }
        var event := events[0];
        events := events[1..];
        if event.Data? {
          buffered := buffered + event.bytes;
          if |buffered| > MAX_FRAME {
            return TooLong;
          }
        } else if !event.Interrupted? {
          return if event.WouldBlock? then Pending else if event.Eof? then Closed else Failed;
        }
      }
    }

    /** Successive reads until an error or the end of the script. */
    method ReadAll() returns (frames: seq<seq<byte>>)
      modifies this
      ensures frames == Drain(old(buffered), old(events))
    {
      frames := [];
      while true
        invariant Drain(old(buffered), old(events)) == frames + Drain(buffered, events)
        decreases |buffered| + |Bytes(events)|, |events|
      {
        DrainReads(buffered, events);
        ReadsShrink(buffered, events);
        var outcome := Read();
        match outcome {
          case Frame(f) =>
            Regroup(frames, [f], Drain(buffered, events));
            frames := frames + [f];
          case Pending =>
            if events == [] {
              return;
            }
          case _ =>
            return;
        }
      }
    }
  }

  // ----- all frames a script yields -----

  ghost function Drain(buffered: seq<byte>, events: seq<Event>): seq<seq<byte>>
    decreases |events|, |buffered|
  {
    if events != [] && events[0].Expired? then []
    else if NEWLINE in buffered then [buffered[..End(buffered)]] + Drain(buffered[End(buffered) + 1..], events)
    else if |buffered| >= MAX_FRAME || events == [] then []
    else if events[0].Data? then
      if |buffered| + |events[0].bytes| > MAX_FRAME then [] else Drain(buffered + events[0].bytes, events[1..])
    else if events[0].Interrupted? || events[0].WouldBlock? then Drain(buffered, events[1..])
    else []
  }

  /** Reading frame by frame, carrying the buffer over, yields the drained list. */
  lemma {:induction false} DrainReads(buffered: seq<byte>, events: seq<Event>)
    ensures var r := ReadFrame(buffered, events);
            Drain(buffered, events) ==
            match r.outcome
            case Frame(f) => [f] + Drain(r.buffered, r.events)
            case Pending => if r.events == [] then [] else Drain(r.buffered, r.events)
            case _ => []
    decreases |events|
  {
    if events != [] && NEWLINE !in buffered && |buffered| < MAX_FRAME {
      if events[0].Data? {
        if |buffered| + |events[0].bytes| <= MAX_FRAME { DrainReads(buffered + events[0].bytes, events[1..]); }
      } else if events[0].Interrupted? {
        DrainReads(buffered, events[1..]);
      }
    }
  }

  /** Every read consumes buffered bytes or events. */
  lemma {:induction false} ReadsShrink(buffered: seq<byte>, events: seq<Event>)
    ensures var r := ReadFrame(buffered, events);
            && |r.events| <= |events|
            && |r.buffered| + |Bytes(r.events)| <= |buffered| + |Bytes(events)|
            && (r.outcome.Frame? ==> |r.buffered| + |Bytes(r.events)| < |buffered| + |Bytes(events)|)
            && (r.outcome.Pending? && r.events != [] ==> |r.events| < |events|)
    decreases |events|
  {
    if events != [] && NEWLINE !in buffered && |buffered| < MAX_FRAME {
      if events[0].Data? {
        if |buffered| + |events[0].bytes| <= MAX_FRAME { ReadsShrink(buffered + events[0].bytes, events[1..]); }
      } else if events[0].Interrupted? {
        ReadsShrink(buffered, events[1..]);
      }
    }
  }

  // ----- the round trip -----

  lemma Regroup<T>(a: seq<T>, b: seq<T>, c: seq<T>)
    ensures (a + b) + c == a + (b + c)
  {
  }

  function Encode(frames: seq<seq<byte>>): seq<byte>
  {
    if frames == [] then [] else frames[0] + [NEWLINE] + Encode(frames[1..])
  }

  /** All frames written one after the other, unless one is too long to be sent. */
  function Written(frames: seq<seq<byte>>): Option<seq<byte>>
  {
    if frames == [] then Some([])
    else
      var first, rest := WriteFrame(frames[0]), Written(frames[1..]);
      if first.None? || rest.None? then None else Some(first.value + rest.value)
  }

  lemma {:induction false} WrittenIsEncoded(frames: seq<seq<byte>>)
    ensures Written(frames).Some? <==> forall f :: f in frames ==> |f| < MAX_FRAME
    ensures Written(frames).Some? ==> Written(frames).value == Encode(frames)
  {
    if frames != [] {
      WrittenIsEncoded(frames[1..]);
      assert frames == [frames[0]] + frames[1..];
      assert forall f :: f in frames <==> f == frames[0] || f in frames[1..];
    }
  }

  predicate NewlineFree(frames: seq<seq<byte>>)
  {
    forall f :: f in frames ==> NEWLINE !in f
  }

  /** Reads of 1 to 4096 bytes with interruptions and empty polls anywhere, and no fault. */
  predicate Undisturbed(events: seq<Event>)
  {
    forall e :: e in events ==> (e.Data? && 1 <= |e.bytes| <= CHUNK) || e.WouldBlock? || e.Interrupted?
  }

  /** Frame `k` leaves room for one more chunk, or all that is left from it on fits the buffer. */
  predicate RoomAt(frames: seq<seq<byte>>, k: nat)
    requires k < |frames|
  {
    |frames[k]| <= MAX_FRAME - CHUNK || (|frames[k]| < MAX_FRAME && |Encode(frames[k..])| <= MAX_FRAME)
  }

  predicate Roomy(frames: seq<seq<byte>>)
  {
    forall k {:trigger RoomAt(frames, k)} :: 0 <= k < |frames| ==> RoomAt(frames, k)
  }

  lemma RoomyTail(frames: seq<seq<byte>>)
    requires frames != [] && Roomy(frames)
    ensures Roomy(frames[1..])
  {
    forall k | 0 <= k < |frames[1..]|
      ensures RoomAt(frames[1..], k)
    {
      assert RoomAt(frames, k + 1);
      assert frames[1..][k..] == frames[k + 1..];
    }
  }

  lemma EndOfFrame(f: seq<byte>, rest: seq<byte>)
    requires NEWLINE !in f
    ensures NEWLINE in f + [NEWLINE] + rest && End(f + [NEWLINE] + rest) == |f|
  {
    var full := f + [NEWLINE] + rest;
    assert full[|f|] == NEWLINE && full[..|f|] == f;
    FirstUnique(full, End(full), |f|);
  }

  /** A buffer that starts the encoding holds its first newline exactly where the first frame ends. */
  lemma FirstFrame(buffered: seq<byte>, rest: seq<byte>, frames: seq<seq<byte>>)
    requires frames != [] && NewlineFree(frames) && buffered + rest <= Encode(frames)
    ensures NEWLINE in buffered ==>
              && End(buffered) == |frames[0]|
              && buffered[..|frames[0]|] == frames[0]
              && buffered[|frames[0]| + 1..] + rest <= Encode(frames[1..])
    ensures NEWLINE !in buffered ==> |buffered| <= |frames[0]|
  {
    var f, tail := frames[0], Encode(frames[1..]);
    assert f in frames;
    if |buffered| <= |f| {
      Regroup(f, [NEWLINE], tail);
      PrefixOfPrefix(buffered, rest, f, [NEWLINE] + tail);
      assert forall x :: x in buffered ==> x in f;
    } else {
      LongerPrefix(buffered, rest, f, tail);
      EndOfFrame(f, buffered[|f| + 1..]);
    }
  }

  lemma PrefixOfPrefix(a: seq<byte>, b: seq<byte>, c: seq<byte>, d: seq<byte>)
    requires a + b <= c + d && |a| <= |c|
    ensures a == c[..|a|]
  {
    assert forall i :: 0 <= i < |a| ==> a[i] == (a + b)[i] == (c + d)[i] == c[i];
  }

  lemma LongerPrefix(a: seq<byte>, b: seq<byte>, f: seq<byte>, tail: seq<byte>)
    requires a + b <= f + [NEWLINE] + tail && |f| < |a|
    ensures a == f + [NEWLINE] + a[|f| + 1..] && a[|f| + 1..] + b <= tail
  {
    var x, y := a + b, f + [NEWLINE] + tail;
    var n := |f| + 1;
    assert y[..n] == f + [NEWLINE] && y[n..] == tail;
    assert x[..n] == a[..n] && x[n..] == a[n..] + b;
    assert x[..n] == y[..n];
    assert a == a[..n] + a[n..];
  }

  lemma DataShift(buffered: seq<byte>, events: seq<Event>)
    requires events != []
    ensures events[0].Data? ==> buffered + events[0].bytes + Bytes(events[1..]) == buffered + Bytes(events)
    ensures !events[0].Data? ==> Bytes(events[1..]) == Bytes(events)
  {
  }

  lemma ConsPrefix(x: seq<byte>, a: seq<seq<byte>>, b: seq<seq<byte>>)
    requires b != [] && x == b[0] && a <= b[1..]
    ensures [x] + a <= b
  {
    assert b == [b[0]] + b[1..];
  }

  /** Without any bound and under any fault, only a prefix of the written frames is ever returned. */
  lemma {:induction false} DrainsOnlyPrefix(buffered: seq<byte>, events: seq<Event>, frames: seq<seq<byte>>)
    requires NewlineFree(frames) && buffered + Bytes(events) <= Encode(frames)
    ensures Drain(buffered, events) <= frames
    decreases |events|, |buffered|
  {
    if events != [] && events[0].Expired? {
    } else if NEWLINE in buffered {
      assert frames != [] by {
        assert frames == [] ==> |buffered + Bytes(events)| == 0;
      }
      FirstFrame(buffered, Bytes(events), frames);
      var rest := buffered[End(buffered) + 1..];
      DrainsOnlyPrefix(rest, events, frames[1..]);
      ConsPrefix(frames[0], Drain(rest, events), frames);
    } else if |buffered| < MAX_FRAME && events != [] {
      DataShift(buffered, events);
      if events[0].Data? {
        if |buffered| + |events[0].bytes| <= MAX_FRAME { DrainsOnlyPrefix(buffered + events[0].bytes, events[1..], frames); }
      } else if events[0].Interrupted? || events[0].WouldBlock? {
        DrainsOnlyPrefix(buffered, events[1..], frames);
      }
    }
  }

  /** Round trip: however the stream is split, exactly the written frames come back, in order. */
  /** A buffered newline ends the first frame. */
  lemma TakeFrame(buffered: seq<byte>, events: seq<Event>, frames: seq<seq<byte>>)
    requires frames != [] && NewlineFree(frames) && Undisturbed(events) && NEWLINE in buffered
    requires buffered + Bytes(events) == Encode(frames)
    ensures |frames[0]| < |buffered| && buffered[|frames[0]| + 1..] + Bytes(events) == Encode(frames[1..])
    ensures Drain(buffered, events) == [frames[0]] + Drain(buffered[|frames[0]| + 1..], events)
  {
    FirstFrame(buffered, Bytes(events), frames);
    assert |buffered[|frames[0]| + 1..] + Bytes(events)| == |Encode(frames[1..])|;
    assert events != [] ==> events[0] in events;
  }

  /** Without one the next event is taken, and its bytes still fit. */
  lemma MoreComing(buffered: seq<byte>, events: seq<Event>, frames: seq<seq<byte>>)
    requires frames != [] && NewlineFree(frames) && Roomy(frames) && Undisturbed(events) && NEWLINE !in buffered
    requires buffered + Bytes(events) == Encode(frames)
    ensures events != [] && Undisturbed(events[1..])
    ensures var more := if events[0].Data? then buffered + events[0].bytes else buffered;
            more + Bytes(events[1..]) == Encode(frames) && Drain(buffered, events) == Drain(more, events[1..])
  {
    FirstFrame(buffered, Bytes(events), frames);
    assert RoomAt(frames, 0) && frames[0..] == frames;
    assert |Encode(frames)| > |frames[0]|;
    assert events != [] && events[0] in events;
    DataShift(buffered, events);
  }

  lemma {:induction false} DrainsExactly(buffered: seq<byte>, events: seq<Event>, frames: seq<seq<byte>>)
    requires NewlineFree(frames) && Roomy(frames) && Undisturbed(events)
    requires buffered + Bytes(events) == Encode(frames)
    ensures Drain(buffered, events) == frames
    decreases |events|, |buffered|
  {
    if frames == [] {
      assert buffered == [] && Bytes(events) == [];
      DrainsOnlyPrefix(buffered, events, frames);
    } else {
      if NEWLINE in buffered {
        RoomyTail(frames);
        TakeFrame(buffered, events, frames);
        DrainsExactly(buffered[|frames[0]| + 1..], events, frames[1..]);
        assert frames == [frames[0]] + frames[1..];
      } else {
        MoreComing(buffered, events, frames);
        DrainsExactly(if events[0].Data? then buffered + events[0].bytes else buffered, events[1..], frames);
      }
    }
  }

  // ----- the bound is exact -----

  /** One byte per read. */
  function Singles(s: seq<byte>): (events: seq<Event>)
    ensures |events| == |s| && forall i :: 0 <= i < |s| ==> events[i] == Data([s[i]])
  {
    seq(|s|, i requires 0 <= i < |s| => Data([s[i]]))
  }

  lemma {:induction false} BytesAppend(a: seq<Event>, b: seq<Event>)
    ensures Bytes(a + b) == Bytes(a) + Bytes(b)
  {
    if a == [] {
      assert a + b == b;
    } else {
      BytesAppend(a[1..], b);
      assert (a + b)[0] == a[0] && (a + b)[1..] == a[1..] + b;
      Regroup(if a[0].Data? then a[0].bytes else [], Bytes(a[1..]), Bytes(b));
    }
  }

  lemma {:induction false} BytesOfSingles(s: seq<byte>)
    ensures Bytes(Singles(s)) == s
  {
    if s != [] {
      BytesOfSingles(s[1..]);
      assert Singles(s)[1..] == Singles(s[1..]);
    }
  }

  lemma SinglesAppend(a: seq<byte>, b: seq<byte>)
    ensures Singles(a + b) == Singles(a) + Singles(b)
  {
  }

  predicate Awake(events: seq<Event>)
  {
    events == [] || !events[0].Expired?
  }

  lemma {:induction false} DrainSingles(b: seq<byte>, p: seq<byte>, events: seq<Event>)
    requires NEWLINE !in b + p && |b| + |p| <= MAX_FRAME && Awake(events)
    ensures Drain(b, Singles(p) + events) == Drain(b + p, events)
    decreases |p|
  {
    if p == [] {
      assert b + p == b && Singles(p) + events == events;
    } else {
      var all := Singles(p) + events;
      assert all[0] == Data([p[0]]) && all[1..] == Singles(p[1..]) + events;
      assert b + p == b + [p[0]] + p[1..];
      assert forall x :: x in b ==> x in b + p;
      DrainSingles(b + [p[0]], p[1..], events);
    }
  }

  lemma DrainNewline(f: seq<byte>, events: seq<Event>)
    requires NEWLINE !in f && |f| < MAX_FRAME && Awake(events)
    ensures Drain(f, [Data([NEWLINE])] + events) == [f] + Drain([], events)
  {
    var all := [Data([NEWLINE])] + events;
    assert all[0] == Data([NEWLINE]) && all[1..] == events;
    EndOfFrame(f, []);
    var full := f + [NEWLINE];
    assert full + [] == full;
    assert full[..|f|] == f && full[|f| + 1..] == [];
  }

  lemma DrainFrame(f: seq<byte>, events: seq<Event>)
    requires NEWLINE !in f && |f| < MAX_FRAME && Awake(events)
    ensures Drain([], Singles(f + [NEWLINE]) + events) == [f] + Drain([], events)
  {
    SinglesAppend(f, [NEWLINE]);
    assert Singles([NEWLINE]) == [Data([NEWLINE])];
    Regroup(Singles(f), [Data([NEWLINE])], events);
    assert [] + f == f;
    DrainSingles([], f, [Data([NEWLINE])] + events);
    DrainNewline(f, events);
  }

  lemma {:induction false} DrainFrames(frames: seq<seq<byte>>, events: seq<Event>)
    requires NewlineFree(frames) && (forall f :: f in frames ==> |f| < MAX_FRAME) && Awake(events)
    ensures Drain([], Singles(Encode(frames)) + events) == frames + Drain([], events)
    decreases |frames|
  {
    if frames == [] {
      assert Singles([]) + events == events;
    } else {
      var rest := Singles(Encode(frames[1..])) + events;
      SinglesAppend(frames[0] + [NEWLINE], Encode(frames[1..]));
      Regroup(Singles(frames[0] + [NEWLINE]), Singles(Encode(frames[1..])), events);
      assert frames[0] in frames;
      DrainFrame(frames[0], rest);
      DrainFrames(frames[1..], events);
      Regroup([frames[0]], frames[1..], Drain([], events));
      assert frames == [frames[0]] + frames[1..];
    }
  }

  lemma {:induction false} EncodeAppend(a: seq<seq<byte>>, b: seq<seq<byte>>)
    ensures Encode(a + b) == Encode(a) + Encode(b)
  {
    if a == [] {
      assert a + b == b;
    } else {
      EncodeAppend(a[1..], b);
      assert (a + b)[0] == a[0] && (a + b)[1..] == a[1..] + b;
      Regroup(a[0] + [NEWLINE], Encode(a[1..]), Encode(b));
    }
  }

  /** One byte at a time, then one chunk, then one byte at a time. */
  function Script(front: seq<byte>, chunk: seq<byte>, rest: seq<byte>): seq<Event>
  {
    Singles(front) + ([Data(chunk)] + Singles(rest))
  }

  lemma ScriptBytes(front: seq<byte>, chunk: seq<byte>, rest: seq<byte>)
    requires 1 <= |chunk| <= CHUNK
    ensures Undisturbed(Script(front, chunk, rest)) && Bytes(Script(front, chunk, rest)) == front + (chunk + rest)
  {
    BytesOfSingles(front);
    BytesOfSingles(rest);
    BytesAppend([Data(chunk)], Singles(rest));
    BytesAppend(Singles(front), [Data(chunk)] + Singles(rest));
    assert Bytes([Data(chunk)]) == chunk;
  }

  lemma ScriptOverflows(part: seq<byte>, chunk: seq<byte>, rest: seq<byte>)
    requires NEWLINE !in part && |part| <= MAX_FRAME && |part| + |chunk| > MAX_FRAME
    ensures Drain([], Script(part, chunk, rest)) == []
  {
    assert [] + part == part;
    DrainSingles([], part, [Data(chunk)] + Singles(rest));
  }

  /** A frame that leaves no room for a chunk, with enough bytes behind it, can be lost. */
  lemma LosingSplit(frames: seq<seq<byte>>, k: nat) returns (events: seq<Event>)
    requires NewlineFree(frames) && (forall f :: f in frames ==> |f| < MAX_FRAME) && k < |frames|
    requires |frames[k]| > MAX_FRAME - CHUNK && |Encode(frames[k..])| > MAX_FRAME
    ensures Undisturbed(events) && Bytes(events) == Encode(frames)
    ensures Drain([], events) == frames[..k]
  {
    var front, back := Encode(frames[..k]), Encode(frames[k..]);
    var l := MAX_FRAME - CHUNK + 1;
    var part, chunk, rest := back[..l], back[l..l + CHUNK], back[l + CHUNK..];
    InThree(back, l, l + CHUNK);
    assert part == frames[k][..l] && frames[k] in frames;
    events := Script(front + part, chunk, rest);
    ScriptBytes(front + part, chunk, rest);
    Regroup(front, part, chunk + rest);
    assert frames == frames[..k] + frames[k..];
    EncodeAppend(frames[..k], frames[k..]);
    ScriptFront(front, part, chunk, rest);
    DrainFrames(frames[..k], Script(part, chunk, rest));
    ScriptOverflows(part, chunk, rest);
  }

  lemma InThree(s: seq<byte>, i: nat, j: nat)
    requires i <= j <= |s|
    ensures s == s[..i] + (s[i..j] + s[j..])
  {
  }

  lemma ScriptFront(front: seq<byte>, part: seq<byte>, chunk: seq<byte>, rest: seq<byte>)
    ensures Script(front + part, chunk, rest) == Singles(front) + Script(part, chunk, rest)
  {
    SinglesAppend(front, part);
    Regroup(Singles(front), Singles(part), [Data(chunk)] + Singles(rest));
  }

  lemma RoomyEncoded(frames: seq<seq<byte>>)
    requires NewlineFree(frames) && forall f :: f in frames ==> |f| < MAX_FRAME
    ensures Roomy(frames) <==>
            forall events :: Undisturbed(events) && Bytes(events) == Encode(frames) ==> Drain([], events) == frames
  {
    if Roomy(frames) {
      forall events | Undisturbed(events) && Bytes(events) == Encode(frames)
        ensures Drain([], events) == frames
      {
        assert [] + Bytes(events) == Bytes(events);
        DrainsExactly([], events, frames);
      }
    } else {
      var k :| 0 <= k < |frames| && !RoomAt(frames, k);
      assert frames[k] in frames;
      var events := LosingSplit(frames, k);
      assert |Drain([], events)| < |frames|;
    }
  }

  /** Every split returns all frames exactly when each frame is roomy or the last of a short stream. */
  lemma RoomyExact(frames: seq<seq<byte>>)
    requires NewlineFree(frames) && Written(frames).Some?
    ensures Roomy(frames) <==>
            forall events :: Undisturbed(events) && Bytes(events) == Written(frames).value ==> Drain([], events) == frames
  {
    WrittenIsEncoded(frames);
    RoomyEncoded(frames);
  }

  /** Roomy frames, once written, are all read back through any script of reads that carries their bytes. */
  method Transfer(frames: seq<seq<byte>>, events: seq<Event>) returns (received: seq<seq<byte>>)
    requires NewlineFree(frames) && Roomy(frames) && Undisturbed(events) && Written(frames) == Some(Bytes(events))
    ensures received == frames
  {
    WrittenIsEncoded(frames);
    assert [] + Bytes(events) == Bytes(events);
    DrainsExactly([], events, frames);
    var reader := new Reader(events);
    received := reader.ReadAll();
  }
}
