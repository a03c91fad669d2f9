/**
 The RIFF/WAVE part of the upload check: chunks that tile the file, one PCM format chunk and
 one data chunk. A number of samples is reported exactly for such files.
 Reading numbers is a parameter, instantiated with little-endian reading at the end.
 */
module Wave {
  import opened Wrappers
  import Endian

  const RIFF: seq<byte> := [82, 73, 70, 70]
  const WAVE: seq<byte> := [87, 65, 86, 69]
  const FMT: seq<byte> := [102, 109, 116, 32]
  const DATA: seq<byte> := [100, 97, 116, 97]

  /** Reads the number in a 2-byte or 4-byte field. */
  type Reader = seq<byte> -> nat

  datatype Chunk = Chunk(id: seq<byte>, size: seq<byte>, payload: seq<byte>, pad: seq<byte>)

  /** The size field tells the payload's length; an odd payload has one byte of padding, of any value. */
  predicate WellFormed(u: Reader, c: Chunk)
  {
    |c.id| == 4 && |c.size| == 4 && u(c.size) == |c.payload| && |c.pad| == |c.payload| % 2
  }

  predicate AllWellFormed(u: Reader, cs: seq<Chunk>)
  {
    forall i :: 0 <= i < |cs| ==> WellFormed(u, cs[i])
  }

  function EncodeChunk(c: Chunk): seq<byte>
  {
    c.id + c.size + c.payload + c.pad
  }

  function EncodeAll(cs: seq<Chunk>): seq<byte>
  {
    if cs == [] then [] else EncodeChunk(cs[0]) + EncodeAll(cs[1..])
  }

  /** Size in bytes of the chunk at the front, padding included, unless it is cut off. */
  function Span(u: Reader, rest: seq<byte>): (r: Option<nat>)
    ensures r.Some? ==> 8 <= r.value <= |rest|
  {
    if |rest| < 8 then None
    else
      var length := u(rest[4..8]);
      var size := 8 + length + length % 2;
      if size > |rest| then None else Some(size)
  }

  function Front(u: Reader, rest: seq<byte>): Chunk
    requires Span(u, rest).Some?
  {
    var length := u(rest[4..8]);
    Chunk(rest[..4], rest[4..8], rest[8..8 + length], rest[8 + length..Span(u, rest).value])
  }

  function Chunks(u: Reader, rest: seq<byte>): Option<seq<Chunk>>
    decreases |rest|
  {
    if rest == [] then Some([])
    else if Span(u, rest).None? then None
    else
      var tail := Chunks(u, rest[Span(u, rest).value..]);
      if tail.None? then None else Some([Front(u, rest)] + tail.value)
  }

  // ----- tiling -----

  lemma FrontOfEncoded(u: Reader, c: Chunk, rest: seq<byte>)
    requires WellFormed(u, c)
    ensures Span(u, EncodeChunk(c) + rest) == Some(|EncodeChunk(c)|)
    ensures Front(u, EncodeChunk(c) + rest) == c
    ensures (EncodeChunk(c) + rest)[|EncodeChunk(c)|..] == rest
  {
    var s := EncodeChunk(c) + rest;
    assert s[4..8] == c.size;
    assert s[..4] == c.id;
    assert s[8..8 + |c.payload|] == c.payload;
    assert s[8 + |c.payload|..|EncodeChunk(c)|] == c.pad;
  }

  lemma {:induction false} ChunksOfEncoded(u: Reader, cs: seq<Chunk>)
    requires AllWellFormed(u, cs)
    ensures Chunks(u, EncodeAll(cs)) == Some(cs)
  {
    if cs != [] {
      assert forall i :: 0 <= i < |cs[1..]| ==> cs[1..][i] == cs[i + 1];
      ChunksOfEncoded(u, cs[1..]);
      FrontOfEncoded(u, cs[0], EncodeAll(cs[1..]));
      assert cs == [cs[0]] + cs[1..];
    }
  }

  lemma EncodedFront(u: Reader, rest: seq<byte>)
    requires Span(u, rest).Some?
    ensures WellFormed(u, Front(u, rest))
    ensures EncodeChunk(Front(u, rest)) == rest[..Span(u, rest).value]
  {
    var length := u(rest[4..8]);
    var size := Span(u, rest).value;
    assert rest[..size] == rest[..4] + rest[4..8] + rest[8..8 + length] + rest[8 + length..size];
  }

  lemma EncodeCons(u: Reader, c: Chunk, tail: seq<Chunk>)
    requires WellFormed(u, c) && AllWellFormed(u, tail)
    ensures AllWellFormed(u, [c] + tail)
    ensures EncodeAll([c] + tail) == EncodeChunk(c) + EncodeAll(tail)
  {
    assert ([c] + tail)[1..] == tail;
  }

  lemma {:induction false} EncodedChunks(u: Reader, rest: seq<byte>)
    requires Chunks(u, rest).Some?
    ensures AllWellFormed(u, Chunks(u, rest).value)
    ensures EncodeAll(Chunks(u, rest).value) == rest
    decreases |rest|
  {
    if rest != [] {
      var size := Span(u, rest).value;
      EncodedChunks(u, rest[size..]);
      EncodedFront(u, rest);
      EncodeCons(u, Front(u, rest), Chunks(u, rest[size..]).value);
      assert rest == rest[..size] + rest[size..];
    }
  }

  // ----- format and data -----

  /** 16 kHz mono PCM16. */
  predicate GoodFormat(u: Reader, c: Chunk)
  {
    && |c.payload| >= 16
    && u(c.payload[0..2]) == 1
    && u(c.payload[2..4]) == 1
    && u(c.payload[4..8]) == 16000
    && u(c.payload[8..12]) == 32000
    && u(c.payload[12..14]) == 2
    && u(c.payload[14..16]) == 16
  }

  /** The sixteen bytes a format chunk must begin with. */
  const PCM: seq<byte> := [1, 0, 1, 0, 128, 62, 0, 0, 0, 125, 0, 0, 2, 0, 16, 0]

  lemma TwoBytes(bs: seq<byte>, low: byte, high: byte)
    requires |bs| == 2
    ensures Endian.Value(bs) == low + 256 * high <==> bs == [low, high]
  {
    assert bs[1..] == [bs[1]] && bs[1..][1..] == [];
    assert Endian.Value(bs[1..]) == bs[1];
    assert bs == [bs[0], bs[1]];
  }

  lemma FourBytes(bs: seq<byte>, low: byte, high: byte)
    requires |bs| == 4
    ensures Endian.Value(bs) == low + 256 * high <==> bs == [low, high, 0, 0]
  {
    assert bs[1..][1..] == bs[2..];
    TwoBytes(bs[2..], 0, 0);
    assert Endian.Value(bs) == bs[0] + 256 * (bs[1] + 256 * Endian.Value(bs[2..]));
    assert bs == [bs[0], bs[1]] + bs[2..];
  }

  lemma Pieces(p: seq<byte>)
    requires |p| >= 16
    ensures PCM <= p <==>
            && p[0..2] == [1, 0] && p[2..4] == [1, 0] && p[4..8] == [128, 62, 0, 0]
            && p[8..12] == [0, 125, 0, 0] && p[12..14] == [2, 0] && p[14..16] == [16, 0]
  {
    assert p[..16] == p[0..2] + p[2..4] + p[4..8] + p[8..12] + p[12..14] + p[14..16];
    assert PCM == [1, 0] + [1, 0] + [128, 62, 0, 0] + [0, 125, 0, 0] + [2, 0] + [16, 0];
    assert PCM <= p <==> p[..16] == PCM;
    if p[..16] == PCM {
      assert p[0..2] == PCM[0..2] && p[2..4] == PCM[2..4] && p[4..8] == PCM[4..8];
      assert p[8..12] == PCM[8..12] && p[12..14] == PCM[12..14] && p[14..16] == PCM[14..16];
    }
  }

  /** 16 kHz mono PCM16, byte by byte. */
  lemma FormatBytes(c: Chunk)
    ensures GoodFormat(Endian.Value, c) <==> PCM <= c.payload
  {
    var p := c.payload;
    if |p| >= 16 {
      TwoBytes(p[0..2], 1, 0);
      TwoBytes(p[2..4], 1, 0);
      FourBytes(p[4..8], 128, 62);
      FourBytes(p[8..12], 0, 125);
      TwoBytes(p[12..14], 2, 0);
      TwoBytes(p[14..16], 16, 0);
      Pieces(p);
    }
  }

  predicate GoodData(c: Chunk)
  {
    |c.payload| > 0 && |c.payload| % 2 == 0
  }

  datatype Seen = Seen(format: bool, samples: Option<nat>)

  const UNSEEN := Seen(false, None)

  function See(u: Reader, s: Seen, c: Chunk): Option<Seen>
  {
    if c.id == FMT then
      if !s.format && GoodFormat(u, c) then Some(s.(format := true)) else None
    else if c.id == DATA then
      if s.samples.None? && GoodData(c) then Some(s.(samples := Some(|c.payload| / 2))) else None
    else Some(s)
  }

  function Tally(u: Reader, s: Seen, cs: seq<Chunk>): Option<Seen>
    decreases |cs|
  {
    if cs == [] then Some(s)
    else
      var next := See(u, s, cs[0]);
      if next.None? then None else Tally(u, next.value, cs[1..])
  }

  function Having(cs: seq<Chunk>, id: seq<byte>): seq<Chunk>
  {
    if cs == [] then []
    else (if cs[0].id == id then [cs[0]] else []) + Having(cs[1..], id)
  }

  predicate FormatsAre(u: Reader, have: bool, fs: seq<Chunk>)
  {
    if have then fs == [] else |fs| == 1 && GoodFormat(u, fs[0])
  }

  predicate DataIs(have: Option<nat>, ds: seq<Chunk>, n: nat)
  {
    if have.Some? then ds == [] && have.value == n else |ds| == 1 && GoodData(ds[0]) && |ds[0].payload| == 2 * n
  }

  /** The running check succeeds exactly with one good chunk of either kind. */
  lemma {:induction false} TallyExact(u: Reader, s: Seen, cs: seq<Chunk>, n: nat)
    ensures Tally(u, s, cs) == Some(Seen(true, Some(n))) <==>
            FormatsAre(u, s.format, Having(cs, FMT)) && DataIs(s.samples, Having(cs, DATA), n)
    decreases |cs|
  {
    if cs != [] {
      var next := See(u, s, cs[0]);
      if next.Some? {
        TallyExact(u, next.value, cs[1..], n);
      }
    }
  }

  // ----- the parser -----

  predicate Header(u: Reader, wave: seq<byte>)
  {
    |wave| >= 44 && wave[..4] == RIFF && wave[8..12] == WAVE && u(wave[4..8]) + 8 == |wave|
  }

  /** The file is a header followed by chunks, one of them a format and one `2 * n` bytes of data. */
  predicate IsWave(u: Reader, wave: seq<byte>, cs: seq<Chunk>, n: nat)
  {
    && Header(u, wave)
    && AllWellFormed(u, cs) && wave[12..] == EncodeAll(cs)
    && FormatsAre(u, false, Having(cs, FMT))
    && DataIs(None, Having(cs, DATA), n)
  }

  /** What is left to find out once the chunks before `rest` gave `s`. */
  function Outcome(u: Reader, rest: seq<byte>, s: Seen): Option<nat>
  {
    var cs := Chunks(u, rest);
    if cs.None? then None
    else
      var t := Tally(u, s, cs.value);
      if t.Some? && t.value.format then t.value.samples else None
  }

  lemma WaveSound(u: Reader, wave: seq<byte>, n: nat)
    requires Header(u, wave) && Outcome(u, wave[12..], UNSEEN) == Some(n)
    ensures IsWave(u, wave, Chunks(u, wave[12..]).value, n)
  {
    var cs := Chunks(u, wave[12..]).value;
    EncodedChunks(u, wave[12..]);
    TallyExact(u, UNSEEN, cs, n);
  }

  lemma WaveComplete(u: Reader, wave: seq<byte>, cs: seq<Chunk>, n: nat)
    requires IsWave(u, wave, cs, n)
    ensures Outcome(u, wave[12..], UNSEEN) == Some(n)
  {
    ChunksOfEncoded(u, cs);
    TallyExact(u, UNSEEN, cs, n);
  }

  lemma OutcomeStep(u: Reader, rest: seq<byte>, s: Seen)
    requires Span(u, rest).Some?
    ensures Outcome(u, rest, s) ==
            if See(u, s, Front(u, rest)).None? then None
            else Outcome(u, rest[Span(u, rest).value..], See(u, s, Front(u, rest)).value)
  {
    var tail := Chunks(u, rest[Span(u, rest).value..]);
    if tail.Some? {
      assert ([Front(u, rest)] + tail.value)[1..] == tail.value;
    }
  }

  lemma OutcomeCut(u: Reader, rest: seq<byte>, s: Seen)
    requires rest != [] && Span(u, rest).None?
    ensures Outcome(u, rest, s) == None
  {
  }

  lemma SeeSame(u: Reader, s: Seen, a: Chunk, b: Chunk)
    requires a.id == b.id && a.payload == b.payload
    ensures See(u, s, a) == See(u, s, b)
  {
  }

  /** One chunk: a bad one, or one whose padding is missing, ends in failure whatever follows. */
  lemma ScanStep(u: Reader, rest: seq<byte>, s: Seen, c: Chunk, next: Option<Seen>, size: nat)
    requires |rest| >= 8 && 8 + u(rest[4..8]) <= |rest|
    requires c.id == rest[..4] && c.payload == rest[8..8 + u(rest[4..8])]
    requires next == See(u, s, c) && size == 8 + |c.payload| + |c.payload| % 2
    ensures Outcome(u, rest, s) == if next.None? || size > |rest| then None else Outcome(u, rest[size..], next.value)
  {
    if Span(u, rest).Some? {
      OutcomeStep(u, rest, s);
      SeeSame(u, s, Front(u, rest), c);
    } else {
      OutcomeCut(u, rest, s);
    }
  }

  /** The verdict on the rest of a file, given what its chunks so far have shown. */
  type Verdict = (seq<byte>, Seen) -> Option<nat>

  /** Whether a verdict can be reached chunk by chunk. */
  ghost predicate Stepwise(u: Reader, o: Verdict)
  {
    && (forall rest, s, c {:trigger Onward(u, o, rest, s, c)} :: At(u, rest, c) ==> o(rest, s) == Onward(u, o, rest, s, c))
    && (forall rest, s {:trigger o(rest, s)} :: rest != [] && CutOff(u, rest) ==> o(rest, s) == None)
    && (forall s {:trigger o([], s)} :: o([], s) == if s.format then s.samples else None)
  }

  predicate CutOff(u: Reader, rest: seq<byte>)
  {
    |rest| < 8 || 8 + u(rest[4..8]) > |rest|
  }

  predicate At(u: Reader, rest: seq<byte>, c: Chunk)
  {
    !CutOff(u, rest) && c.id == rest[..4] && c.payload == rest[8..8 + u(rest[4..8])]
  }

  function Onward(u: Reader, o: Verdict, rest: seq<byte>, s: Seen, c: Chunk): Option<nat>
  {
    var size := 8 + |c.payload| + |c.payload| % 2;
    if See(u, s, c).None? || size > |rest| then None else o(rest[size..], See(u, s, c).value)
  }

  lemma OutcomeOnward(u: Reader, o: Verdict, rest: seq<byte>, s: Seen, c: Chunk)
    requires At(u, rest, c) && forall r, t {:trigger o(r, t)} :: o(r, t) == Outcome(u, r, t)
    ensures o(rest, s) == Onward(u, o, rest, s, c)
  {
    var next, size := See(u, s, c), 8 + |c.payload| + |c.payload| % 2;
    ScanStep(u, rest, s, c, next, size);
    assert o(rest, s) == Outcome(u, rest, s);
    if next.Some? && size <= |rest| {
      var tail := rest[size..];
      assert o(tail, next.value) == Outcome(u, tail, next.value);
    }
  }

  lemma OutcomeStepwise(u: Reader)
    ensures Stepwise(u, (rest, s) => Outcome(u, rest, s))
  {
    var o: Verdict := (rest, s) => Outcome(u, rest, s);
    forall rest, s, c | At(u, rest, c)
      ensures o(rest, s) == Onward(u, o, rest, s, c)
    {
      OutcomeOnward(u, o, rest, s, c);
    }
    forall rest, s | rest != [] && CutOff(u, rest)
      ensures o(rest, s) == None
    {
      OutcomeCut(u, rest, s);
    }
  }

  function Remaining(o: Verdict, wave: seq<byte>, cursor: nat, s: Seen): Option<nat>
  {
    if cursor <= |wave| then o(wave[cursor..], s) else None
  }

  lemma ScanAt(u: Reader, o: Verdict, wave: seq<byte>, cursor: nat, s: Seen, c: Chunk, end: nat)
    requires Stepwise(u, o)
    requires cursor + 8 <= end <= |wave| && end == cursor + 8 + u(wave[cursor + 4..cursor + 8])
    requires c.id == wave[cursor..cursor + 4] && c.payload == wave[cursor + 8..end]
    ensures Remaining(o, wave, cursor, s) ==
            if See(u, s, c).None? then None else Remaining(o, wave, end + (end - cursor - 8) % 2, See(u, s, c).value)
  {
    var rest := wave[cursor..];
    var size := 8 + |c.payload| + |c.payload| % 2;
    Slices(wave, cursor, end, size);
    assert At(u, rest, c);
    assert o(rest, s) == Onward(u, o, rest, s, c);
  }

  lemma Slices(wave: seq<byte>, cursor: nat, end: nat, size: nat)
    requires cursor + 8 <= end <= |wave|
    ensures var rest := wave[cursor..];
            && rest[4..8] == wave[cursor + 4..cursor + 8] && rest[..4] == wave[cursor..cursor + 4]
            && rest[8..end - cursor] == wave[cursor + 8..end]
            && (size <= |rest| ==> rest[size..] == wave[cursor + size..])
  {
  }

  lemma CutShort(u: Reader, o: Verdict, wave: seq<byte>, cursor: nat, s: Seen)
    requires Stepwise(u, o) && cursor < |wave|
    requires cursor + 8 > |wave| || cursor + 8 + u(wave[cursor + 4..cursor + 8]) > |wave|
    ensures Remaining(o, wave, cursor, s) == None
  {
    var rest := wave[cursor..];
    if cursor + 8 <= |wave| {
      assert rest[4..8] == wave[cursor + 4..cursor + 8];
    }
    assert CutOff(u, rest);
  }

  method Judge(u: Reader, c: Chunk, format: bool, samples: Option<nat>)
    returns (passed: bool, format': bool, samples': Option<nat>)
    ensures See(u, Seen(format, samples), c) == if passed then Some(Seen(format', samples')) else None
  {
    passed, format', samples' := true, format, samples;
    if c.id == FMT {
      if format || !GoodFormat(u, c) {
        passed := false;
      }
      format' := true;
    } else if c.id == DATA {
      if samples.Some? || |c.payload| == 0 || |c.payload| % 2 != 0 {
        passed := false;
      }
      samples' := Some(|c.payload| / 2);
    }
  }

  /** One turn of the loop: the chunk at `cursor`. */
  method ScanOne(u: Reader, ghost o: Verdict, wave: seq<byte>, cursor: nat, format: bool, samples: Option<nat>)
    returns (passed: bool, cursor': nat, format': bool, samples': Option<nat>)
    requires Stepwise(u, o) && cursor < |wave|
    ensures Remaining(o, wave, cursor, Seen(format, samples)) ==
            if passed then Remaining(o, wave, cursor', Seen(format', samples')) else None
    ensures cursor' > cursor
  {
    passed, cursor', format', samples' := false, cursor + 8, format, samples;
    if cursor + 8 > |wave| {
      CutShort(u, o, wave, cursor, Seen(format, samples));
      return;
    }
    var length := u(wave[cursor + 4..cursor + 8]);
    var start := cursor + 8;
    var end := start + length;
    if end > |wave| {
      CutShort(u, o, wave, cursor, Seen(format, samples));
      return;
    }
    var c := Chunk(wave[cursor..cursor + 4], wave[cursor + 4..cursor + 8], wave[start..end], []);
    ScanAt(u, o, wave, cursor, Seen(format, samples), c, end);
    passed, format', samples' := Judge(u, c, format, samples);
    cursor' := end + length % 2;
  }

  method ScanChunks(u: Reader, ghost o: Verdict, wave: seq<byte>) returns (r: Option<nat>)
    requires Stepwise(u, o) && |wave| >= 12
    ensures r == o(wave[12..], UNSEEN)
  {
    var cursor, format, samples := 12, false, None;
    while cursor < |wave|
      invariant 12 <= cursor
      invariant o(wave[12..], UNSEEN) == Remaining(o, wave, cursor, Seen(format, samples))
      decreases |wave| - cursor
    {
      var passed := true;
      passed, cursor, format, samples := ScanOne(u, o, wave, cursor, format, samples);
      if !passed {
        return None;
      }
    }
    assert cursor == |wave| ==> wave[cursor..] == [];
    return if format && cursor == |wave| then samples else None;
  }

  function Counted(u: Reader, wave: seq<byte>): Option<nat>
  {
    if Header(u, wave) then Outcome(u, wave[12..], UNSEEN) else None
  }

  method Samples(u: Reader, wave: seq<byte>) returns (r: Option<nat>)
    ensures r == Counted(u, wave)
  {
    r := None;
    if |wave| >= 44 && wave[..4] == RIFF && wave[8..12] == WAVE && u(wave[4..8]) + 8 == |wave| {
      OutcomeStepwise(u);
      r := ScanChunks(u, (rest, s) => Outcome(u, rest, s), wave);
    }
  }

  /** `n` samples are counted exactly in a file whose chunks tile it and pass the checks. */
  lemma CountedExact(u: Reader, wave: seq<byte>, n: nat)
    ensures Counted(u, wave) == Some(n) <==> exists cs :: IsWave(u, wave, cs, n)
  {
    if Counted(u, wave) == Some(n) {
      WaveSound(u, wave, n);
    }
    forall cs | IsWave(u, wave, cs, n)
      ensures Counted(u, wave) == Some(n)
    {
      WaveComplete(u, wave, cs, n);
    }
  }

  // ----- writing a file -----

  function Sized(id: seq<byte>, payload: seq<byte>): Chunk
  {
    Chunk(id, Endian.LittleEndian(|payload|, 4), payload, if |payload| % 2 == 1 then [0] else [])
  }

  function RiffFile(size: seq<byte>, cs: seq<Chunk>): seq<byte>
  {
    RIFF + size + WAVE + EncodeAll(cs)
  }

  lemma SizedWellFormed(id: seq<byte>, payload: seq<byte>)
    requires |id| == 4 && |payload| < 0x1_0000_0000
    ensures WellFormed(Endian.Value, Sized(id, payload))
  {
    assert Endian.Bound(4) == 0x1_0000_0000;
    Endian.ValueOfLittleEndian(|payload|, 4);
  }

  lemma RiffHeader(u: Reader, size: seq<byte>, cs: seq<Chunk>)
    requires |size| == 4 && u(size) == 4 + |EncodeAll(cs)| && |EncodeAll(cs)| >= 32
    ensures Header(u, RiffFile(size, cs)) && RiffFile(size, cs)[12..] == EncodeAll(cs)
  {
    var wave := RiffFile(size, cs);
    assert wave[4..8] == size && wave[..4] == RIFF && wave[8..12] == WAVE && wave[12..] == EncodeAll(cs);
  }

  lemma {:induction false} HavingFits(u: Reader, cs: seq<Chunk>)
    requires AllWellFormed(u, cs)
    ensures AllWellFormed(u, Having(cs, FMT)) && AllWellFormed(u, Having(cs, DATA))
    ensures |EncodeAll(cs)| >= |EncodeAll(Having(cs, FMT))| + |EncodeAll(Having(cs, DATA))|
  {
    if cs != [] {
      var c, rest := cs[0], cs[1..];
      assert WellFormed(u, c) && forall i :: 0 <= i < |rest| ==> rest[i] == cs[i + 1];
      HavingFits(u, rest);
      if c.id == FMT {
        EncodeCons(u, c, Having(rest, FMT));
        assert Having(cs, DATA) == Having(rest, DATA);
      } else if c.id == DATA {
        EncodeCons(u, c, Having(rest, DATA));
        assert Having(cs, FMT) == Having(rest, FMT);
      } else {
        assert Having(cs, FMT) == Having(rest, FMT) && Having(cs, DATA) == Having(rest, DATA);
      }
    }
  }

  /** One format chunk and one data chunk already make the file long enough. */
  lemma LongEnough(u: Reader, cs: seq<Chunk>, n: nat)
    requires AllWellFormed(u, cs) && FormatsAre(u, false, Having(cs, FMT)) && DataIs(None, Having(cs, DATA), n)
    ensures |EncodeAll(cs)| >= 32
  {
    HavingFits(u, cs);
    OneChunk(u, Having(cs, FMT));
    OneChunk(u, Having(cs, DATA));
  }

  lemma OneChunk(u: Reader, cs: seq<Chunk>)
    requires |cs| == 1 && AllWellFormed(u, cs)
    ensures |EncodeAll(cs)| >= 8 + |cs[0].payload|
  {
    assert cs[1..] == [] && EncodeAll([]) == [];
    assert WellFormed(u, cs[0]);
  }

  /** Any good chunks written behind a header with the right length make such a file. */
  lemma RiffFileIsWave(cs: seq<Chunk>, n: nat)
    requires AllWellFormed(Endian.Value, cs) && |EncodeAll(cs)| < 0xFFFF_FFFC
    requires FormatsAre(Endian.Value, false, Having(cs, FMT)) && DataIs(None, Having(cs, DATA), n)
    ensures IsWave(Endian.Value, RiffFile(Endian.LittleEndian(4 + |EncodeAll(cs)|, 4), cs), cs, n)
  {
    LongEnough(Endian.Value, cs, n);
    assert Endian.Bound(4) == 0x1_0000_0000;
    Endian.ValueOfLittleEndian(4 + |EncodeAll(cs)|, 4);
    RiffHeader(Endian.Value, Endian.LittleEndian(4 + |EncodeAll(cs)|, 4), cs);
  }

  /** Payloads written with their own size fields make good chunks. */
  lemma SizedChunks(ids: seq<seq<byte>>, payloads: seq<seq<byte>>)
    requires |ids| == |payloads|
    requires forall i :: 0 <= i < |ids| ==> |ids[i]| == 4 && |payloads[i]| < 0x1_0000_0000
    ensures AllWellFormed(Endian.Value, seq(|ids|, i requires 0 <= i < |ids| => Sized(ids[i], payloads[i])))
  {
    forall i | 0 <= i < |ids|
      ensures WellFormed(Endian.Value, Sized(ids[i], payloads[i]))
    {
      SizedWellFormed(ids[i], payloads[i]);
    }
  }
}
