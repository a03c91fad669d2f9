/**
 Cutting a multipart body into parts: a delimiter, a header up to the first blank line, data up
 to the next delimiter. What a part's header says is a parameter.
 */
module Multipart {
  import opened Wrappers

  const CRLF: seq<byte> := [13, 10]
  const BLANK: seq<byte> := [13, 10, 13, 10]
  const DASHES: seq<byte> := [45, 45]

  // ----- searching -----

  predicate OccursAt(s: seq<byte>, needle: seq<byte>, i: nat)
  {
    i + |needle| <= |s| && s[i..i + |needle|] == needle
  }

  predicate Absent(s: seq<byte>, needle: seq<byte>)
  {
    forall j: nat :: j <= |s| ==> !OccursAt(s, needle, j)
  }

  predicate FirstAt(s: seq<byte>, needle: seq<byte>, i: nat)
  {
    OccursAt(s, needle, i) && forall j: nat :: j < i ==> !OccursAt(s, needle, j)
  }

  ghost function Position(s: seq<byte>, needle: seq<byte>): (r: Option<nat>)
    ensures r.Some? ==> FirstAt(s, needle, r.value)
    ensures r.None? ==> forall i: nat :: !FirstAt(s, needle, i)
  {
    if exists i: nat :: FirstAt(s, needle, i) then
      var i: nat :| FirstAt(s, needle, i);
      Some(i)
    else None
  }

  lemma PositionIs(s: seq<byte>, needle: seq<byte>, i: nat)
    requires FirstAt(s, needle, i)
    ensures Position(s, needle) == Some(i)
  {
    assert FirstAt(s, needle, Position(s, needle).value);
  }

  method FindBytes(s: seq<byte>, needle: seq<byte>) returns (r: Option<nat>)
    ensures r == Position(s, needle)
    ensures r.None? <==> Absent(s, needle)
  {
    var i := 0;
    while i + |needle| <= |s|
      invariant 0 <= i
      invariant forall j: nat :: j < i ==> !OccursAt(s, needle, j)
    {
      if s[i..i + |needle|] == needle {
        PositionIs(s, needle, i);
        assert OccursAt(s, needle, i);
        return Some(i);
      }
      i := i + 1;
    }
    r := None;
  }

  /** Only the text up to the end of the first occurrence matters. */
  lemma FirstLocal(a: seq<byte>, needle: seq<byte>, rest: seq<byte>)
    ensures FirstAt(a + needle + rest, needle, |a|) <==> FirstAt(a + needle, needle, |a|)
  {
    var s, t := a + needle + rest, a + needle;
    assert s[|a|..|a| + |needle|] == needle && t[|a|..|a| + |needle|] == needle;
    forall j: nat | j < |a|
      ensures OccursAt(s, needle, j) <==> OccursAt(t, needle, j)
    {
      assert s[j..j + |needle|] == t[j..j + |needle|];
    }
  }

  lemma FirstCuts(s: seq<byte>, needle: seq<byte>, i: nat)
    requires FirstAt(s, needle, i)
    ensures s == s[..i] + needle + s[i + |needle|..]
    ensures FirstAt(s[..i] + needle, needle, i)
  {
    assert s == s[..i] + needle + s[i + |needle|..];
    FirstLocal(s[..i], needle, s[i + |needle|..]);
  }

  // ----- parts -----

  datatype Part = Part(header: seq<byte>, data: seq<byte>)

  /** `marker` is "--" and the boundary, `next` the same behind a line break. */
  datatype Delimiter = Delimiter(marker: seq<byte>, next: seq<byte>)

  predicate Proper(d: Delimiter)
  {
    d.next == CRLF + d.marker
  }

  /** The header ends at its first blank line and the data at the first delimiter. */
  predicate Good(d: Delimiter, p: Part)
  {
    FirstAt(p.header + BLANK, BLANK, |p.header|) && FirstAt(p.data + d.next, d.next, |p.data|)
  }

  predicate AllGood(d: Delimiter, parts: seq<Part>)
  {
    forall i :: 0 <= i < |parts| ==> Good(d, parts[i])
  }

  function EncodePart(d: Delimiter, p: Part): seq<byte>
  {
    d.marker + CRLF + p.header + BLANK + p.data + CRLF
  }

  function Encode(d: Delimiter, parts: seq<Part>, epilogue: seq<byte>): seq<byte>
  {
    if parts == [] then d.marker + DASHES + epilogue
    else EncodePart(d, parts[0]) + Encode(d, parts[1..], epilogue)
  }

  /** What stands at the front of a body: the end, a part of `size` bytes, or neither. */
  datatype Turn = Last | Broken | Next(part: Part, size: nat)

  ghost function Look(d: Delimiter, body: seq<byte>): (t: Turn)
    requires Proper(d)
    ensures t.Next? ==> 2 <= t.size <= |body|
  {
    if !(d.marker <= body) then Broken
    else
      var rest := body[|d.marker|..];
      if DASHES <= rest then Last
      else if !(CRLF <= rest) then Broken
      else
        var h := Position(rest[2..], BLANK);
        if h.None? then Broken
        else
          var data := rest[h.value + 6..];
          var e := Position(data, d.next);
          if e.None? then Broken
          else Next(Part(rest[2..h.value + 2], data[..e.value]), |d.marker| + h.value + 6 + e.value + 2)
  }

  ghost function Parse(d: Delimiter, body: seq<byte>): Option<seq<Part>>
    requires Proper(d)
    decreases |body|
  {
    match Look(d, body)
    case Last => Some([])
    case Broken => None
    case Next(part, size) =>
      var tail := Parse(d, body[size..]);
      if tail.None? then None else Some([part] + tail.value)
  }

  // ----- round trip -----

  lemma Layout(d: Delimiter, p: Part, rest: seq<byte>)
    ensures d.marker + (CRLF + (p.header + BLANK + (p.data + CRLF + rest))) == EncodePart(d, p) + rest
  {
  }

  lemma DataFirst(d: Delimiter, data: seq<byte>, rest: seq<byte>)
    requires Proper(d) && FirstAt(data + d.next, d.next, |data|) && d.marker <= rest
    ensures Position(data + CRLF + rest, d.next) == Some(|data|)
  {
    var tail := rest[|d.marker|..];
    assert data + CRLF + rest == data + d.next + tail;
    FirstLocal(data, d.next, tail);
    PositionIs(data + d.next + tail, d.next, |data|);
  }

  lemma HeaderFirst(header: seq<byte>, behind: seq<byte>)
    requires FirstAt(header + BLANK, BLANK, |header|)
    ensures Position(header + BLANK + behind, BLANK) == Some(|header|)
  {
    FirstLocal(header, BLANK, behind);
    PositionIs(header + BLANK + behind, BLANK, |header|);
  }

  lemma LookPieces(d: Delimiter, body: seq<byte>, after: seq<byte>, header: seq<byte>, behind: seq<byte>,
                   data: seq<byte>, rest: seq<byte>)
    requires Proper(d) && body == d.marker + (CRLF + after)
    requires after == header + BLANK + behind && Position(after, BLANK) == Some(|header|)
    requires behind == data + CRLF + rest && Position(behind, d.next) == Some(|data|)
    ensures Look(d, body) == Next(Part(header, data), |d.marker| + |header| + 6 + |data| + 2)
  {
    var r := body[|d.marker|..];
    assert r == CRLF + after;
    assert r[0] == 13 && !(DASHES <= r) && CRLF <= r;
    assert r[2..] == after;
    assert r[|header| + 6..] == behind;
    assert r[2..|header| + 2] == header;
    assert behind[..|data|] == data;
  }

  lemma LookAtEncoded(d: Delimiter, p: Part, rest: seq<byte>)
    requires Proper(d) && Good(d, p) && d.marker <= rest
    ensures Look(d, EncodePart(d, p) + rest) == Next(p, |EncodePart(d, p)|)
  {
    var behind := p.data + CRLF + rest;
    var after := p.header + BLANK + behind;
    Layout(d, p, rest);
    DataFirst(d, p.data, rest);
    HeaderFirst(p.header, behind);
    LookPieces(d, EncodePart(d, p) + rest, after, p.header, behind, p.data, rest);
  }

  lemma EncodedStarts(d: Delimiter, parts: seq<Part>, epilogue: seq<byte>)
    ensures d.marker <= Encode(d, parts, epilogue)
  {
  }

  /** Whatever parts were encoded, in whatever number, are read back. */
  lemma {:induction false} ParseOfEncoded(d: Delimiter, parts: seq<Part>, epilogue: seq<byte>)
    requires Proper(d) && AllGood(d, parts)
    ensures Parse(d, Encode(d, parts, epilogue)) == Some(parts)
    decreases |parts|
  {
    if parts == [] {
      LookAtEnd(d, epilogue);
    } else {
      var rest := Encode(d, parts[1..], epilogue);
      ParseOfEncoded(d, Tail(d, parts), epilogue);
      EncodedStarts(d, parts[1..], epilogue);
      ParseOne(d, parts[0], rest, parts[1..]);
      HeadTail(parts);
    }
  }

  lemma ParseOne(d: Delimiter, p: Part, rest: seq<byte>, parts: seq<Part>)
    requires Proper(d) && Good(d, p) && d.marker <= rest && Parse(d, rest) == Some(parts)
    ensures Parse(d, EncodePart(d, p) + rest) == Some([p] + parts)
  {
    LookAtEncoded(d, p, rest);
    Suffix(EncodePart(d, p), rest);
  }

  lemma HeadTail(parts: seq<Part>)
    requires parts != []
    ensures parts == [parts[0]] + parts[1..]
  {
  }

  lemma LookAtEnd(d: Delimiter, epilogue: seq<byte>)
    requires Proper(d)
    ensures Look(d, d.marker + DASHES + epilogue) == Last
  {
    var body := d.marker + DASHES + epilogue;
    assert body[|d.marker|..] == DASHES + epilogue;
  }

  function Tail(d: Delimiter, parts: seq<Part>): (r: seq<Part>)
    requires parts != [] && AllGood(d, parts)
    ensures r == parts[1..] && AllGood(d, r)
  {
    assert forall i :: 0 <= i < |parts[1..]| ==> parts[1..][i] == parts[i + 1];
    parts[1..]
  }

  lemma Suffix(a: seq<byte>, b: seq<byte>)
    ensures (a + b)[|a|..] == b
  {
  }

  lemma DataCut(d: Delimiter, data: seq<byte>, e: nat)
    requires Proper(d) && FirstAt(data, d.next, e)
    ensures data == data[..e] + CRLF + data[e + 2..]
    ensures FirstAt(data[..e] + d.next, d.next, e)
  {
    FirstCuts(data, d.next, e);
  }

  lemma Cut(d: Delimiter, body: seq<byte>, after: seq<byte>, h: nat, data: seq<byte>, e: nat)
    requires Proper(d) && body == d.marker + (CRLF + after)
    requires FirstAt(after, BLANK, h) && data == after[h + 4..] && FirstAt(data, d.next, e)
    ensures Good(d, Part(after[..h], data[..e]))
    ensures body[..|d.marker| + h + 6 + e + 2] == EncodePart(d, Part(after[..h], data[..e]))
  {
    FirstCuts(after, BLANK, h);
    DataCut(d, data, e);
    var p := Part(after[..h], data[..e]);
    Layout(d, p, data[e + 2..]);
    Prefix(EncodePart(d, p), data[e + 2..]);
  }

  lemma EncodedLook(d: Delimiter, body: seq<byte>)
    requires Proper(d) && Look(d, body).Next?
    ensures Good(d, Look(d, body).part)
    ensures body[..Look(d, body).size] == EncodePart(d, Look(d, body).part)
  {
    var rest := body[|d.marker|..];
    var after := rest[2..];
    var h := Position(after, BLANK).value;
    var data := rest[h + 6..];
    var e := Position(data, d.next).value;
    Slices(d, body, rest, h);
    Cut(d, body, after, h, data, e);
  }

  lemma Slices(d: Delimiter, body: seq<byte>, rest: seq<byte>, h: nat)
    requires d.marker <= body && rest == body[|d.marker|..] && CRLF <= rest && h + 6 <= |rest|
    ensures body == d.marker + (CRLF + rest[2..])
    ensures rest[2..][..h] == rest[2..h + 2] && rest[2..][h + 4..] == rest[h + 6..]
  {
  }

  lemma Prefix(a: seq<byte>, b: seq<byte>)
    ensures (a + b)[..|a|] == a
  {
  }

  lemma {:induction false} EncodedParse(d: Delimiter, body: seq<byte>) returns (epilogue: seq<byte>)
    requires Proper(d) && Parse(d, body).Some?
    ensures AllGood(d, Parse(d, body).value)
    ensures body == Encode(d, Parse(d, body).value, epilogue)
    decreases |body|
  {
    var t := Look(d, body);
    if t.Last? {
      epilogue := body[|d.marker| + 2..];
      assert body == d.marker + DASHES + epilogue;
    } else {
      epilogue := EncodedParse(d, body[t.size..]);
      EncodedLook(d, body);
      var tail := Parse(d, body[t.size..]).value;
      assert Parse(d, body).value[1..] == tail;
      assert body == body[..t.size] + body[t.size..];
    }
  }

  // ----- fields -----

  datatype Role = File | Model | Other

  /** What a header makes of its part; `None` rejects the upload. */
  type Classifier = seq<byte> -> Option<Role>

  datatype Fields = Fields(audio: Option<seq<byte>>, model: Option<seq<byte>>)

  const NOTHING := Fields(None, None)

  function Take(f: Fields, role: Option<Role>, data: seq<byte>): Option<Fields>
  {
    match role
    case None => None
    case Some(File) => if f.audio.None? then Some(f.(audio := Some(data))) else None
    case Some(Model) => if f.model.None? then Some(f.(model := Some(data))) else None
    case Some(Other) => Some(f)
  }

  function Collect(k: Classifier, f: Fields, parts: seq<Part>): Option<Fields>
    decreases |parts|
  {
    if parts == [] then Some(f)
    else
      var next := Take(f, k(parts[0].header), parts[0].data);
      if next.None? then None else Collect(k, next.value, parts[1..])
  }

  function Having(k: Classifier, parts: seq<Part>, role: Role): seq<Part>
  {
    if parts == [] then []
    else (if k(parts[0].header) == Some(role) then [parts[0]] else []) + Having(k, parts[1..], role)
  }

  predicate AllClassified(k: Classifier, parts: seq<Part>)
  {
    forall i :: 0 <= i < |parts| ==> k(parts[i].header).Some?
  }

  lemma ClassifiedCons(k: Classifier, parts: seq<Part>)
    requires parts != []
    ensures AllClassified(k, parts) <==> k(parts[0].header).Some? && AllClassified(k, parts[1..])
  {
    assert forall i :: 0 <= i < |parts[1..]| ==> parts[1..][i] == parts[i + 1];
    if k(parts[0].header).Some? && AllClassified(k, parts[1..]) {
      forall i | 0 <= i < |parts|
        ensures k(parts[i].header).Some?
      {
        if i > 0 {
          assert k(parts[1..][i - 1].header).Some?;
        }
      }
    }
  }

  /** A field already there must not come again; one that is missing comes exactly once. */
  predicate Once(have: Option<seq<byte>>, ps: seq<Part>, value: seq<byte>)
  {
    if have.Some? then ps == [] && have.value == value else |ps| == 1 && ps[0].data == value
  }

  lemma {:induction false} CollectExact(k: Classifier, f: Fields, parts: seq<Part>, audio: seq<byte>, model: seq<byte>)
    ensures Collect(k, f, parts) == Some(Fields(Some(audio), Some(model))) <==>
            AllClassified(k, parts) && Once(f.audio, Having(k, parts, File), audio) && Once(f.model, Having(k, parts, Model), model)
    decreases |parts|
  {
    if parts != [] {
      var role := k(parts[0].header);
      var next := Take(f, role, parts[0].data);
      ClassifiedCons(k, parts);
      if next.Some? {
        CollectExact(k, next.value, parts[1..], audio, model);
      }
    }
  }

  // ----- the loop -----

  /** The fields of the body from `cursor` on, added to those already found. */
  ghost function From(d: Delimiter, k: Classifier, body: seq<byte>, cursor: nat, f: Fields): Option<Fields>
    requires Proper(d) && cursor <= |body|
  {
    var parts := Parse(d, body[cursor..]);
    if parts.None? then None else Collect(k, f, parts.value)
  }

  lemma FromStep(d: Delimiter, k: Classifier, body: seq<byte>, cursor: nat, f: Fields, t: Turn)
    requires Proper(d) && cursor <= |body| && t == Look(d, body[cursor..])
    ensures t.Last? ==> From(d, k, body, cursor, f) == Some(f)
    ensures t.Broken? ==> From(d, k, body, cursor, f) == None
    ensures t.Next? ==> 2 <= t.size <= |body| - cursor
                        && From(d, k, body, cursor, f) ==
                           var next := Take(f, k(t.part.header), t.part.data);
                           if next.None? then None else From(d, k, body, cursor + t.size, next.value)
  {
    if t.Next? {
      var rest := body[cursor..];
      assert rest[t.size..] == body[cursor + t.size..];
      var tail := Parse(d, rest[t.size..]);
      if tail.Some? {
        assert ([t.part] + tail.value)[1..] == tail.value;
      }
    }
  }

  /** Every slice is taken inside the body. */
  method LookAt(d: Delimiter, body: seq<byte>, at: nat) returns (t: Turn)
    requires Proper(d) && at <= |body|
    ensures t == Look(d, body[at..])
  {
    ghost var here := body[at..];
    var cursor := at;
    if cursor + |d.marker| > |body| || body[cursor..cursor + |d.marker|] != d.marker {
      return Broken;
    }
    assert d.marker <= here;
    cursor := cursor + |d.marker|;
    assert here[|d.marker|..] == body[cursor..];
    t := LookInside(d, body[cursor..]);
  }

  method LookInside(d: Delimiter, rest: seq<byte>) returns (t: Turn)
    requires Proper(d)
    ensures t == Look(d, d.marker + rest)
  {
    assert (d.marker + rest)[|d.marker|..] == rest;
    if |rest| >= 2 && rest[..2] == DASHES {
      return Last;
    }
    if |rest| < 2 || rest[..2] != CRLF {
      return Broken;
    }
    var h := FindBytes(rest[2..], BLANK);
    if h.None? {
      return Broken;
    }
    var data := rest[h.value + 6..];
    var e := FindBytes(data, d.next);
    if e.None? {
      return Broken;
    }
    t := Next(Part(rest[2..h.value + 2], data[..e.value]), |d.marker| + h.value + 6 + e.value + 2);
  }

  method Gather(d: Delimiter, k: Classifier, body: seq<byte>) returns (r: Option<Fields>)
    requires Proper(d)
    ensures r == From(d, k, body, 0, NOTHING)
  {
    var cursor, audio, model := 0, None, None;
    while true
      invariant cursor <= |body|
      invariant From(d, k, body, 0, NOTHING) == From(d, k, body, cursor, Fields(audio, model))
      decreases |body| - cursor
    {
      var t := LookAt(d, body, cursor);
      FromStep(d, k, body, cursor, Fields(audio, model), t);
      if t.Broken? {
        return None;
      }
      if t.Last? {
        return Some(Fields(audio, model));
      }
      var role := k(t.part.header);
      if role.None? || (role.value.File? && audio.Some?) || (role.value.Model? && model.Some?) {
        return None;
      }
      if role.value.File? {
        audio := Some(t.part.data);
      } else if role.value.Model? {
        model := Some(t.part.data);
      }
      cursor := cursor + t.size;
    }
  }

  /** A body made of parts that each header accepts, one of them the file and one the model. */
  ghost predicate IsUpload(d: Delimiter, k: Classifier, body: seq<byte>, parts: seq<Part>, epilogue: seq<byte>,
                           audio: seq<byte>, model: seq<byte>)
  {
    && AllGood(d, parts) && body == Encode(d, parts, epilogue)
    && AllClassified(k, parts)
    && Once(None, Having(k, parts, File), audio)
    && Once(None, Having(k, parts, Model), model)
  }

  lemma UploadSound(d: Delimiter, k: Classifier, body: seq<byte>, audio: seq<byte>, model: seq<byte>)
    returns (parts: seq<Part>, epilogue: seq<byte>)
    requires Proper(d) && From(d, k, body, 0, NOTHING) == Some(Fields(Some(audio), Some(model)))
    ensures IsUpload(d, k, body, parts, epilogue, audio, model)
  {
    assert body[0..] == body;
    parts := Parse(d, body).value;
    epilogue := EncodedParse(d, body);
    CollectExact(k, NOTHING, parts, audio, model);
  }

  lemma UploadComplete(d: Delimiter, k: Classifier, body: seq<byte>, parts: seq<Part>, epilogue: seq<byte>,
                       audio: seq<byte>, model: seq<byte>)
    requires Proper(d) && IsUpload(d, k, body, parts, epilogue, audio, model)
    ensures From(d, k, body, 0, NOTHING) == Some(Fields(Some(audio), Some(model)))
  {
    assert body[0..] == body;
    ParseOfEncoded(d, parts, epilogue);
    CollectExact(k, NOTHING, parts, audio, model);
  }

  /** The fields are found exactly in a body made of such parts. */
  lemma UploadExact(d: Delimiter, k: Classifier, body: seq<byte>, audio: seq<byte>, model: seq<byte>)
    requires Proper(d)
    ensures From(d, k, body, 0, NOTHING) == Some(Fields(Some(audio), Some(model))) <==>
            exists parts, epilogue :: IsUpload(d, k, body, parts, epilogue, audio, model)
  {
    if From(d, k, body, 0, NOTHING) == Some(Fields(Some(audio), Some(model))) {
      var parts, epilogue := UploadSound(d, k, body, audio, model);
    }
    forall parts, epilogue | IsUpload(d, k, body, parts, epilogue, audio, model)
      ensures From(d, k, body, 0, NOTHING) == Some(Fields(Some(audio), Some(model)))
    {
      UploadComplete(d, k, body, parts, epilogue, audio, model);
    }
  }

  // ----- when a part is good -----

  /** The delimiter has no carriage return but its first byte, so it cannot start inside the data. */
  lemma DataGood(d: Delimiter, data: seq<byte>)
    requires Proper(d) && 13 !in d.marker
    ensures FirstAt(data + d.next, d.next, |data|) <==> Absent(data, d.next)
  {
    var s := data + d.next;
    assert s[|data|..|data| + |d.next|] == d.next;
    forall j: nat | j < |data|
      ensures OccursAt(s, d.next, j) <==> OccursAt(data, d.next, j)
    {
      if j + |d.next| <= |data| {
        assert s[j..j + |d.next|] == data[j..j + |d.next|];
      } else {
        var i := |data| - j;
        assert s[j..j + |d.next|][i] == s[|data|] == 13;
        assert d.next[i] != 13;
      }
    }
    if Absent(data, d.next) {
      forall j: nat | j < |data|
        ensures !OccursAt(s, d.next, j)
      {
        assert !OccursAt(data, d.next, j);
      }
    }
  }

  lemma BlankAt(header: seq<byte>, j: nat)
    requires j < |header|
    ensures OccursAt(header + BLANK, BLANK, j) <==> OccursAt(header, BLANK, j) || (j + 2 == |header| && EndsInBreak(header))
  {
    var s := header + BLANK;
    var n := |header|;
    if j + 4 <= n {
      assert s[j..j + 4] == header[j..j + 4];
    } else if j + 2 == n {
      assert s[j..j + 4] == header[j..] + CRLF && BLANK == CRLF + CRLF;
      assert header[j..] == (header[j..] + CRLF)[..2] && CRLF == BLANK[..2];
    } else {
      assert s[j..j + 4][n - j] == s[n] == 13;
      assert BLANK[n - j] == 10;
    }
  }

  /** A header may hold neither a blank line nor a line break at its end. */
  lemma HeaderGood(header: seq<byte>)
    ensures FirstAt(header + BLANK, BLANK, |header|) <==> Absent(header, BLANK) && !EndsInBreak(header)
  {
    assert (header + BLANK)[|header|..|header| + 4] == BLANK;
    forall j: nat | j < |header|
      ensures OccursAt(header + BLANK, BLANK, j) <==> OccursAt(header, BLANK, j) || (j + 2 == |header| && EndsInBreak(header))
    {
      BlankAt(header, j);
    }
    if EndsInBreak(header) {
      var j: nat := |header| - 2;
      assert OccursAt(header + BLANK, BLANK, j);
    }
    if Absent(header, BLANK) && !EndsInBreak(header) {
      forall j: nat | j < |header|
        ensures !OccursAt(header + BLANK, BLANK, j)
      {
        assert !OccursAt(header, BLANK, j);
      }
    }
  }

  predicate EndsInBreak(header: seq<byte>)
  {
    |header| >= 2 && header[|header| - 2..] == CRLF
  }
}
