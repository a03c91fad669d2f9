/**
 The upload check as a whole: content type, multipart body, model field and WAVE file. It
 reports `n` samples exactly for the uploads that encode such a file.
 */
module Uploads {
  import opened Wrappers
  import opened Multipart
  import opened FormText
  import Wave
  import Endian

  const FILE_MODEL: seq<byte> := [102, 105, 108, 101, 45, 109, 111, 100, 101, 108]

  /** Header values are visible ASCII; anything else could only be replaced. */
  function Bytes(s: string): (r: seq<byte>)
    ensures |r| == |s|
    ensures '\r' !in s ==> 13 !in r
  {
    seq(|s|, i requires 0 <= i < |s| => if s[i] as int < 128 then s[i] as int else 63)
  }

  function DelimiterOf(boundary: string): (d: Delimiter)
    ensures Proper(d) && ('\r' !in boundary ==> 13 !in d.marker)
  {
    Delimiter(DASHES + Bytes(boundary), CRLF + (DASHES + Bytes(boundary)))
  }

  /** The file of an upload with the expected model field. */
  ghost function Audio(d: Delimiter, k: Classifier, body: seq<byte>): Option<seq<byte>>
    requires Proper(d)
  {
    var fields := From(d, k, body, 0, NOTHING);
    if fields.Some? && fields.value.model == Some(FILE_MODEL) then fields.value.audio else None
  }

  ghost function Accepted(white: White, k: Classifier, contentType: Option<string>, body: seq<byte>): Option<nat>
  {
    if contentType.None? then None
    else
      var boundary := Boundary(white, contentType.value);
      if boundary.None? then None
      else
        var audio := Audio(DelimiterOf(boundary.value), k, body);
        if audio.None? then None else Wave.Counted(Endian.Value, audio.value)
  }

  method UploadedSamples(white: White, k: Classifier, contentType: Option<string>,
                         body: seq<byte>) returns (r: Option<nat>)
    ensures r == Accepted(white, k, contentType, body)
  {
    r := None;
    if contentType.None? {
      return;
    }
    var boundary := Boundary(white, contentType.value);
    if boundary.None? {
      return;
    }
    var fields := Gather(DelimiterOf(boundary.value), k, body);
    if fields.None? || fields.value.model != Some(FILE_MODEL) || fields.value.audio.None? {
      return;
    }
    r := Wave.Samples(Endian.Value, fields.value.audio.value);
  }

  /** A body for `boundary` that carries `audio` as its only file, and that file as chunks. */
  ghost predicate Carries(d: Delimiter, k: Classifier, body: seq<byte>, audio: seq<byte>, n: nat)
  {
    && (exists parts, epilogue :: IsUpload(d, k, body, parts, epilogue, audio, FILE_MODEL))
    && (exists chunks :: Wave.IsWave(Endian.Value, audio, chunks, n))
  }

  /** `n` samples are reported exactly for an upload that carries a WAVE file with `n` samples. */
  lemma AcceptedExact(white: White, k: Classifier, contentType: string, body: seq<byte>, n: nat)
    ensures Accepted(white, k, Some(contentType), body) == Some(n) <==>
            var boundary := Boundary(white, contentType);
            boundary.Some? && exists audio :: Carries(DelimiterOf(boundary.value), k, body, audio, n)
  {
    var boundary := Boundary(white, contentType);
    if boundary.Some? {
      AudioExact(DelimiterOf(boundary.value), k, body, n);
    }
  }

  lemma AudioExact(d: Delimiter, k: Classifier, body: seq<byte>, n: nat)
    requires Proper(d)
    ensures (Audio(d, k, body).Some? && Wave.Counted(Endian.Value, Audio(d, k, body).value) == Some(n)) <==>
            exists audio :: Carries(d, k, body, audio, n)
  {
    var found := Audio(d, k, body);
    if found.Some? && Wave.Counted(Endian.Value, found.value) == Some(n) {
      UploadExact(d, k, body, found.value, FILE_MODEL);
      Wave.CountedExact(Endian.Value, found.value, n);
      assert Carries(d, k, body, found.value, n);
    }
    forall audio | Carries(d, k, body, audio, n)
      ensures found == Some(audio) && Wave.Counted(Endian.Value, audio) == Some(n)
    {
      UploadExact(d, k, body, audio, FILE_MODEL);
      Wave.CountedExact(Endian.Value, audio, n);
    }
  }

  // ----- forms as clients write them -----

  type Decoder = seq<byte> -> Option<string>

  type Encoder = string -> seq<byte>

  /** A form field: the lines of its header, in order, and its content. */
  datatype Field = Field(lines: seq<string>, data: seq<byte>)

  function HeaderText(f: Field): string
  {
    JoinOn(f.lines, "\r\n")
  }

  function PartOf(encode: Encoder, f: Field): Part
  {
    Part(encode(HeaderText(f)), f.data)
  }

  function PartsOf(encode: Encoder, fs: seq<Field>): (ps: seq<Part>)
    ensures |ps| == |fs|
  {
    if fs == [] then [] else [PartOf(encode, fs[0])] + PartsOf(encode, fs[1..])
  }

  /** The fields whose first disposition gives this name. */
  ghost function Named(white: White, fs: seq<Field>, name: string): seq<Field>
  {
    if fs == [] then []
    else (if ReadAs(white, fs[0].lines, name) then [fs[0]] else []) + Named(white, fs[1..], name)
  }

  /** Unbroken header lines without a blank one, and content without the delimiter. */
  ghost predicate Writable(encode: Encoder, d: Delimiter, f: Field)
  {
    && Unbroken(f.lines)
    && Absent(encode(HeaderText(f)), BLANK) && !EndsInBreak(encode(HeaderText(f)))
    && Absent(f.data, d.next)
  }

  ghost predicate AllWritable(encode: Encoder, d: Delimiter, fs: seq<Field>)
  {
    forall f {:trigger Writable(encode, d, f)} :: f in fs ==> Writable(encode, d, f)
  }

  /** Decoding undoes encoding, for every text. */
  ghost predicate Inverse(decode: Decoder, encode: Encoder)
  {
    forall s {:trigger encode(s)} :: decode(encode(s)) == Some(s)
  }

  /** `k` reads headers as the upload check does. */
  ghost predicate Reads(k: Classifier, decode: Decoder, white: White)
  {
    forall h {:trigger Classify(decode, white, h)} :: k(h) == Classify(decode, white, h)
  }

  /** The field is a good part: refused, or taken for a file or a model, exactly as its header says. */
  ghost predicate WellRead(white: White, encode: Encoder, k: Classifier, d: Delimiter, f: Field)
  {
    && Good(d, PartOf(encode, f))
    && (k(PartOf(encode, f).header).Some? <==> Disclosed(f.lines))
    && (k(PartOf(encode, f).header) == Some(File) <==> ReadAs(white, f.lines, "file"))
    && (k(PartOf(encode, f).header) == Some(Model) <==> ReadAs(white, f.lines, "model"))
  }

  ghost predicate AllWellRead(white: White, encode: Encoder, k: Classifier, d: Delimiter, fs: seq<Field>)
  {
    forall f {:trigger WellRead(white, encode, k, d, f)} :: f in fs ==> WellRead(white, encode, k, d, f)
  }

  lemma WrittenPart(white: White, decode: Decoder, encode: Encoder, k: Classifier, d: Delimiter, f: Field)
    requires Inverse(decode, encode) && Reads(k, decode, white) && Proper(d) && 13 !in d.marker && Writable(encode, d, f)
    ensures WellRead(white, encode, k, d, f)
  {
    var text := HeaderText(f);
    HeaderGood(encode(text));
    DataGood(d, f.data);
    LinesOfJoin(f.lines);
    RoleExact(white, text);
    assert Classify(decode, white, encode(text)) == RoleOfText(white, text);
  }

  lemma WrittenParts(white: White, decode: Decoder, encode: Encoder, k: Classifier, d: Delimiter, fs: seq<Field>)
    requires Inverse(decode, encode) && Reads(k, decode, white) && Proper(d) && 13 !in d.marker && AllWritable(encode, d, fs)
    ensures AllWellRead(white, encode, k, d, fs)
  {
    forall f | f in fs
      ensures WellRead(white, encode, k, d, f)
    {
      assert Writable(encode, d, f);
      WrittenPart(white, decode, encode, k, d, f);
    }
  }

  lemma Rest(white: White, encode: Encoder, k: Classifier, d: Delimiter, fs: seq<Field>)
    requires fs != [] && AllWellRead(white, encode, k, d, fs)
    ensures WellRead(white, encode, k, d, fs[0]) && AllWellRead(white, encode, k, d, fs[1..])
  {
    forall f | f in fs[1..]
      ensures WellRead(white, encode, k, d, f)
    {
      assert f in fs;
    }
    assert fs[0] in fs;
  }

  ghost predicate AllDisclosed(fs: seq<Field>)
  {
    forall f {:trigger Disclosed(f.lines)} :: f in fs ==> Disclosed(f.lines)
  }

  lemma DisclosedCons(fs: seq<Field>)
    requires fs != []
    ensures AllDisclosed(fs) <==> Disclosed(fs[0].lines) && AllDisclosed(fs[1..])
  {
    assert fs == [fs[0]] + fs[1..];
    assert forall f :: f in fs <==> f == fs[0] || f in fs[1..];
  }

  lemma {:induction false} ReadParts(white: White, encode: Encoder, k: Classifier, d: Delimiter, fs: seq<Field>)
    requires AllWellRead(white, encode, k, d, fs)
    ensures AllGood(d, PartsOf(encode, fs)) && (AllClassified(k, PartsOf(encode, fs)) <==> AllDisclosed(fs))
  {
    if fs != [] {
      Rest(white, encode, k, d, fs);
      ReadParts(white, encode, k, d, fs[1..]);
      var ps := PartsOf(encode, fs);
      assert ps[1..] == PartsOf(encode, fs[1..]);
      ClassifiedCons(k, ps);
      DisclosedCons(fs);
    }
  }

  /** The role under which the check looks for a name. */
  predicate Sought(name: string, role: Role)
  {
    (name == "file" && role == File) || (name == "model" && role == Model)
  }

  lemma {:induction false} HavingNamed(white: White, encode: Encoder, k: Classifier, d: Delimiter, fs: seq<Field>,
                                       name: string, role: Role)
    requires AllWellRead(white, encode, k, d, fs) && Sought(name, role)
    ensures Having(k, PartsOf(encode, fs), role) == PartsOf(encode, Named(white, fs, name))
  {
    if fs != [] {
      Rest(white, encode, k, d, fs);
      HavingNamed(white, encode, k, d, fs[1..], name, role);
      assert PartsOf(encode, fs)[1..] == PartsOf(encode, fs[1..]);
      if ReadAs(white, fs[0].lines, name) {
        assert Named(white, fs, name)[1..] == Named(white, fs[1..], name);
      } else {
        assert Named(white, fs, name) == Named(white, fs[1..], name);
      }
    }
  }

  /** A disposition everywhere, one file field with a WAVE file of `n` samples and one model field with the expected model. */
  ghost predicate Complete(white: White, fs: seq<Field>, n: nat)
  {
    && AllDisclosed(fs)
    && |Named(white, fs, "file")| == 1 && (exists chunks :: Wave.IsWave(Endian.Value, Named(white, fs, "file")[0].data, chunks, n))
    && |Named(white, fs, "model")| == 1 && Named(white, fs, "model")[0].data == FILE_MODEL
  }

  lemma FormCarries(white: White, encode: Encoder, k: Classifier, d: Delimiter, fs: seq<Field>, epilogue: seq<byte>,
                    n: nat)
    requires AllWellRead(white, encode, k, d, fs) && Complete(white, fs, n)
    ensures exists audio :: Carries(d, k, Encode(d, PartsOf(encode, fs), epilogue), audio, n)
  {
    var audio := Named(white, fs, "file")[0].data;
    var body := Encode(d, PartsOf(encode, fs), epilogue);
    ReadParts(white, encode, k, d, fs);
    HavingNamed(white, encode, k, d, fs, "file", File);
    HavingNamed(white, encode, k, d, fs, "model", Model);
    assert IsUpload(d, k, body, PartsOf(encode, fs), epilogue, audio, FILE_MODEL);
    assert Carries(d, k, body, audio, n);
  }

  /**
   A form sent under any content type that declares its boundary is accepted with `n` exactly
   when one field is read as the file, a WAVE file of `n` samples, and one as the expected model,
   among any other fields and in any order.
   */
  lemma FormAccepted(white: White, decode: Decoder, encode: Encoder, k: Classifier, contentType: string,
                     boundary: string,
                     fs: seq<Field>, epilogue: seq<byte>, n: nat)
    requires Inverse(decode, encode) && Reads(k, decode, white)
    requires Declares(white, SplitOn(contentType, ';'), boundary) && AllWritable(encode, DelimiterOf(boundary), fs)
    ensures Accepted(white, k, Some(contentType), Encode(DelimiterOf(boundary), PartsOf(encode, fs), epilogue)) == Some(n) <==>
            Complete(white, fs, n)
  {
    var d := DelimiterOf(boundary);
    BoundaryExact(white, contentType, boundary);
    WrittenParts(white, decode, encode, k, d, fs);
    var body := Encode(d, PartsOf(encode, fs), epilogue);
    AcceptedExact(white, k, contentType, body, n);
    if Complete(white, fs, n) {
      FormCarries(white, encode, k, d, fs, epilogue, n);
    }
    if exists audio :: Carries(d, k, body, audio, n) {
      CarriedForm(white, encode, k, d, fs, epilogue, n);
    }
  }

  lemma CarriedForm(white: White, encode: Encoder, k: Classifier, d: Delimiter, fs: seq<Field>, epilogue: seq<byte>,
                    n: nat)
    requires Proper(d) && AllWellRead(white, encode, k, d, fs)
    requires exists audio :: Carries(d, k, Encode(d, PartsOf(encode, fs), epilogue), audio, n)
    ensures Complete(white, fs, n)
  {
    var body := Encode(d, PartsOf(encode, fs), epilogue);
    var audio :| Carries(d, k, body, audio, n);
    var parts, end :| IsUpload(d, k, body, parts, end, audio, FILE_MODEL);
    ReadParts(white, encode, k, d, fs);
    ParseOfEncoded(d, parts, end);
    ParseOfEncoded(d, PartsOf(encode, fs), epilogue);
    HavingNamed(white, encode, k, d, fs, "file", File);
    HavingNamed(white, encode, k, d, fs, "model", Model);
    OneField(encode, Named(white, fs, "file"), audio);
    OneField(encode, Named(white, fs, "model"), FILE_MODEL);
  }

  lemma {:induction false} OneField(encode: Encoder, fs: seq<Field>, data: seq<byte>)
    requires Once(None, PartsOf(encode, fs), data)
    ensures |fs| == 1 && fs[0].data == data
  {
  }
}
