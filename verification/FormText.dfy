/**
 The text level of an upload: the boundary in a content type and the field name in a part's
 header. UTF-8 decoding and the set of white-space characters are parameters.
 */
module FormText {
  import opened Wrappers
  import opened Multipart

  type White = char -> bool

  function SplitOn(s: string, sep: char): (pieces: seq<string>)
    ensures |pieces| >= 1
  {
    if s == "" then [""]
    else
      var rest := SplitOn(s[1..], sep);
      if s[0] == sep then [""] + rest else [[s[0]] + rest[0]] + rest[1..]
  }

  function TrimStart(white: White, s: string): string
  {
    if s != "" && white(s[0]) then TrimStart(white, s[1..]) else s
  }

  function TrimEnd(white: White, s: string): string
  {
    if s != "" && white(s[|s| - 1]) then TrimEnd(white, s[..|s| - 1]) else s
  }

  function Trim(white: White, s: string): string
  {
    TrimEnd(white, TrimStart(white, s))
  }

  function StripPrefix(s: string, prefix: string): Option<string>
  {
    if prefix <= s then Some(s[|prefix|..]) else None
  }

  function LowerChar(c: char): char
  {
    if 'A' <= c <= 'Z' then c + ('a' - 'A') else c
  }

  function Lower(s: string): (r: string)
    ensures |r| == |s|
  {
    seq(|s|, i requires 0 <= i < |s| => LowerChar(s[i]))
  }

  /** The first piece that, trimmed, starts with `prefix`: what follows the prefix. */
  function FindMap(white: White, pieces: seq<string>, prefix: string): Option<string>
  {
    if pieces == [] then None
    else
      var found := StripPrefix(Trim(white, pieces[0]), prefix);
      if found.Some? then found else FindMap(white, pieces[1..], prefix)
  }

  function Boundary(white: White, contentType: string): Option<string>
  {
    var pieces := SplitOn(contentType, ';');
    if Lower(Trim(white, pieces[0])) != "multipart/form-data" then None
    else
      var value := FindMap(white, pieces[1..], "boundary=");
      if value.None? then None
      else
        var boundary := Trim(c => c == '"', value.value);
        if boundary == "" || |boundary| > 200 || '\r' in boundary || '\n' in boundary then None else Some(boundary)
  }

  /** Lines end at a newline, with the carriage return before it dropped. */
  function Lines(text: string): seq<string>
    decreases |text|
  {
    if text == "" then []
    else
      var line := SplitOn(text, '\n')[0];
      if |line| >= |text| then [text]
      else [DropReturn(line)] + Lines(text[|line| + 1..])
  }

  function DropReturn(line: string): string
  {
    if line != "" && line[|line| - 1] == '\r' then line[..|line| - 1] else line
  }

  function FindLine(lines: seq<string>, prefix: string): Option<string>
  {
    if lines == [] then None
    else if prefix <= Lower(lines[0]) then Some(lines[0])
    else FindLine(lines[1..], prefix)
  }

  function FieldName(white: White, disposition: string): Option<string>
  {
    var value := FindMap(white, SplitOn(disposition, ';'), "name=\"");
    if value.None? || value.value == "" || value.value[|value.value| - 1] != '"' then None
    else Some(value.value[..|value.value| - 1])
  }

  function RoleOf(field: Option<string>): Role
  {
    if field == Some("file") then File else if field == Some("model") then Model else Other
  }

  function RoleOfText(white: White, text: string): Option<Role>
  {
    var line := FindLine(Lines(text), "content-disposition:");
    if line.None? then None else Some(RoleOf(FieldName(white, line.value)))
  }

  /** Headers that are not UTF-8 or have no disposition reject the upload. */
  function Classify(decode: seq<byte> -> Option<string>, white: White, header: seq<byte>): Option<Role>
  {
    var text := decode(header);
    if text.None? then None else RoleOfText(white, text.value)
  }

  // ----- what the searches mean -----

  predicate Starts(white: White, piece: string, prefix: string)
  {
    prefix <= Trim(white, piece)
  }

  /** The first piece that starts with `prefix` is the one at `i`, and it goes on with `v`. */
  predicate Selects(white: White, pieces: seq<string>, prefix: string, i: nat, v: string)
  {
    && i < |pieces| && Trim(white, pieces[i]) == prefix + v
    && forall j :: 0 <= j < i ==> !Starts(white, pieces[j], prefix)
  }

  lemma {:induction false} FindMapExact(white: White, pieces: seq<string>, prefix: string)
    ensures forall v :: FindMap(white, pieces, prefix) == Some(v) <==> exists i: nat :: Selects(white, pieces, prefix, i, v)
    ensures FindMap(white, pieces, prefix) == None <==> forall j :: 0 <= j < |pieces| ==> !Starts(white, pieces[j], prefix)
  {
    if pieces != [] {
      var rest := pieces[1..];
      FindMapExact(white, rest, prefix);
      var trimmed := Trim(white, pieces[0]);
      forall v
        ensures FindMap(white, pieces, prefix) == Some(v) <==> exists i: nat :: Selects(white, pieces, prefix, i, v)
      {
        SelectsCons(white, pieces, prefix, v);
      }
    }
  }

  lemma SelectsCons(white: White, pieces: seq<string>, prefix: string, v: string)
    requires pieces != []
    ensures (exists i: nat :: Selects(white, pieces, prefix, i, v)) <==>
            if Starts(white, pieces[0], prefix) then StripPrefix(Trim(white, pieces[0]), prefix) == Some(v)
            else exists i: nat :: Selects(white, pieces[1..], prefix, i, v)
  {
    var rest := pieces[1..];
    assert forall j :: 0 <= j < |rest| ==> rest[j] == pieces[j + 1];
    if Starts(white, pieces[0], prefix) {
      var trimmed := Trim(white, pieces[0]);
      assert trimmed == prefix + trimmed[|prefix|..];
      if trimmed[|prefix|..] == v {
        assert Selects(white, pieces, prefix, 0, v);
      }
    } else {
      if exists i: nat :: Selects(white, pieces, prefix, i, v) {
        var i: nat :| Selects(white, pieces, prefix, i, v);
        assert i > 0;
        assert rest[i - 1] == pieces[i] && Selects(white, rest, prefix, i - 1, v);
      }
      if exists i: nat :: Selects(white, rest, prefix, i, v) {
        var i: nat :| Selects(white, rest, prefix, i, v);
        assert rest[i] == pieces[i + 1] && Selects(white, pieces, prefix, i + 1, v);
      }
    }
  }

  const DISPOSITION := "content-disposition:"

  /** Line `i` is the first content disposition, in any letter case. */
  predicate Discloses(lines: seq<string>, i: nat)
  {
    i < |lines| && DISPOSITION <= Lower(lines[i]) && forall j :: 0 <= j < i ==> !(DISPOSITION <= Lower(lines[j]))
  }

  ghost predicate Disclosed(lines: seq<string>)
  {
    exists i: nat :: Discloses(lines, i)
  }

  lemma {:induction false} FindLineExact(lines: seq<string>)
    ensures FindLine(lines, DISPOSITION).Some? ==> exists i: nat :: Discloses(lines, i) && FindLine(lines, DISPOSITION) == Some(lines[i])
    ensures FindLine(lines, DISPOSITION).None? ==> forall i: nat :: !Discloses(lines, i)
  {
    if lines != [] {
      var rest := lines[1..];
      FindLineExact(rest);
      assert forall j :: 0 <= j < |rest| ==> rest[j] == lines[j + 1];
      if DISPOSITION <= Lower(lines[0]) {
        assert Discloses(lines, 0);
      } else {
        if FindLine(rest, DISPOSITION).Some? {
          var i: nat :| Discloses(rest, i) && FindLine(rest, DISPOSITION) == Some(rest[i]);
          assert Discloses(lines, i + 1);
        } else {
          forall i: nat
            ensures !Discloses(lines, i)
          {
            if i > 0 {
              assert !Discloses(rest, i - 1);
            }
          }
        }
      }
    }
  }

  /** The first parameter that opens with `name="` is exactly `name="..."` with this name. */
  ghost predicate Names(white: White, line: string, name: string)
  {
    exists i: nat :: Selects(white, SplitOn(line, ';'), "name=\"", i, name + "\"")
  }

  /** The first disposition of a header names the field. */
  ghost predicate ReadAs(white: White, lines: seq<string>, name: string)
  {
    exists i: nat :: Discloses(lines, i) && Names(white, lines[i], name)
  }

  lemma FieldNameExact(white: White, line: string, name: string)
    ensures FieldName(white, line) == Some(name) <==> Names(white, line, name)
  {
    var pieces := SplitOn(line, ';');
    FindMapExact(white, pieces, "name=\"");
    var value := FindMap(white, pieces, "name=\"");
    if FieldName(white, line) == Some(name) {
      assert value.value == name + "\"";
    }
    if Names(white, line, name) {
      assert value == Some(name + "\"");
      assert (name + "\"")[..|name|] == name;
    }
  }

  lemma DisclosesOnce(lines: seq<string>, i: nat, j: nat)
    requires Discloses(lines, i) && Discloses(lines, j)
    ensures i == j
  {
  }

  /** A header counts as a field exactly when its first disposition names it so; without one it is refused. */
  lemma RoleExact(white: White, text: string)
    ensures RoleOfText(white, text) == None <==> !Disclosed(Lines(text))
    ensures RoleOfText(white, text) == Some(File) <==> ReadAs(white, Lines(text), "file")
    ensures RoleOfText(white, text) == Some(Model) <==> ReadAs(white, Lines(text), "model")
  {
    var lines := Lines(text);
    FindLineExact(lines);
    var line := FindLine(lines, DISPOSITION);
    if line.Some? {
      var i: nat :| Discloses(lines, i) && line == Some(lines[i]);
      FieldNameExact(white, lines[i], "file");
      FieldNameExact(white, lines[i], "model");
      forall j | Discloses(lines, j)
        ensures j == i
      {
        DisclosesOnce(lines, i, j);
      }
    }
  }

  // ----- writing headers and content types -----

  function JoinOn(pieces: seq<string>, sep: string): string
  {
    if pieces == [] then ""
    else if |pieces| == 1 then pieces[0]
    else pieces[0] + sep + JoinOn(pieces[1..], sep)
  }

  predicate Free(pieces: seq<string>, c: char)
  {
    forall i :: 0 <= i < |pieces| ==> c !in pieces[i]
  }

  lemma {:induction false} SplitFirst(a: string, sep: char, b: string)
    requires sep !in a
    ensures SplitOn(a + [sep] + b, sep) == [a] + SplitOn(b, sep)
  {
    var s := a + [sep] + b;
    if a == "" {
      assert s[1..] == b;
    } else {
      assert s[1..] == a[1..] + [sep] + b;
      SplitFirst(a[1..], sep, b);
      assert a == [a[0]] + a[1..];
    }
  }

  lemma {:induction false} SplitNone(a: string, sep: char)
    requires sep !in a
    ensures SplitOn(a, sep) == [a]
  {
    if a != "" {
      SplitNone(a[1..], sep);
      assert a == [a[0]] + a[1..];
    }
  }

  lemma {:induction false} SplitOfJoin(pieces: seq<string>, sep: char)
    requires pieces != [] && Free(pieces, sep)
    ensures SplitOn(JoinOn(pieces, [sep]), sep) == pieces
  {
    if |pieces| == 1 {
      SplitNone(pieces[0], sep);
    } else {
      SplitOfJoin(pieces[1..], sep);
      SplitFirst(pieces[0], sep, JoinOn(pieces[1..], [sep]));
      assert pieces == [pieces[0]] + pieces[1..];
    }
  }

  predicate AllWhite(white: White, s: string)
  {
    forall i :: 0 <= i < |s| ==> white(s[i])
  }

  lemma {:induction false} TrimLead(white: White, lead: string, core: string)
    requires AllWhite(white, lead) && core != "" && !white(core[0])
    ensures TrimStart(white, lead + core) == core
  {
    if lead == "" {
      assert lead + core == core;
    } else {
      assert (lead + core)[1..] == lead[1..] + core;
      TrimLead(white, lead[1..], core);
    }
  }

  lemma {:induction false} TrimTrail(white: White, core: string, trail: string)
    requires AllWhite(white, trail) && core != "" && !white(core[|core| - 1])
    ensures TrimEnd(white, core + trail) == core
    decreases |trail|
  {
    if trail == "" {
      assert core + trail == core;
    } else {
      var s := core + trail;
      assert s[..|s| - 1] == core + trail[..|trail| - 1];
      TrimTrail(white, core, trail[..|trail| - 1]);
    }
  }

  lemma TrimAround(white: White, lead: string, core: string, trail: string)
    requires AllWhite(white, lead) && AllWhite(white, trail)
    requires core != "" && !white(core[0]) && !white(core[|core| - 1])
    ensures Trim(white, lead + core + trail) == core
  {
    assert lead + core + trail == lead + (core + trail);
    TrimLead(white, lead, core + trail);
    TrimTrail(white, core, trail);
  }

  /** What white space does not include, whatever else it is. */
  predicate Usual(white: White)
  {
    !white('b') && !white('n') && !white('c') && !white('C') && !white('"')
  }

  function Parameter(lead: string, prefix: string, value: string, trail: string): string
  {
    lead + (prefix + value) + trail
  }

  /** The list up to and with one parameter, none of those before it opening like it. */
  lemma ParameterSelected(white: White, before: seq<string>, lead: string, prefix: string, value: string,
                          trail: string, after: seq<string>)
    requires AllWhite(white, lead) && AllWhite(white, trail)
    requires prefix != "" && value != "" && !white(prefix[0]) && !white(value[|value| - 1])
    requires forall j :: 0 <= j < |before| ==> !Starts(white, before[j], prefix)
    ensures Selects(white, before + [Parameter(lead, prefix, value, trail)] + after, prefix, |before|, value)
  {
    var pieces := before + [Parameter(lead, prefix, value, trail)] + after;
    var core := prefix + value;
    assert core[0] == prefix[0] && core[|core| - 1] == value[|value| - 1];
    TrimAround(white, lead, core, trail);
    assert pieces[|before|] == Parameter(lead, prefix, value, trail);
    assert forall j :: 0 <= j < |before| ==> pieces[j] == before[j];
  }

  /** A disposition line: its type, parameters before the name, the quoted name, and further parameters. */
  datatype Line = Line(head: string, before: seq<string>, lead: string, name: string, trail: string, after: seq<string>)

  function PiecesOf(l: Line): seq<string>
  {
    [l.head] + l.before + [Parameter(l.lead, "name=\"", l.name + "\"", l.trail)] + l.after
  }

  function TextOf(l: Line): string
  {
    JoinOn(PiecesOf(l), ";")
  }

  /** The header name in any case, and the name parameter quoted and lower case before any other like it. */
  predicate WellWritten(white: White, l: Line)
  {
    && DISPOSITION <= Lower(l.head) && Free(PiecesOf(l), ';')
    && AllWhite(white, l.lead) && AllWhite(white, l.trail)
    && forall j :: 0 <= j < |l.before| ==> !Starts(white, l.before[j], "name=\"")
  }

  lemma HeadIsNoName(white: White, head: string)
    requires Usual(white) && DISPOSITION <= Lower(head)
    ensures !Starts(white, head, "name=\"")
  {
    assert Lower(head)[0] == 'c';
    assert head[0] == 'c' || head[0] == 'C';
    assert TrimStart(white, head) == head;
    TrimEndKeepsFirst(white, head);
  }

  lemma {:induction false} TrimEndKeepsFirst(white: White, s: string)
    ensures TrimEnd(white, s) == "" || TrimEnd(white, s)[0] == s[0]
  {
    if s != "" && white(s[|s| - 1]) {
      TrimEndKeepsFirst(white, s[..|s| - 1]);
    }
  }

  lemma {:induction false} JoinStarts(pieces: seq<string>, sep: string, prefix: string)
    requires pieces != [] && prefix <= Lower(pieces[0])
    ensures prefix <= Lower(JoinOn(pieces, sep))
  {
    var s := JoinOn(pieces, sep);
    assert forall i :: 0 <= i < |pieces[0]| ==> s[i] == pieces[0][i];
    assert Lower(s)[..|prefix|] == Lower(pieces[0])[..|prefix|];
  }

  /** Any such line is a disposition that names its field. */
  lemma LineNames(white: White, l: Line)
    requires Usual(white) && WellWritten(white, l)
    ensures DISPOSITION <= Lower(TextOf(l)) && Names(white, TextOf(l), l.name)
  {
    var before := [l.head] + l.before;
    HeadIsNoName(white, l.head);
    assert forall j :: 0 < j < |before| ==> before[j] == l.before[j - 1];
    ParameterSelected(white, before, l.lead, "name=\"", l.name + "\"", l.trail, l.after);
    SplitOfJoin(PiecesOf(l), ';');
    JoinStarts(PiecesOf(l), ";", DISPOSITION);
  }

  /** Header lines with none of them broken inside and the last not empty. */
  predicate Unbroken(lines: seq<string>)
  {
    lines != [] && Free(lines, '\n') && lines[|lines| - 1] != ""
  }

  lemma {:induction false} LinesOfJoin(lines: seq<string>)
    requires Unbroken(lines)
    ensures Lines(JoinOn(lines, "\r\n")) == lines
  {
    var text := JoinOn(lines, "\r\n");
    if |lines| == 1 {
      SplitNone(lines[0], '\n');
    } else {
      var whole, rest := lines[0] + "\r", JoinOn(lines[1..], "\r\n");
      LinesOfJoin(lines[1..]);
      assert text == whole + ['\n'] + rest;
      SplitFirst(whole, '\n', rest);
      LinesStep(text, whole, rest);
      assert lines == [lines[0]] + lines[1..];
    }
  }

  lemma LinesStep(text: string, whole: string, rest: string)
    requires text == whole + ['\n'] + rest && SplitOn(text, '\n')[0] == whole
    ensures Lines(text) == [DropReturn(whole)] + Lines(rest)
  {
    assert text[|whole| + 1..] == rest;
  }

  /** A header with such a line, behind any lines that are no dispositions, is read as that field. */
  lemma NamedPart(white: White, above: seq<string>, l: Line, below: seq<string>)
    requires Usual(white) && WellWritten(white, l) && Unbroken(above + [TextOf(l)] + below)
    requires forall j :: 0 <= j < |above| ==> !(DISPOSITION <= Lower(above[j]))
    ensures ReadAs(white, above + [TextOf(l)] + below, l.name)
    ensures RoleOfText(white, JoinOn(above + [TextOf(l)] + below, "\r\n")) == Some(RoleOf(Some(l.name)))
  {
    var lines := above + [TextOf(l)] + below;
    LinesOfJoin(lines);
    LineNames(white, l);
    assert lines[|above|] == TextOf(l) && Discloses(lines, |above|);
    FindLineExact(lines);
    var i: nat :| Discloses(lines, i) && FindLine(lines, DISPOSITION) == Some(lines[i]);
    DisclosesOnce(lines, i, |above|);
    FieldNameExact(white, TextOf(l), l.name);
  }

  /** Without a parameter that opens with `name="` the first disposition names nothing. */
  lemma UnnamedPart(white: White, lines: seq<string>, i: nat)
    requires Unbroken(lines) && Discloses(lines, i)
    requires forall j :: 0 <= j < |SplitOn(lines[i], ';')| ==> !Starts(white, SplitOn(lines[i], ';')[j], "name=\"")
    ensures RoleOfText(white, JoinOn(lines, "\r\n")) == Some(Other)
  {
    LinesOfJoin(lines);
    FindLineExact(lines);
    var k: nat :| Discloses(lines, k) && FindLine(lines, DISPOSITION) == Some(lines[k]);
    DisclosesOnce(lines, i, k);
    FindMapExact(white, SplitOn(lines[i], ';'), "name=\"");
  }

  lemma HeadDiscloses(head: string, second: string, rest: seq<string>)
    requires DISPOSITION <= Lower(head) && ';' !in head && ';' !in second
    ensures SplitOn(JoinOn([head, second], ";"), ';') == [head, second]
    ensures Discloses([JoinOn([head, second], ";")] + rest, 0)
  {
    SplitOfJoin([head, second], ';');
    JoinStarts([head, second], ";", DISPOSITION);
  }

  lemma TokenIsNoName(white: White, name: string)
    requires Usual(white) && white(' ') && name != "" && name[0] != '"' && !white(name[|name| - 1])
    ensures !Starts(white, " name=" + name, "name=\"")
  {
    var core := "name=" + name;
    TrimAround(white, " ", core, "");
    assert " " + core + "" == " name=" + name;
    assert core[5] != '"';
  }

  /** A name written as a bare token, which RFC 2183 allows, is not recognised. */
  lemma TokenName(white: White, head: string, name: string)
    requires Usual(white) && white(' ') && name != "" && name[0] != '"' && !white(name[|name| - 1])
    requires DISPOSITION <= Lower(head) && ';' !in head && '\n' !in head && ';' !in name && '\n' !in name
    ensures RoleOfText(white, JoinOn([JoinOn([head, " name=" + name], ";")], "\r\n")) == Some(Other)
  {
    var line := JoinOn([head, " name=" + name], ";");
    HeadDiscloses(head, " name=" + name, []);
    HeadIsNoName(white, head);
    TokenIsNoName(white, name);
    assert [line] + [] == [line];
    UnnamedPart(white, [line], 0);
  }

  /** A disposition folded before its name, as RFC 5322 allows, is not recognised either. */
  lemma FoldedName(white: White, head: string, name: string)
    requires Usual(white) && '\n' !in name
    requires DISPOSITION <= Lower(head) && ';' !in head && '\n' !in head
    ensures RoleOfText(white, JoinOn([JoinOn([head, ""], ";"), " name=\"" + name + "\""], "\r\n")) == Some(Other)
  {
    var line, second := JoinOn([head, ""], ";"), " name=\"" + name + "\"";
    HeadDiscloses(head, "", [second]);
    HeadIsNoName(white, head);
    assert [line] + [second] == [line, second];
    UnnamedPart(white, [line, second], 0);
  }

  /** The plain header of a form field is among those heads. */
  lemma FormData()
    ensures DISPOSITION <= Lower("Content-Disposition: form-data")
  {
    var head := "Content-Disposition: form-data";
    assert head[..20] == "Content-Disposition:";
    assert Lower(head)[..20] == Lower(head[..20]);
    assert Lower("Content-Disposition:") == DISPOSITION;
  }

  // ----- content types -----

  const MULTIPART := "multipart/form-data"

  predicate Sendable(b: string)
  {
    0 < |b| <= 200 && '\r' !in b && '\n' !in b
  }

  function Unquoted(value: string): string
  {
    Trim(c => c == '"', value)
  }

  /** The first piece is the media type in any case, and the first boundary parameter holds `b`, quoted or not. */
  ghost predicate Declares(white: White, pieces: seq<string>, b: string)
  {
    && pieces != [] && Lower(Trim(white, pieces[0])) == MULTIPART && Sendable(b)
    && exists i: nat, v :: Selects(white, pieces[1..], "boundary=", i, v) && Unquoted(v) == b
  }

  lemma BoundaryExact(white: White, contentType: string, b: string)
    ensures Boundary(white, contentType) == Some(b) <==> Declares(white, SplitOn(contentType, ';'), b)
  {
    var pieces := SplitOn(contentType, ';');
    FindMapExact(white, pieces[1..], "boundary=");
    var value := FindMap(white, pieces[1..], "boundary=");
    if Boundary(white, contentType) == Some(b) {
      var i: nat :| Selects(white, pieces[1..], "boundary=", i, value.value);
    }
    if Declares(white, pieces, b) {
      var i: nat, v :| Selects(white, pieces[1..], "boundary=", i, v) && Unquoted(v) == b;
      assert value == Some(v);
    }
  }

  /** A media type, parameters before the boundary, the boundary quoted or not, and further parameters. */
  datatype ContentType = ContentType(media: string, before: seq<string>, lead: string, boundary: string,
                                     quoted: bool, trail: string, after: seq<string>)

  function Value(c: ContentType): string
  {
    if c.quoted then "\"" + c.boundary + "\"" else c.boundary
  }

  function TypePieces(c: ContentType): seq<string>
  {
    [c.media] + (c.before + [Parameter(c.lead, "boundary=", Value(c), c.trail)] + c.after)
  }

  function TypeText(c: ContentType): string
  {
    JoinOn(TypePieces(c), ";")
  }

  predicate TypeWritten(white: White, c: ContentType)
  {
    && Lower(Trim(white, c.media)) == MULTIPART && Free(TypePieces(c), ';') && Sendable(c.boundary)
    && c.boundary[0] != '"' && c.boundary[|c.boundary| - 1] != '"'
    && (c.quoted || !white(c.boundary[|c.boundary| - 1]))
    && AllWhite(white, c.lead) && AllWhite(white, c.trail)
    && forall j :: 0 <= j < |c.before| ==> !Starts(white, c.before[j], "boundary=")
  }

  lemma UnquotedValue(c: ContentType)
    requires c.boundary != "" && c.boundary[0] != '"' && c.boundary[|c.boundary| - 1] != '"'
    ensures Unquoted(Value(c)) == c.boundary
  {
    var quote := (x: char) => x == '"';
    var mark := if c.quoted then "\"" else "";
    assert Value(c) == mark + c.boundary + mark;
    TrimAround(quote, mark, c.boundary, mark);
  }

  /** Every such content type yields its boundary. */
  lemma BoundaryFound(white: White, c: ContentType)
    requires Usual(white) && TypeWritten(white, c)
    ensures Declares(white, SplitOn(TypeText(c), ';'), c.boundary)
    ensures Boundary(white, TypeText(c)) == Some(c.boundary)
  {
    var pieces := TypePieces(c);
    SplitOfJoin(pieces, ';');
    ParameterSelected(white, c.before, c.lead, "boundary=", Value(c), c.trail, c.after);
    UnquotedValue(c);
    assert pieces[1..] == c.before + [Parameter(c.lead, "boundary=", Value(c), c.trail)] + c.after;
    assert Declares(white, pieces, c.boundary);
    BoundaryExact(white, TypeText(c), c.boundary);
  }
}
