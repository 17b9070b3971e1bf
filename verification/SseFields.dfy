// The text of one SSE frame: the field parser, the frame writer, and when the one undoes the other.
module SseFields {
  import opened Wrappers
  import opened Texts

  datatype SseEvent = SseEvent(event: Option<string>, data: string, id: Option<string>)

  /** What `str.splitlines` splits at. */
  predicate IsBoundary(c: char) {
    var n := c as int;
    (10 <= n <= 13) || (28 <= n <= 30) || n == 0x85 || n == 0x2028 || n == 0x2029
  }

  predicate OneLine(s: string) {
    forall i | 0 <= i < |s| :: !IsBoundary(s[i])
  }

  function FirstBoundary(s: string): (k: nat)
    ensures k <= |s| && (forall i | 0 <= i < k :: !IsBoundary(s[i])) && (k < |s| ==> IsBoundary(s[k]))
  {
    if s == "" || IsBoundary(s[0]) then 0 else 1 + FirstBoundary(s[1..])
  }

  /** `splitlines`: CR LF is one boundary, and a final boundary opens no further line. */
  function SplitLines(s: string): seq<string>
    decreases |s|
  {
    var k := FirstBoundary(s);
    if s == "" then []
    else if k == |s| then [s]
    else if s[k] == '\r' && k + 1 < |s| && s[k + 1] == '\n' then [s[..k]] + SplitLines(s[k + 2..])
    else [s[..k]] + SplitLines(s[k + 1..])
  }

  /** A text without a boundary is one line, and otherwise the first boundary, CR LF being one, ends the first line. */
  lemma SplitsAtBoundaries(line: string, boundary: string, rest: string)
    requires OneLine(line)
    requires boundary == "\r\n" || (|boundary| == 1 && IsBoundary(boundary[0]) && !(boundary == "\r" && rest != "" && rest[0] == '\n'))
    ensures SplitLines(line) == if line == "" then [] else [line]
    ensures SplitLines(line + boundary + rest) == [line] + SplitLines(rest)
  {
    var s := line + boundary + rest;
    var k := FirstBoundary(s);
    assert s[|line|] == boundary[0] && IsBoundary(s[|line|]);
    assert k == |line| by {
      assert forall i | 0 <= i < |line| :: s[i] == line[i];
    }
    assert s[..k] == line && s[k + |boundary|..] == rest;
  }

  /** The boundaries of `str.splitlines`. */
  lemma BoundariesAre(c: char)
    ensures IsBoundary(c) <==> c as int in {0x0a, 0x0b, 0x0c, 0x0d, 0x1c, 0x1d, 0x1e, 0x85, 0x2028, 0x2029}
  {
  }

  function JoinLf(lines: seq<string>): string {
    if |lines| == 0 then "" else if |lines| == 1 then lines[0] else lines[0] + "\n" + JoinLf(lines[1..])
  }

  // ----- The parser -----

  datatype Fields = Fields(event: Option<string>, data: seq<string>, id: Option<string>)

  /** One line of `_parse_block`; splitting has already removed every CR. */
  function TakeLine(f: Fields, line: string): Fields {
    if line == "" || line[0] == ':' then f
    else if "event:" <= line then f.(event := Some(LStrip(line[6..])))
    else if "data:" <= line then f.(data := f.data + [if "data: " <= line then LStrip(line[5..]) else line[5..]])
    else if "id:" <= line then f.(id := Some(LStrip(line[3..])))
    else f
  }

  function TakeLines(lines: seq<string>): Fields {
    if lines == [] then Fields(None, [], None) else TakeLine(TakeLines(lines[..|lines| - 1]), lines[|lines| - 1])
  }

  function Parsed(text: string): Option<SseEvent> {
    var f := TakeLines(SplitLines(text));
    if f.event.None? && f.data == [] && f.id.None? then None else Some(SseEvent(f.event, JoinLf(f.data), f.id))
  }

  /** `_parse_block`. */
  method ParseBlock(text: string) returns (r: Option<SseEvent>)
    ensures r == Parsed(text)
  {
    var event: Option<string>, data, id: Option<string> := None, [], None;
    var lines := SplitLines(text);
    for i := 0 to |lines|
      invariant Fields(event, data, id) == TakeLines(lines[..i])
    {
      assert lines[..i + 1][..i] == lines[..i];
      var line := lines[i];
      if line == "" || line[0] == ':' {
        continue;
      }
      if "event:" <= line {
        event := Some(LStrip(line[6..]));
      } else if "data:" <= line {
        data := data + [if "data: " <= line then LStrip(line[5..]) else line[5..]];
      } else if "id:" <= line {
        id := Some(LStrip(line[3..]));
      }
    }
    assert lines[..|lines|] == lines;
    if event.None? && data == [] && id.None? {
      return None;
    }
    r := Some(SseEvent(event, JoinLf(data), id));
  }

  // ----- The writer -----

  /** `data.split("\n")`. */
  function SplitLf(s: string): (r: seq<string>)
    ensures r != []
    decreases |s|
  {
    if |s| == 0 then [""]
    else
      var rest := SplitLf(s[1..]);
      if s[0] == '\n' then [""] + rest else [[s[0]] + rest[0]] + rest[1..]
  }

  function DataLines(parts: seq<string>): seq<string> {
    if |parts| == 0 then [] else DataLines(parts[..|parts| - 1]) + ["data: " + parts[|parts| - 1]]
  }

  /** The lines `_frame` writes before its blank line. */
  function FrameLines(event: string, data: string, id: Option<string>): seq<string> {
    (if id.Some? then ["id: " + id.value] else []) + ["event: " + event] + DataLines(SplitLf(data))
  }

  /** `_frame` without its closing blank line, which is what the decoder cuts at. */
  function FrameText(event: string, data: string, id: Option<string>): string {
    JoinLf(FrameLines(event, data, id))
  }

  method WriteFrame(event: string, data: string, id: Option<string>) returns (text: string)
    ensures text == FrameText(event, data, id) + "\n\n"
  {
    var lines := [];
    if id.Some? {
      lines := lines + ["id: " + id.value];
    }
    lines := lines + ["event: " + event];
    var parts := SplitLf(data);
    ghost var head := lines;
    for i := 0 to |parts|
      invariant lines == head + DataLines(parts[..i])
    {
      assert parts[..i + 1][..i] == parts[..i];
      assert head + (DataLines(parts[..i]) + ["data: " + parts[i]]) == lines + ["data: " + parts[i]];
      lines := lines + ["data: " + parts[i]];
    }
    assert parts[..|parts|] == parts;
    assert lines == FrameLines(event, data, id);
    JoinSnoc(lines, "");
    lines := lines + [""];
    text := JoinLf(lines) + "\n";
  }

  lemma {:induction false} JoinSnoc(lines: seq<string>, last: string)
    requires lines != []
    ensures JoinLf(lines + [last]) == JoinLf(lines) + "\n" + last
  {
    if |lines| == 1 {
      assert (lines + [last])[1..] == [last];
    } else {
      assert (lines + [last])[1..] == lines[1..] + [last];
      JoinSnoc(lines[1..], last);
    }
  }

  // ----- The round trip -----

  lemma {:induction false} SplitLfJoins(s: string)
    ensures JoinLf(SplitLf(s)) == s
  {
    if |s| != 0 {
      var rest := SplitLf(s[1..]);
      SplitLfJoins(s[1..]);
      if s[0] == '\n' {
        JoinEmptyLine(rest);
      } else {
        assert rest == [rest[0]] + rest[1..];
        JoinLonger(s[0], rest[0], rest[1..]);
      }
    }
  }

  lemma JoinFirst(line: string, rest: seq<string>)
    ensures JoinLf([line] + rest) == if |rest| == 0 then line else line + "\n" + JoinLf(rest)
  {
    assert ([line] + rest)[1..] == rest && ([line] + rest)[0] == line;
  }

  lemma JoinEmptyLine(lines: seq<string>)
    requires |lines| != 0
    ensures JoinLf([""] + lines) == "\n" + JoinLf(lines)
  {
    JoinFirst("", lines);
  }

  lemma JoinLonger(c: char, first: string, rest: seq<string>)
    ensures JoinLf([[c] + first] + rest) == [c] + JoinLf([first] + rest)
  {
    JoinFirst(first, rest);
    JoinFirst([c] + first, rest);
    if |rest| != 0 {
      InFront(c, first, JoinLf(rest));
    }
  }

  lemma InFront(c: char, first: string, rest: string)
    ensures ([c] + first) + "\n" + rest == [c] + (first + "\n" + rest)
  {
  }

  lemma {:induction false} PartsComeFromText(s: string)
    ensures forall part <- SplitLf(s) :: '\n' !in part && forall c <- part :: c in s
  {
    if s != "" {
      var rest := SplitLf(s[1..]);
      PartsComeFromText(s[1..]);
      assert rest[0] in rest;
      forall part <- SplitLf(s) ensures '\n' !in part && forall c <- part :: c in s {
        if part !in rest && s[0] != '\n' {
          assert part == [s[0]] + rest[0];
        }
      }
    }
  }

  lemma BoundaryEndsLine(line: string, rest: string)
    requires OneLine(line)
    ensures FirstBoundary(line + "\n" + rest) == |line|
  {
    var s := line + "\n" + rest;
    var k := FirstBoundary(s);
    assert forall i | 0 <= i < |line| :: s[i] == line[i];
    assert s[|line|] == '\n';
  }

  lemma {:induction false} SplitJoined(lines: seq<string>)
    requires forall line <- lines :: OneLine(line)
    requires lines != [] && lines[|lines| - 1] != ""
    ensures SplitLines(JoinLf(lines)) == lines
    decreases |lines|
  {
    var s := JoinLf(lines);
    assert OneLine(lines[0]);
    if |lines| == 1 {
      var k := FirstBoundary(s);
      assert k == |s|;
    } else {
      SplitJoined(lines[1..]);
      SplitFirst(lines[0], JoinLf(lines[1..]));
      assert lines == [lines[0]] + lines[1..];
    }
  }

  /** A line and an LF in front of a text are the first line of it. */
  lemma SplitFirst(line: string, rest: string)
    requires OneLine(line)
    ensures SplitLines(line + "\n" + rest) == [line] + SplitLines(rest)
  {
    var s := line + "\n" + rest;
    BoundaryEndsLine(line, rest);
    assert s[|line| + 1..] == rest && s[..|line|] == line && s[|line|] == '\n';
  }

  function Stripped(parts: seq<string>): seq<string> {
    if |parts| == 0 then [] else Stripped(parts[..|parts| - 1]) + [LStrip(parts[|parts| - 1])]
  }

  lemma TakeDataLine(f: Fields, part: string)
    ensures TakeLine(f, "data: " + part) == f.(data := f.data + [LStrip(part)])
  {
    var line := "data: " + part;
    assert line[5..] == " " + part && line[5..][1..] == part;
    assert line[0] == 'd' && "data:" <= line && "data: " <= line;
    assert !("event:" <= line) by {
      assert "event:"[0] == 'e';
    }
  }

  lemma TakeEventLine(f: Fields, event: string)
    ensures TakeLine(f, "event: " + event) == f.(event := Some(LStrip(event)))
  {
    var line := "event: " + event;
    assert line[6..] == " " + event && line[6..][1..] == event && "event:" <= line;
  }

  lemma TakeIdLine(f: Fields, id: string)
    ensures TakeLine(f, "id: " + id) == f.(id := Some(LStrip(id)))
  {
    var line := "id: " + id;
    assert line[3..] == " " + id && line[3..][1..] == id && "id:" <= line;
    assert line[0] == 'i' && "event:"[0] == 'e' && "data:"[0] == 'd';
  }

  lemma TakeSnoc(lines: seq<string>, line: string)
    ensures TakeLines(lines + [line]) == TakeLine(TakeLines(lines), line)
  {
    assert (lines + [line])[..|lines|] == lines;
  }

  function WithData(f: Fields, more: seq<string>): Fields {
    f.(data := f.data + more)
  }

  lemma TakeOneMore(lines: seq<string>, f: Fields, stripped: seq<string>, part: string)
    requires TakeLines(lines) == WithData(f, stripped)
    ensures TakeLines(lines + ["data: " + part]) == WithData(f, stripped + [LStrip(part)])
  {
    TakeSnoc(lines, "data: " + part);
    TakeDataLine(WithData(f, stripped), part);
    assert f.data + (stripped + [LStrip(part)]) == (f.data + stripped) + [LStrip(part)];
  }

  lemma {:induction false} TakeDataLines(head: seq<string>, parts: seq<string>)
    ensures TakeLines(head + DataLines(parts)) == WithData(TakeLines(head), Stripped(parts))
  {
    if parts == [] {
      assert head + DataLines(parts) == head;
      assert TakeLines(head).data + Stripped(parts) == TakeLines(head).data;
    } else {
      var front, last := parts[..|parts| - 1], parts[|parts| - 1];
      TakeDataLines(head, front);
      assert head + DataLines(parts) == (head + DataLines(front)) + ["data: " + last];
      TakeOneMore(head + DataLines(front), TakeLines(head), Stripped(front), last);
    }
  }

  /** An event name or id the way the writer's callers give it. */
  predicate Plain(s: string) {
    OneLine(s) && (s != "" ==> !IsSpace(s[0]))
  }

  lemma HeadFields(event: string, id: Option<string>)
    requires Plain(event) && (id.Some? ==> Plain(id.value))
    ensures TakeLines((if id.Some? then ["id: " + id.value] else []) + ["event: " + event]) == Fields(Some(event), [], id)
  {
    var none := Fields(None, [], None);
    if id.Some? {
      TakeIdLine(none, id.value);
      assert ["id: " + id.value] == [] + ["id: " + id.value];
      TakeSnoc([], "id: " + id.value);
      TakeSnoc(["id: " + id.value], "event: " + event);
      TakeEventLine(none.(id := id), event);
    } else {
      TakeSnoc([], "event: " + event);
      TakeEventLine(none, event);
    }
  }

  lemma FrameFields(event: string, data: string, id: Option<string>)
    requires Plain(event) && (id.Some? ==> Plain(id.value))
    ensures TakeLines(FrameLines(event, data, id)) == Fields(Some(event), Stripped(SplitLf(data)), id)
  {
    HeadFields(event, id);
    TakeDataLines((if id.Some? then ["id: " + id.value] else []) + ["event: " + event], SplitLf(data));
    assert [] + Stripped(SplitLf(data)) == Stripped(SplitLf(data));
  }

  predicate OnlyLf(data: string) {
    forall i | 0 <= i < |data| :: IsBoundary(data[i]) ==> data[i] == '\n'
  }

  /** Data without line separators other than LF, none of whose lines starts with white space. */
  predicate PlainData(data: string) {
    && OnlyLf(data)
    && forall part <- SplitLf(data) :: !StartsWithSpace(part)
  }

  lemma FrameLinesAreLines(event: string, data: string, id: Option<string>)
    requires Plain(event) && (id.Some? ==> Plain(id.value))
    requires OnlyLf(data)
    ensures var lines := FrameLines(event, data, id);
            lines != [] && lines[|lines| - 1] != "" && forall line <- lines :: OneLine(line)
  {
    var lines, parts := FrameLines(event, data, id), SplitLf(data);
    PartsAreLines(data);
    DataLinesAre(parts);
    forall line <- lines ensures OneLine(line) {
      if line in DataLines(parts) {
        var part :| part in parts && line == "data: " + part;
      }
    }
  }

  lemma {:induction false} DataLinesAre(parts: seq<string>)
    ensures |DataLines(parts)| == |parts| && (parts != [] ==> DataLines(parts)[|parts| - 1] == "data: " + parts[|parts| - 1])
    ensures forall line <- DataLines(parts) :: exists part <- parts :: line == "data: " + part
  {
    if parts != [] {
      DataLinesAre(parts[..|parts| - 1]);
      assert parts[|parts| - 1] in parts;
      forall line <- DataLines(parts) ensures exists part <- parts :: line == "data: " + part {
        if line in DataLines(parts[..|parts| - 1]) {
          var part :| part in parts[..|parts| - 1] && line == "data: " + part;
          assert part in parts;
        }
      }
    }
  }

  // ----- What cannot survive -----

  lemma {:induction false} SplitLinesAreLines(s: string)
    ensures forall line <- SplitLines(s) :: OneLine(line)
    decreases |s|
  {
    var k := FirstBoundary(s);
    if s != "" && k < |s| {
      var rest := if s[k] == '\r' && k + 1 < |s| && s[k + 1] == '\n' then s[k + 2..] else s[k + 1..];
      SplitLinesAreLines(rest);
      LinesOneMore(s[..k], SplitLines(rest));
    } else if s != "" {
      assert s[..k] == s;
    }
  }

  lemma LinesOneMore(line: string, lines: seq<string>)
    requires OneLine(line) && forall l <- lines :: OneLine(l)
    ensures forall l <- [line] + lines :: OneLine(l)
  {
  }

  lemma {:induction false} LStripKeepsLine(s: string)
    requires OneLine(s)
    ensures OneLine(LStrip(s)) && |LStrip(s)| <= |s|
    ensures if StartsWithSpace(s) then |LStrip(s)| < |s| else LStrip(s) == s
  {
    if s != "" && IsSpace(s[0]) {
      LStripKeepsLine(s[1..]);
    }
  }

  lemma {:induction false} TakenDataAreLines(lines: seq<string>)
    requires forall line <- lines :: OneLine(line)
    ensures forall d <- TakeLines(lines).data :: OneLine(d)
  {
    if lines != [] {
      var front, line := lines[..|lines| - 1], lines[|lines| - 1];
      TakenDataAreLines(front);
      assert OneLine(line);
      if "data:" <= line {
        LStripKeepsLine(line[5..]);
      }
      forall d <- TakeLines(lines).data ensures OneLine(d) {
        assert d in TakeLines(front).data || d == LStrip(line[5..]) || d == line[5..];
      }
    }
  }

  lemma {:induction false} JoinHasOnlyLf(lines: seq<string>)
    requires forall line <- lines :: OneLine(line)
    ensures forall i | 0 <= i < |JoinLf(lines)| :: IsBoundary(JoinLf(lines)[i]) ==> JoinLf(lines)[i] == '\n'
  {
    if lines != [] {
      assert OneLine(lines[0]);
      if |lines| > 1 {
        JoinHasOnlyLf(lines[1..]);
      }
    }
  }

  predicate StartsWithSpace(s: string) {
    s != "" && IsSpace(s[0])
  }

  lemma {:induction false} StrippingShortens(parts: seq<string>)
    requires parts != [] && forall part <- parts :: OneLine(part)
    ensures Stripped(parts) != [] && |JoinLf(Stripped(parts))| <= |JoinLf(parts)|
    ensures if exists part <- parts :: StartsWithSpace(part) then |JoinLf(Stripped(parts))| < |JoinLf(parts)| else Stripped(parts) == parts
  {
    var front, last := parts[..|parts| - 1], parts[|parts| - 1];
    assert parts == front + [last];
    assert forall part :: part in parts <==> part in front || part == last;
    LStripKeepsLine(last);
    if front == [] {
      assert Stripped(parts) == [LStrip(last)];
    } else {
      StrippingShortens(front);
      JoinSnoc(front, last);
      JoinSnoc(Stripped(front), LStrip(last));
    }
  }

  /**
   * Exactly when a written frame is read back unchanged: its data holds no line separator but LF and
   * no line of it starts with white space. A U+2028 that JSON text may carry unescaped is enough to
   * lose the rest of its line.
   */
  lemma RoundTripExactlyWhen(event: string, data: string, id: Option<string>)
    requires Plain(event) && (id.Some? ==> Plain(id.value))
    ensures Parsed(FrameText(event, data, id)) == Some(SseEvent(Some(event), data, id)) <==> PlainData(data)
  {
    if OnlyLf(data) {
      LfDataReadsBack(event, data, id);
      StrippingKeepsExactlyWhen(data);
    } else {
      ReadDataHasOnlyLf(FrameText(event, data, id));
    }
  }

  /** Data without other separators comes back line by line, each without its leading white space. */
  lemma LfDataReadsBack(event: string, data: string, id: Option<string>)
    requires Plain(event) && (id.Some? ==> Plain(id.value)) && OnlyLf(data)
    ensures Parsed(FrameText(event, data, id)) == Some(SseEvent(Some(event), JoinLf(Stripped(SplitLf(data))), id))
  {
    FrameLinesAreLines(event, data, id);
    SplitJoined(FrameLines(event, data, id));
    FrameFields(event, data, id);
  }

  /** Exactly if no line of it starts with white space, stripping the lines changes nothing. */
  lemma StrippingKeepsExactlyWhen(data: string)
    requires OnlyLf(data)
    ensures JoinLf(Stripped(SplitLf(data))) == data <==> PlainData(data)
  {
    SplitLfJoins(data);
    PartsAreLines(data);
    StrippingShortens(SplitLf(data));
  }

  /** Whatever is read, its data has no separator but LF. */
  lemma ReadDataHasOnlyLf(text: string)
    ensures Parsed(text).Some? ==> OnlyLf(Parsed(text).value.data)
  {
    SplitLinesAreLines(text);
    TakenDataAreLines(SplitLines(text));
    JoinHasOnlyLf(TakeLines(SplitLines(text)).data);
  }

  lemma PartsAreLines(data: string)
    requires OnlyLf(data)
    ensures forall part <- SplitLf(data) :: OneLine(part)
  {
    PartsComeFromText(data);
    forall part <- SplitLf(data) ensures OneLine(part) {
      forall i | 0 <= i < |part| ensures !IsBoundary(part[i]) {
        assert part[i] in part && part[i] in data;
        var k :| 0 <= k < |data| && data[k] == part[i];
      }
    }
  }
}
