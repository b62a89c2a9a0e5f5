/** Reading a server-sent event stream (section 9.2 of the WHATWG HTML Living Standard, in part) from network chunks. */
module EventStream {
  import opened Options
  import opened Seqs

  /** What JavaScript's `trim` removes. */
  predicate IsSpace(c: char) {
    || c == '\t' || c == '\n' || c == '\U{000B}' || c == '\U{000C}' || c == '\r' || c == ' '
    || c == '\U{00A0}' || c == '\U{1680}' || '\U{2000}' <= c <= '\U{200A}' || c == '\U{2028}' || c == '\U{2029}'
    || c == '\U{202F}' || c == '\U{205F}' || c == '\U{3000}' || c == '\U{FEFF}'
  }

  const WHITE_SPACE :=
    "\t\n\U{000B}\U{000C}\r \U{00A0}\U{1680}\U{2000}\U{2001}\U{2002}\U{2003}\U{2004}\U{2005}\U{2006}" +
    "\U{2007}\U{2008}\U{2009}\U{200A}\U{2028}\U{2029}\U{202F}\U{205F}\U{3000}\U{FEFF}"

  /** White space and line terminators (sections 12.2 and 12.3 of ECMA-262), one by one. */
  lemma SpacesAre(c: char)
    ensures IsSpace(c) <==> c in WHITE_SPACE
  {
    assert forall i :: 0 <= i < |WHITE_SPACE| ==> IsSpace(WHITE_SPACE[i]);
    if IsSpace(c) { SpaceListed(c); }
  }

  lemma SpaceListed(c: char)
    requires IsSpace(c)
    ensures c in WHITE_SPACE
  {
  }

  function TrimStart(s: string): string {
    if s != "" && IsSpace(s[0]) then TrimStart(s[1..]) else s
  }

  function TrimEnd(s: string): string {
    if s != "" && IsSpace(s[|s| - 1]) then TrimEnd(s[..|s| - 1]) else s
  }

  function Trim(s: string): string {
    TrimEnd(TrimStart(s))
  }

  const BLANK_LINE := "\n\n"
  const DATA := "data:"
  const DONE := "[DONE]"

  predicate BlankAt(s: string, i: nat) {
    i + 2 <= |s| && s[i..i + 2] == BLANK_LINE
  }

  /** `indexOf('\n\n')`. */
  function FindBlank(s: string, from: nat): (r: Option<nat>)
    requires from <= |s|
    ensures r.Some? ==> from <= r.value && BlankAt(s, r.value) && forall j :: from <= j < r.value ==> !BlankAt(s, j)
    ensures r.None? ==> forall j :: from <= j ==> !BlankAt(s, j)
    decreases |s| - from
  {
    if from + 2 > |s| then None
    else if BlankAt(s, from) then Some(from)
    else FindBlank(s, from + 1)
  }

  /** The text between two blank lines: its data, if it is a `data:` frame. */
  function DataOf(frame: string): Option<string> {
    var trimmed := Trim(frame);
    if DATA <= trimmed then Some(Trim(trimmed[|DATA|..])) else None
  }

  /** Where reading stands: more text is awaited, `[DONE]` was read, or a frame threw. */
  datatype Status = Reading | Finished | Threw

  /** What came out so far, and the text not yet made into a frame. */
  datatype Progress<T> = Progress(out: seq<T>, status: Status, rest: string)

  /** The frames of a text. `parse` is what becomes of a frame's data; None is a throw. */
  function Scan<T>(text: string, parse: string -> Option<T>): (r: Progress<T>)
    ensures r.status.Reading? ==> FindBlank(r.rest, 0).None?
    decreases |text|
  {
    var blank := FindBlank(text, 0);
    if blank.None? then Progress([], Reading, text)
    else
      var data, rest := DataOf(text[..blank.value]), text[blank.value + 2..];
      if data.None? then Scan(rest, parse)
      else if data.value == DONE then Progress([], Finished, rest)
      else if parse(data.value).None? then Progress([], Threw, rest)
      else
        var more := Scan(rest, parse);
        more.(out := [parse(data.value).value] + more.out)
  }

  // ---- splitting the text ----

  lemma BlankStays(a: string, b: string)
    requires FindBlank(a, 0).Some?
    ensures FindBlank(a + b, 0) == FindBlank(a, 0)
  {
    var i, k := FindBlank(a, 0).value, FindBlank(a + b, 0);
    forall j | 0 <= j && j + 2 <= |a| ensures BlankAt(a + b, j) <==> BlankAt(a, j) {
      assert (a + b)[j..j + 2] == a[j..j + 2];
    }
  }

  /** Reading on after a pause is the same as never having paused, wherever the pause was,
      between the two line feeds of a separator included. */
  lemma {:induction false} ScanResumes<T>(a: string, b: string, parse: string -> Option<T>)
    ensures var before, all := Scan(a, parse), Scan(a + b, parse);
      if before.status.Reading? then
        var after := Scan(before.rest + b, parse);
        all == after.(out := before.out + after.out)
      else all.out == before.out && all.status == before.status
    decreases |a|
  {
    var blank := FindBlank(a, 0);
    if blank.Some? {
      BlankStays(a, b);
      var i := blank.value;
      assert (a + b)[..i] == a[..i] && (a + b)[i + 2..] == a[i + 2..] + b;
      ScanResumes(a[i + 2..], b, parse);
      var data, more := DataOf(a[..i]), Scan(a[i + 2..], parse);
      if data.Some? && data.value != DONE && parse(data.value).Some? && more.status.Reading? {
        Assoc([parse(data.value).value], more.out, Scan(more.rest + b, parse).out);
      }
    } else {
      assert [] + Scan(a + b, parse).out == Scan(a + b, parse).out;
    }
  }

  function Concat(chunks: seq<string>): string {
    if chunks == [] then "" else Concat(chunks[..|chunks| - 1]) + chunks[|chunks| - 1]
  }

  /** The reading loop: it stops early at `[DONE]` or at a throw, wherever in the chunks. */
  method ReadFrames<T>(chunks: seq<string>, parse: string -> Option<T>) returns (out: seq<T>, status: Status)
    ensures var whole := Scan(Concat(chunks), parse); out == whole.out && status == whole.status
  {
    out, status := [], Reading;
    var buffer := "";
    for n := 0 to |chunks|
      invariant status == Reading && Scan(Concat(chunks[..n]), parse) == Progress(out, Reading, buffer)
    {
      var sofar := Concat(chunks[..n]);
      ScanResumes(sofar, chunks[n], parse);
      assert chunks[..n + 1][..n] == chunks[..n];
      ghost var before := out;
      buffer := buffer + chunks[n];
      ghost var whole := Scan(buffer, parse);
      assert whole == whole.(out := [] + whole.out) by { assert [] + whole.out == whole.out; }
      var more;
      more, status, buffer := TakeFrames(buffer, parse);
      out := out + more;
      if status != Reading {
        StaysEnded(chunks, n + 1, parse);
        return;
      }
    }
    assert chunks[..|chunks|] == chunks;
  }

  /** The inner loop: every complete frame that the buffer holds. */
  method TakeFrames<T>(text: string, parse: string -> Option<T>) returns (out: seq<T>, status: Status, buffer: string)
    ensures Progress(out, status, buffer) == Scan(text, parse)
  {
    out, status, buffer := [], Reading, text;
    ghost var whole := Scan(text, parse);
    assert [] + whole.out == whole.out;
    while true
      invariant whole == Scan(buffer, parse).(out := out + Scan(buffer, parse).out)
      decreases |buffer|
    {
      var blank := FindBlank(buffer, 0);
      if blank.None? {
        assert out + [] == out;
        return out, Reading, buffer;
      }
      var data := DataOf(buffer[..blank.value]);
      ghost var rest := Scan(buffer[blank.value + 2..], parse);
      buffer := buffer[blank.value + 2..];
      if data.None? { continue; }
      if data.value == DONE {
        assert out + [] == out;
        return out, Finished, buffer;
      }
      var parsed := parse(data.value);
      if parsed.None? {
        assert out + [] == out;
        return out, Threw, buffer;
      }
      Assoc(out, [parsed.value], rest.out);
      out := out + [parsed.value];
    }
  }

  lemma {:induction false} StaysEnded<T>(chunks: seq<string>, n: nat, parse: string -> Option<T>)
    requires n <= |chunks| && !Scan(Concat(chunks[..n]), parse).status.Reading?
    ensures var before, whole := Scan(Concat(chunks[..n]), parse), Scan(Concat(chunks), parse);
      whole.out == before.out && whole.status == before.status
    decreases |chunks|
  {
    if n == |chunks| {
      assert chunks[..n] == chunks;
    } else {
      var front := chunks[..|chunks| - 1];
      assert front[..n] == chunks[..n];
      StaysEnded(front, n, parse);
      ScanResumes(Concat(front), chunks[|chunks| - 1], parse);
    }
  }

  // ---- the frames are what the sender put in ----

  /** What a sender puts on the wire: data on a line of its own, with space around it, or any
      other line. */
  datatype Sent = Data(lead: string, pad: string, data: string, tail: string) | Other(line: string)

  function Line(sent: Sent): string {
    match sent
    case Data(lead, pad, data, tail) => lead + ("data:" + pad + data) + tail
    case Other(line) => line
  }

  function Wire(sent: Sent): string {
    Line(sent) + "\n\n"
  }

  function WireAll(list: seq<Sent>): string {
    if list == [] then "" else Wire(list[0]) + WireAll(list[1..])
  }

  const END_MARK := "data: [DONE]\n\n"

  predicate Blank(s: string) {
    forall i :: 0 <= i < |s| ==> IsSpace(s[i]) && s[i] != '\n'
  }

  /** Nothing to trim and no line feed. */
  predicate Solid(s: string) {
    s != "" && !IsSpace(s[0]) && !IsSpace(s[|s| - 1]) && '\n' !in s
  }

  /** Data is on one line, not blank, with nothing but space around it. Another line is a
      comment or another field: it does not begin with `data:`, nor with a space. */
  predicate Proper(sent: Sent) {
    match sent
    case Data(lead, pad, data, tail) => Blank(lead) && Blank(pad) && Blank(tail) && Solid(data) && data != "[DONE]"
    case Other(line) => '\n' !in line && !("data:" <= line) && (line != "" ==> !IsSpace(line[0]))
  }

  /** What the data of the list is parsed into. */
  function Parsed<T>(list: seq<Sent>, parse: string -> Option<T>): seq<T> {
    if list == [] then []
    else
      var rest := Parsed(list[1..], parse);
      if list[0].Data? && parse(list[0].data).Some? then [parse(list[0].data).value] + rest else rest
  }

  lemma {:induction false} TrimStartBlank(blank: string, s: string)
    requires Blank(blank) && (s != "" ==> !IsSpace(s[0]))
    ensures TrimStart(blank + s) == s
  {
    if blank == "" {
      assert blank + s == s;
    } else {
      assert (blank + s)[1..] == blank[1..] + s;
      TrimStartBlank(blank[1..], s);
    }
  }

  lemma {:induction false} TrimEndBlank(s: string, blank: string)
    requires Blank(blank) && (s != "" ==> !IsSpace(s[|s| - 1]))
    ensures TrimEnd(s + blank) == s
  {
    if blank == "" {
      assert s + blank == s;
    } else {
      var front := blank[..|blank| - 1];
      assert (s + blank)[..|s + blank| - 1] == s + front;
      TrimEndBlank(s, front);
    }
  }

  /** Trimming takes away exactly the space around what is solid. */
  lemma TrimAround(lead: string, s: string, tail: string)
    requires Blank(lead) && Blank(tail) && Solid(s)
    ensures Trim(lead + s + tail) == s
  {
    assert lead + s + tail == lead + (s + tail);
    TrimStartBlank(lead, s + tail);
    TrimEndBlank(s, tail);
  }

  lemma {:induction false} TrimEndPrefix(s: string)
    ensures TrimEnd(s) <= s
  {
    if s != "" && IsSpace(s[|s| - 1]) { TrimEndPrefix(s[..|s| - 1]); }
  }

  /** The first separator of a line without line feeds is where the line ends. */
  lemma BlankAfterLine(line: string, rest: string)
    requires '\n' !in line
    ensures FindBlank(line + ("\n\n" + rest), 0) == Some(|line|)
    ensures (line + ("\n\n" + rest))[..|line|] == line && (line + ("\n\n" + rest))[|line| + 2..] == rest
  {
    var tail := "\n\n" + rest;
    assert tail[..2] == BLANK_LINE && tail[2..] == rest;
    FindsBlank(line, tail);
  }

  lemma FindsBlank(line: string, tail: string)
    requires '\n' !in line && |tail| >= 2 && tail[..2] == BLANK_LINE
    ensures FindBlank(line + tail, 0) == Some(|line|) && (line + tail)[..|line|] == line
    ensures (line + tail)[|line| + 2..] == tail[2..]
  {
    var text, n := line + tail, |line|;
    assert text[n..n + 2] == tail[..2];
    forall j | 0 <= j < n ensures !BlankAt(text, j) {
      NotBlank(text, j, line);
    }
    FirstBlank(text, n);
  }

  lemma NotBlank(text: string, j: nat, line: string)
    requires line <= text && j < |line| && '\n' !in line
    ensures !BlankAt(text, j)
  {
    assert text[j] == line[j];
    assert j + 2 <= |text| ==> text[j..j + 2][0] == text[j] && BLANK_LINE[0] == '\n';
  }

  lemma FirstBlank(text: string, n: nat)
    requires BlankAt(text, n) && forall j :: 0 <= j < n ==> !BlankAt(text, j)
    ensures FindBlank(text, 0) == Some(n)
  {
    var found := FindBlank(text, 0);
  }

  lemma DataLine(lead: string, pad: string, data: string, tail: string)
    requires Blank(lead) && Blank(pad) && Blank(tail) && Solid(data)
    ensures DataOf(Line(Data(lead, pad, data, tail))) == Some(data)
    ensures '\n' !in Line(Data(lead, pad, data, tail))
  {
    var body := "data:" + pad + data;
    assert body[0] == 'd' && body[|body| - 1] == data[|data| - 1];
    assert forall i :: 0 <= i < |pad| ==> pad[i] != '\n';
    assert Solid(body);
    TrimAround(lead, body, tail);
    assert DATA <= body && body[|DATA|..] == pad + data;
    assert pad + data + "" == pad + data;
    TrimAround(pad, data, "");
  }

  lemma OtherLine(line: string)
    requires !("data:" <= line) && (line != "" ==> !IsSpace(line[0]))
    ensures DataOf(line).None?
  {
    TrimEndPrefix(line);
  }

  lemma ScanFrame<T>(text: string, n: nat, rest: string, parse: string -> Option<T>)
    requires FindBlank(text, 0) == Some(n) && text[n + 2..] == rest
    ensures var data, more := DataOf(text[..n]), Scan(rest, parse);
      && (data == Some("[DONE]") ==> Scan(text, parse) == Progress([], Finished, rest))
      && (data.None? ==> Scan(text, parse) == more)
      && (data.Some? && data != Some("[DONE]") && parse(data.value).None? ==>
            Scan(text, parse) == Progress([], Threw, rest))
      && (data.Some? && data != Some("[DONE]") && parse(data.value).Some? ==>
            Scan(text, parse) == more.(out := [parse(data.value).value] + more.out))
  {
  }

  /** Reading back what was sent, up to `[DONE]`, whatever follows it and whatever each frame
      is parsed into; other lines in between are passed over. */
  lemma {:induction false} FramesReadBack<T>(list: seq<Sent>, junk: string, parse: string -> Option<T>)
    requires forall k :: 0 <= k < |list| ==> Proper(list[k]) && (list[k].Data? ==> parse(list[k].data).Some?)
    ensures Scan(WireAll(list) + (END_MARK + junk), parse) == Progress(Parsed(list, parse), Finished, junk)
  {
    if list == [] {
      assert WireAll(list) + (END_MARK + junk) == END_MARK + junk;
      EndReadBack(junk, parse);
    } else {
      FramesReadBack(list[1..], junk, parse);
      OneReadBack(list[0], WireAll(list[1..]) + (END_MARK + junk), parse);
      Assoc(Wire(list[0]), WireAll(list[1..]), END_MARK + junk);
    }
  }

  /** The first frame of a text that starts with a line. */
  lemma FrameOf<T>(line: string, rest: string, parse: string -> Option<T>)
    requires '\n' !in line
    ensures var data, more := DataOf(line), Scan(rest, parse);
      && (data == Some("[DONE]") ==> Scan(line + "\n\n" + rest, parse) == Progress([], Finished, rest))
      && (data.None? ==> Scan(line + "\n\n" + rest, parse) == more)
      && (data.Some? && data != Some("[DONE]") && parse(data.value).None? ==>
            Scan(line + "\n\n" + rest, parse) == Progress([], Threw, rest))
      && (data.Some? && data != Some("[DONE]") && parse(data.value).Some? ==>
            Scan(line + "\n\n" + rest, parse) == more.(out := [parse(data.value).value] + more.out))
  {
    Assoc(line, "\n\n", rest);
    BlankAfterLine(line, rest);
    ScanFrame(line + ("\n\n" + rest), |line|, rest, parse);
  }

  lemma EndReadBack<T>(junk: string, parse: string -> Option<T>)
    ensures Scan(END_MARK + junk, parse) == Progress([], Finished, junk)
  {
    var line := "data: [DONE]";
    assert line == Line(Data("", " ", "[DONE]", "")) && END_MARK + junk == line + "\n\n" + junk;
    DataLine("", " ", "[DONE]", "");
    FrameOf(line, junk, parse);
  }

  lemma OneReadBack<T>(sent: Sent, rest: string, parse: string -> Option<T>)
    requires Proper(sent) && (sent.Data? ==> parse(sent.data).Some?)
    ensures var more := Scan(rest, parse);
      Scan(Wire(sent) + rest, parse) == if sent.Data? then more.(out := [parse(sent.data).value] + more.out) else more
  {
    match sent
    case Data(lead, pad, data, tail) =>
      DataLine(lead, pad, data, tail);
      FrameOf(Line(sent), rest, parse);
    case Other(line) =>
      OtherLine(line);
      FrameOf(line, rest, parse);
  }

  /** A frame that throws ends the reading: what came before it is out, what comes after it is
      not looked at. */
  lemma {:induction false} ThrowEndsReading<T>(
    list: seq<Sent>, bad: Sent, junk: string, parse: string -> Option<T>)
    requires forall k :: 0 <= k < |list| ==> Proper(list[k]) && (list[k].Data? ==> parse(list[k].data).Some?)
    requires bad.Data? && Proper(bad) && parse(bad.data).None?
    ensures Scan(WireAll(list) + (Wire(bad) + junk), parse) == Progress(Parsed(list, parse), Threw, junk)
  {
    if list == [] {
      assert WireAll(list) + (Wire(bad) + junk) == Wire(bad) + junk;
      DataLine(bad.lead, bad.pad, bad.data, bad.tail);
      FrameOf(Line(bad), junk, parse);
    } else {
      ThrowEndsReading(list[1..], bad, junk, parse);
      OneReadBack(list[0], WireAll(list[1..]) + (Wire(bad) + junk), parse);
      Assoc(Wire(list[0]), WireAll(list[1..]), Wire(bad) + junk);
    }
  }
}
