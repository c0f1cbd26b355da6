/** Server-sent events: the frames that the API prints, the parser in the web client and the
    event stream interpretation of sections 9.2.5 and 9.2.6 of the WHATWG HTML Living Standard. */
module Sse {
  import opened LineSplitter
  import opened Text
  import opened Wrappers

  datatype Event = Event(name: string, data: string)

  // ---------- printing ----------

  function DataLines(data: string): seq<string> {
    if data == "" then [""] else SplitLines(data)
  }

  function Prefixed(prefix: string, lines: seq<string>): seq<string> {
    if lines == [] then [] else [prefix + lines[0]] + Prefixed(prefix, lines[1..])
  }

  function Payload(name: string, data: string): seq<string> {
    ["event: " + name] + Prefixed("data: ", DataLines(data))
  }

  function Print(name: string, data: string): string {
    Join(Payload(name, data), "\n") + "\n\n"
  }

  // ---------- fields ----------

  function FieldOf(line: string): string {
    var i := IndexOf(line, ':');
    if i == -1 then line else line[..i]
  }

  /** What follows the colon, without one leading space. */
  function ValueOf(line: string): string {
    var i := IndexOf(line, ':');
    if i == -1 then ""
    else
      var raw := line[i + 1..];
      if raw != "" && raw[0] == ' ' then raw[1..] else raw
  }

  lemma {:induction false} IndexUnique(s: string, c: char, i: nat)
    requires i < |s| && s[i] == c && forall k | 0 <= k < i :: s[k] != c
    ensures IndexOf(s, c) == i
  {
  }

  lemma FieldParts(field: string, text: string)
    requires ':' !in field
    ensures FieldOf(field + ": " + text) == field && ValueOf(field + ": " + text) == text
  {
    var line := field + ": " + text;
    IndexUnique(line, ':', |field|);
    assert line[|field| + 1..] == " " + text;
  }

  // ---------- the parser in the web client ----------

  /** What the lines seen so far add up to. */
  datatype Frame = Frame(name: string, lines: seq<string>)

  function FrameStep(f: Frame, line: string): Frame {
    if line == "" || line[0] == ':' then f
    else if FieldOf(line) == "event" then f.(name := if ValueOf(line) == "" then "message" else ValueOf(line))
    else if FieldOf(line) == "data" then f.(lines := f.lines + [ValueOf(line)])
    else f
  }

  function FrameOf(f: Frame, lines: seq<string>): Frame
    decreases |lines|
  {
    if lines == [] then f else FrameOf(FrameStep(f, lines[0]), lines[1..])
  }

  /** split("\n") of JavaScript: one more part than there are line feeds. */
  function SplitLf(s: string): (parts: seq<string>)
    ensures parts != []
    decreases |s|
  {
    var i := IndexOf(s, '\n');
    if i == -1 then [s] else [s[..i]] + SplitLf(s[i + 1..])
  }

  function Finish(f: Frame): Option<Event> {
    if f.lines == [] then None else Some(Event(f.name, Join(f.lines, "\n")))
  }

  function ParseFrame(frame: string): Option<Event> {
    Finish(FrameOf(Frame("message", []), SplitLf(frame)))
  }

  method ParseSseFrame(frame: string) returns (r: Option<Event>)
    ensures r == ParseFrame(frame)
  {
    hide FieldOf, ValueOf, SplitLf, IndexOf;
    var name, dataLines: seq<string> := "message", [];
    var lines := SplitLf(frame);
    for i := 0 to |lines|
      invariant FrameOf(Frame("message", []), lines) == FrameOf(Frame(name, dataLines), lines[i..])
    {
      var line := lines[i];
      assert lines[i..][1..] == lines[i + 1..];
      if line == "" || line[0] == ':' {
        continue;
      }
      var field, value := FieldOf(line), ValueOf(line);
      if field == "event" {
        name := if value == "" then "message" else value;
        continue;
      }
      if field == "data" {
        dataLines := dataLines + [value];
      }
    }
    if dataLines == [] {
      return None;
    }
    return Some(Event(name, Join(dataLines, "\n")));
  }

  // ---------- reading a printed frame ----------

  /** A line, and for the standard also its end, contains no LF (and no CR). */
  lemma {:induction false} SplitLfLine(line: string, rest: string)
    requires '\n' !in line
    ensures SplitLf(line + "\n" + rest) == [line] + SplitLf(rest)
  {
    var s := line + "\n" + rest;
    assert forall k | 0 <= k < |line| :: s[k] == line[k];
    IndexUnique(s, '\n', |line|);
    assert s[..|line|] == line && s[|line| + 1..] == rest;
  }

  /** Each line closed by LF. */
  function Closed(lines: seq<string>): string {
    if lines == [] then "" else lines[0] + "\n" + Closed(lines[1..])
  }

  lemma {:induction false} JoinIsClosed(lines: seq<string>)
    requires lines != []
    ensures Join(lines, "\n") + "\n" == Closed(lines)
  {
    if |lines| == 1 {
      assert Closed(lines[1..]) == "";
      assert lines[0] + "\n" + "" == lines[0] + "\n";
    } else {
      JoinIsClosed(lines[1..]);
      assert Join(lines, "\n") + "\n" == lines[0] + "\n" + (Join(lines[1..], "\n") + "\n");
    }
  }

  lemma PrintIsClosed(name: string, data: string)
    ensures Print(name, data) == Closed(Payload(name, data)) + "\n"
  {
    hide Payload;
    PayloadNotEmpty(name, data);
    JoinIsClosed(Payload(name, data));
    assert Print(name, data) == Join(Payload(name, data), "\n") + "\n" + "\n";
  }

  lemma PayloadNotEmpty(name: string, data: string)
    ensures Payload(name, data) != []
  {
  }

  predicate HaveNoLf(lines: seq<string>) {
    forall i | 0 <= i < |lines| :: '\n' !in lines[i]
  }

  lemma {:induction false} SplitLfClosed(lines: seq<string>, rest: string)
    requires HaveNoLf(lines)
    ensures SplitLf(Closed(lines) + rest) == lines + SplitLf(rest)
  {
    hide SplitLf;
    if lines == [] {
      assert Closed(lines) + rest == rest;
    } else {
      SplitLfClosed(lines[1..], rest);
      assert Closed(lines) + rest == lines[0] + "\n" + (Closed(lines[1..]) + rest);
      SplitLfLine(lines[0], Closed(lines[1..]) + rest);
    }
  }

  lemma {:induction false} FrameOfAppend(f: Frame, a: seq<string>, b: seq<string>)
    ensures FrameOf(f, a + b) == FrameOf(FrameOf(f, a), b)
    decreases |a|
  {
    hide FrameStep;
    if a == [] {
      assert a + b == b;
    } else {
      assert (a + b)[1..] == a[1..] + b;
      FrameOfAppend(FrameStep(f, a[0]), a[1..], b);
    }
  }

  lemma DataLineStep(f: Frame, line: string)
    ensures FrameStep(f, "data: " + line) == f.(lines := f.lines + [line])
  {
    hide FieldOf, ValueOf;
    FieldParts("data", line);
    assert "data" + ": " + line == "data: " + line;
  }

  lemma {:induction false} FrameOfData(f: Frame, lines: seq<string>)
    ensures FrameOf(f, Prefixed("data: ", lines)) == f.(lines := f.lines + lines)
    decreases |lines|
  {
    hide FrameStep;
    if lines == [] {
      assert f.lines + lines == f.lines;
    } else {
      DataLineStep(f, lines[0]);
      FrameOfData(f.(lines := f.lines + [lines[0]]), lines[1..]);
      assert f.lines + [lines[0]] + lines[1..] == f.lines + lines;
      assert Prefixed("data: ", lines)[1..] == Prefixed("data: ", lines[1..]);
    }
  }

  lemma {:induction false} PrefixedIsLine(prefix: string, lines: seq<string>)
    requires IsLine(prefix) && AreLines(lines)
    ensures AreLines(Prefixed(prefix, lines))
  {
    if lines != [] {
      PrefixedIsLine(prefix, lines[1..]);
    }
  }

  lemma DataLinesAreLines(data: string)
    ensures AreLines(DataLines(data)) && DataLines(data) != []
  {
    hide SplitLines;
    SplitLinesHasNoBreak(data);
    if data != "" {
      SplitNotEmpty(data);
      var lines := SplitLines(data);
      forall i | 0 <= i < |lines| ensures IsLine(lines[i]) {
        assert lines[i] in lines;
      }
    }
  }

  lemma SplitNotEmpty(data: string)
    requires data != ""
    ensures SplitLines(data) != []
  {
  }

  lemma PayloadIsLines(name: string, data: string)
    requires IsLine(name)
    ensures AreLines(Payload(name, data)) && HaveNoLf(Payload(name, data))
  {
    hide DataLines;
    DataLinesAreLines(data);
    PrefixedIsLine("data: ", DataLines(data));
    assert forall i | 0 <= i < |Payload(name, data)| :: IsLine(Payload(name, data)[i]);
    forall i | 0 <= i < |Payload(name, data)| ensures '\n' !in Payload(name, data)[i] {
    }
  }

  lemma EventLineStep(f: Frame, name: string)
    requires name != ""
    ensures FrameStep(f, "event: " + name) == f.(name := name)
  {
    hide FieldOf, ValueOf;
    FieldParts("event", name);
    assert "event" + ": " + name == "event: " + name;
  }

  /** The client reads a printed frame as the event's name and the data lines joined by LF. */
  lemma PrintedFrameParses(name: string, data: string)
    requires name != "" && IsLine(name)
    ensures ParseFrame(Print(name, data)) == Some(Event(name, Join(DataLines(data), "\n")))
  {
    hide DataLines, FrameStep, SplitLf, Join, IsLine;
    var payload, lines := Payload(name, data), DataLines(data);
    PrintIsClosed(name, data);
    PayloadIsLines(name, data);
    SplitLfClosed(payload, "\n");
    BlankRest();
    assert SplitLf(Print(name, data)) == payload + ["", ""];
    var start := Frame("message", []);
    FrameOfAppend(start, payload, ["", ""]);
    FrameOfAppend(start, ["event: " + name], Prefixed("data: ", lines));
    EventLineStep(start, name);
    OneLine(start, "event: " + name);
    FrameOfData(Frame(name, []), lines);
    assert [] + lines == lines;
    BlankLines(Frame(name, lines));
    DataLinesAreLines(data);
  }

  lemma BlankRest()
    ensures SplitLf("\n") == ["", ""]
  {
    SplitLfLine("", "");
    assert "" + "\n" + "" == "\n";
  }

  lemma OneLine(f: Frame, line: string)
    ensures FrameOf(f, [line]) == FrameStep(f, line)
  {
    assert [line][1..] == [];
  }

  lemma BlankLines(f: Frame)
    ensures FrameOf(f, ["", ""]) == f
  {
    assert ["", ""][1..] == [""] && [""][1..] == [];
    assert FrameOf(f, [""]) == f;
  }

  // ---------- when the data come back unchanged ----------

  lemma {:induction false} JoinIsShort(s: string)
    ensures |Join(SplitLines(s), "\n")| <= |s|
    decreases |s|
  {
    if s != "" {
      var k := FirstBreak(s);
      if k < |s| {
        var rest := s[k + BreakWidth(s, k)..];
        JoinIsShort(rest);
        JoinCons(s[..k], SplitLines(rest));
      }
    }
  }

  lemma JoinCons(line: string, lines: seq<string>)
    ensures Join([line] + lines, "\n") == if lines == [] then line else line + "\n" + Join(lines, "\n")
  {
    assert ([line] + lines)[1..] == lines;
  }

  /** All line breaks are LF and the last character is none. */
  predicate IsFaithful(data: string) {
    && (forall i | 0 <= i < |data| :: IsBreak(data[i]) ==> data[i] == '\n')
    && (data != "" ==> data[|data| - 1] != '\n')
  }

  lemma FaithfulSplits(line: string, rest: string)
    requires HasNoBreak(line) && rest != ""
    ensures IsFaithful(line + "\n" + rest) <==> IsFaithful(rest)
  {
    var data := line + "\n" + rest;
    assert forall i | 0 <= i < |rest| :: data[|line| + 1 + i] == rest[i];
    assert forall i | 0 <= i < |line| :: data[i] == line[i];
    if IsFaithful(data) {
      forall i | 0 <= i < |rest| ensures IsBreak(rest[i]) ==> rest[i] == '\n' {
        assert data[|line| + 1 + i] == rest[i];
      }
    }
    if IsFaithful(rest) {
      forall i | 0 <= i < |data| ensures IsBreak(data[i]) ==> data[i] == '\n' {
        if i > |line| { assert data[i] == rest[i - |line| - 1]; }
      }
    }
  }

  lemma {:induction false} JoinFirst(data: string)
    requires FirstBreak(data) < |data|
    ensures var k := FirstBreak(data);
            var rest := data[k + BreakWidth(data, k)..];
            Join(SplitLines(data), "\n") == if rest == "" then data[..k] else data[..k] + "\n" + Join(SplitLines(rest), "\n")
  {
    hide FirstBreak, BreakWidth, Join;
    var k := FirstBreak(data);
    var rest := data[k + BreakWidth(data, k)..];
    JoinCons(data[..k], SplitLines(rest));
    if rest != "" { SplitNotEmpty(rest); }
  }

  /** A break other than a single LF before the end is lost. */
  lemma OtherBreakIsLost(data: string, k: nat, w: nat, rest: string, joined: string)
    requires k < |data| && w == BreakWidth(data, k) && IsBreak(data[k]) && rest == data[k + w..]
    requires rest == "" || data[k] != '\n'
    requires |joined| <= |rest|
    ensures !IsFaithful(data)
    ensures rest == "" ==> data[..k] != data
    ensures rest != "" ==> data[..k] + "\n" + joined != data
  {
    if rest != "" {
      var back := data[..k] + "\n" + joined;
      assert back[k] == '\n';
    } else {
      assert k + w == |data|;
    }
  }

  /** Cutting at line breaks and joining with LF gives the data back if and only if all their
      line breaks are LF and they do not end with one. */
  lemma {:induction false} JoinGivesBack(data: string)
    ensures Join(DataLines(data), "\n") == data <==> IsFaithful(data)
    decreases |data|
  {
    hide Join, SplitLines, IsFaithful, FirstBreak;
    var k := FirstBreak(data);
    if data == "" || k == |data| {
      UnbrokenComesBack(data);
    } else {
      var w := BreakWidth(data, k);
      var rest := data[k + w..];
      JoinFirst(data);
      JoinIsShort(rest);
      if rest == "" || data[k] != '\n' {
        OtherBreakIsLost(data, k, w, rest, Join(SplitLines(rest), "\n"));
      } else {
        JoinGivesBack(rest);
        assert data == data[..k] + "\n" + rest;
        FaithfulSplits(data[..k], rest);
      }
    }
  }

  lemma UnbrokenComesBack(data: string)
    requires data == "" || FirstBreak(data) == |data|
    ensures Join(DataLines(data), "\n") == data && IsFaithful(data)
  {
    if data != "" { assert data[..|data|] == data; }
  }

  /** The client gets exactly the original data if and only if these have no other line break
      than LF and do not end with one. */
  lemma DataComeBack(name: string, data: string)
    requires name != "" && IsLine(name)
    ensures ParseFrame(Print(name, data)) == Some(Event(name, data)) <==> IsFaithful(data)
  {
    hide ParseFrame, Print, DataLines, IsFaithful;
    PrintedFrameParses(name, data);
    JoinGivesBack(data);
  }

  // ---------- the event stream of the standard ----------

  /** The complete lines of a stream: a CR LF pair, a single LF or a single CR ends a line, and
      an unfinished line is not interpreted. */
  function StreamLines(s: string): seq<string>
    decreases |s|
  {
    var k := LineEnd(s);
    if k == |s| then []
    else
      var w := if s[k] == '\r' && k + 1 < |s| && s[k + 1] == '\n' then 2 else 1;
      [s[..k]] + StreamLines(s[k + w..])
  }

  /** The events that the lines dispatch, from the given event type and data buffers. */
  function Dispatch(lines: seq<string>, name: string, data: string): seq<Event>
    decreases |lines|
  {
    if lines == [] then []
    else
      var line, rest := lines[0], lines[1..];
      if line == "" then
        if data == "" then Dispatch(rest, "", "")
        else
          var end := if data[|data| - 1] == '\n' then |data| - 1 else |data|;
          [Event(if name == "" then "message" else name, data[..end])] + Dispatch(rest, "", "")
      else if line[0] == ':' then Dispatch(rest, name, data)
      else if FieldOf(line) == "event" then Dispatch(rest, ValueOf(line), data)
      else if FieldOf(line) == "data" then Dispatch(rest, name, data + ValueOf(line) + "\n")
      else Dispatch(rest, name, data)
  }

  lemma {:induction false} StreamLine(line: string, rest: string)
    requires IsLine(line)
    ensures StreamLines(line + "\n" + rest) == [line] + StreamLines(rest)
  {
    hide LineEnd;
    var s := line + "\n" + rest;
    assert s[..|line|] == line && s[|line|] == '\n' && s[|line| + 1..] == rest;
    LineEndUnique(s, |line|);
  }

  lemma {:induction false} StreamClosed(lines: seq<string>, rest: string)
    requires AreLines(lines)
    ensures StreamLines(Closed(lines) + rest) == lines + StreamLines(rest)
  {
    hide StreamLines, IsLine;
    if lines == [] {
      assert Closed(lines) + rest == rest;
    } else {
      StreamClosed(lines[1..], rest);
      assert Closed(lines) + rest == lines[0] + "\n" + (Closed(lines[1..]) + rest);
      StreamLine(lines[0], Closed(lines[1..]) + rest);
    }
  }

  lemma {:induction false} DispatchField(field: string, text: string, rest: seq<string>, name: string, data: string)
    requires field in {"event", "data"}
    ensures Dispatch([field + ": " + text] + rest, name, data)
         == if field == "event" then Dispatch(rest, text, data) else Dispatch(rest, name, data + text + "\n")
  {
    hide FieldOf, ValueOf;
    FieldParts(field, text);
    assert ([field + ": " + text] + rest)[1..] == rest;
  }

  lemma {:induction false} DispatchData(lines: seq<string>, rest: seq<string>, name: string, data: string)
    ensures Dispatch(Prefixed("data: ", lines) + rest, name, data) == Dispatch(rest, name, data + Closed(lines))
    decreases |lines|
  {
    hide Dispatch;
    if lines == [] {
      assert Prefixed("data: ", lines) + rest == rest && data + "" == data;
    } else {
      var more := Prefixed("data: ", lines[1..]);
      assert "data" + ": " + lines[0] == "data: " + lines[0];
      assert Prefixed("data: ", lines) + rest == ["data: " + lines[0]] + (more + rest);
      DispatchField("data", lines[0], more + rest, name, data);
      DispatchData(lines[1..], rest, name, data + lines[0] + "\n");
      assert data + lines[0] + "\n" + Closed(lines[1..]) == data + Closed(lines);
    }
  }

  lemma {:induction false} DispatchBlank(rest: seq<string>, name: string, text: string)
    requires name != ""
    ensures Dispatch([""] + rest, name, text + "\n") == [Event(name, text)] + Dispatch(rest, "", "")
  {
    assert ([""] + rest)[1..] == rest;
    assert (text + "\n")[..|text|] == text;
  }

  /** One printed event, and what follows it. */
  lemma PrintedEventDispatches(name: string, data: string, rest: string)
    requires name != "" && IsLine(name)
    ensures Dispatch(StreamLines(Print(name, data) + rest), "", "")
         == [Event(name, Join(DataLines(data), "\n"))] + Dispatch(StreamLines(rest), "", "")
  {
    hide Dispatch, StreamLines, DataLines, IsLine, Join, Closed;
    var payload, lines, after := Payload(name, data), DataLines(data), StreamLines(rest);
    var fields := Prefixed("data: ", lines);
    PrintIsClosed(name, data);
    PayloadIsLines(name, data);
    assert Print(name, data) + rest == Closed(payload) + ("" + "\n" + rest);
    StreamClosed(payload, "" + "\n" + rest);
    EmptyIsLine();
    StreamLine("", rest);
    assert payload + ([""] + after) == ["event: " + name] + (fields + ([""] + after));
    assert "event" + ": " + name == "event: " + name;
    DispatchField("event", name, fields + ([""] + after), "", "");
    DispatchData(lines, [""] + after, name, "");
    DataLinesAreLines(data);
    JoinIsClosed(lines);
    assert "" + Closed(lines) == Closed(lines);
    DispatchBlank(after, name, Join(lines, "\n"));
  }

  function PrintAll(events: seq<Event>): string {
    if events == [] then "" else Print(events[0].name, events[0].data) + PrintAll(events[1..])
  }

  function Received(events: seq<Event>): seq<Event> {
    if events == [] then [] else [Event(events[0].name, Join(DataLines(events[0].data), "\n"))] + Received(events[1..])
  }

  predicate AreNamed(events: seq<Event>) {
    forall i | 0 <= i < |events| :: events[i].name != "" && IsLine(events[i].name)
  }

  /** A browser that follows the standard dispatches exactly the printed events, in order, each
      with its data lines joined by LF. */
  lemma {:induction false} StreamRoundTrip(events: seq<Event>)
    requires AreNamed(events)
    ensures Dispatch(StreamLines(PrintAll(events)), "", "") == Received(events)
  {
    hide Dispatch, StreamLines, DataLines, IsLine, Join, Print;
    if events == [] {
      NoLines();
    } else {
      PrintedEventDispatches(events[0].name, events[0].data, PrintAll(events[1..]));
      StreamRoundTrip(events[1..]);
    }
  }

  lemma NoLines()
    ensures Dispatch(StreamLines(""), "", "") == []
  {
  }

  /** All events of a stream come back unchanged if and only if all their data are faithful. */
  lemma {:induction false} StreamComesBack(events: seq<Event>)
    requires AreNamed(events)
    ensures Dispatch(StreamLines(PrintAll(events)), "", "") == events <==> forall i | 0 <= i < |events| :: IsFaithful(events[i].data)
  {
    hide Dispatch, StreamLines, PrintAll, IsFaithful;
    StreamRoundTrip(events);
    ReceivedBack(events);
  }

  lemma {:induction false} ReceivedBack(events: seq<Event>)
    ensures Received(events) == events <==> forall i | 0 <= i < |events| :: IsFaithful(events[i].data)
  {
    hide IsFaithful, DataLines, Join;
    if events != [] {
      var rest := events[1..];
      JoinGivesBack(events[0].data);
      ReceivedBack(rest);
      assert events == [events[0]] + rest && Received(events)[1..] == Received(rest);
      assert forall i | 0 <= i < |rest| :: rest[i] == events[i + 1];
      if Received(events) == events {
        assert Received(events)[0] == events[0];
        forall i | 0 <= i < |events| ensures IsFaithful(events[i].data) {
          if i > 0 { assert events[i] == rest[i - 1]; }
        }
      }
    }
  }

  // ---------- the client's parser and the standard ----------

  /** The frame read so far is what the buffers of the standard hold. */
  predicate IsBuffered(f: Frame, name: string, data: string) {
    f.name == (if name == "" then "message" else name) && data == Closed(f.lines)
  }

  function Events(r: Option<Event>): seq<Event> {
    match r
    case None => []
    case Some(e) => [e]
  }

  lemma DispatchFinishes(f: Frame, name: string, data: string)
    requires IsBuffered(f, name, data)
    ensures Dispatch([""], name, data) == Events(Finish(f))
  {
    hide Join;
    assert [""][1..] == [];
    if f.lines != [] {
      JoinIsClosed(f.lines);
      assert data[..|data| - 1] == Join(f.lines, "\n");
    }
  }

  lemma BufferedStep(f: Frame, name: string, data: string, line: string, rest: seq<string>)
      returns (name': string, data': string)
    requires IsBuffered(f, name, data) && line != ""
    ensures IsBuffered(FrameStep(f, line), name', data')
    ensures Dispatch([line] + rest, name, data) == Dispatch(rest, name', data')
  {
    hide FieldOf, ValueOf;
    assert ([line] + rest)[1..] == rest;
    name', data' := name, data;
    if line[0] != ':' {
      if FieldOf(line) == "event" {
        name' := ValueOf(line);
      } else if FieldOf(line) == "data" {
        data' := data + ValueOf(line) + "\n";
        ClosedMore(f.lines, ValueOf(line));
      }
    }
  }

  lemma {:induction false} ClosedMore(lines: seq<string>, last: string)
    ensures Closed(lines + [last]) == Closed(lines) + last + "\n"
  {
    if lines == [] {
      assert [last][1..] == [];
      assert "" + last + "\n" == last + "\n" + "";
    } else {
      assert (lines + [last])[1..] == lines[1..] + [last];
      ClosedMore(lines[1..], last);
      assert lines[0] + "\n" + (Closed(lines[1..]) + last + "\n") == Closed(lines) + last + "\n";
    }
  }

  lemma {:induction false} FrameDispatches(f: Frame, name: string, data: string, lines: seq<string>)
    requires IsBuffered(f, name, data) && "" !in lines
    ensures Dispatch(lines + [""], name, data) == Events(Finish(FrameOf(f, lines)))
    decreases |lines|
  {
    hide Dispatch, FrameStep, IsBuffered, Finish;
    if lines == [] {
      assert lines + [""] == [""];
      DispatchFinishes(f, name, data);
    } else {
      var rest := lines[1..];
      assert lines[0] in lines && forall line | line in rest :: line in lines;
      assert lines + [""] == [lines[0]] + (rest + [""]);
      var name', data' := BufferedStep(f, name, data, lines[0], rest + [""]);
      FrameDispatches(FrameStep(f, lines[0]), name', data', rest);
    }
  }

  lemma {:induction false} StreamOfParts(s: string)
    requires '\r' !in s
    ensures StreamLines(s + "\n") == SplitLf(s)
    decreases |s|
  {
    hide StreamLines, IndexOf;
    var i := IndexOf(s, '\n');
    if i == -1 {
      StreamLine(s, "");
      assert s + "\n" + "" == s + "\n";
      assert StreamLines("") == [] by { NothingStreams(); }
    } else {
      var line, rest := s[..i], s[i + 1..];
      assert forall k | 0 <= k < |rest| :: rest[k] == s[i + 1 + k];
      StreamOfParts(rest);
      StreamLine(line, rest + "\n");
      assert s + "\n" == line + "\n" + (rest + "\n");
    }
  }

  lemma NothingStreams()
    ensures StreamLines("") == []
  {
  }

  /** The client reads any frame without CR and without blank lines, printed or not, as a browser
      that follows the standard dispatches it: comments and unknown fields are skipped, the last
      event field counts, and without a data field there is no event. */
  lemma ParserFollowsStandard(frame: string)
    requires '\r' !in frame && "" !in SplitLf(frame)
    ensures Dispatch(StreamLines(frame + "\n\n"), "", "") == Events(ParseFrame(frame))
  {
    hide Dispatch, StreamLines, SplitLf, FrameOf, Finish;
    var parts := SplitLf(frame);
    StreamOfParts(frame + "\n");
    assert frame + "\n" + "\n" == frame + "\n\n";
    SplitLfBehind(frame);
    FrameDispatches(Frame("message", []), "", "", parts);
  }

  lemma SplitLfBehindLine(line: string, rest: string)
    requires '\n' !in line && SplitLf(rest + "\n") == SplitLf(rest) + [""]
    ensures SplitLf(line + "\n" + rest + "\n") == SplitLf(line + "\n" + rest) + [""]
  {
    hide SplitLf;
    SplitLfLine(line, rest);
    SplitLfLine(line, rest + "\n");
    assert line + "\n" + rest + "\n" == line + "\n" + (rest + "\n");
  }

  lemma SplitLfBehindLast(line: string)
    requires '\n' !in line
    ensures SplitLf(line + "\n") == SplitLf(line) + [""]
  {
    SplitLfLine(line, "");
    assert line + "\n" + "" == line + "\n";
    SplitLfSize(line);
    SplitLfSize("");
  }

  lemma {:induction false} SplitLfBehind(s: string)
    ensures SplitLf(s + "\n") == SplitLf(s) + [""]
    decreases |s|
  {
    hide IndexOf, SplitLf;
    var i := IndexOf(s, '\n');
    if i == -1 {
      SplitLfBehindLast(s);
    } else {
      SplitLfBehind(s[i + 1..]);
      SplitLfBehindLine(s[..i], s[i + 1..]);
      assert s == s[..i] + "\n" + s[i + 1..];
    }
  }

  // ---------- what the page makes of an event ----------

  /** The page hands its parser a frame that it puts together from an event of the stream. */
  function Rewrap(name: string, data: string): string {
    "event: " + name + "\n" + "data: " + data
  }

  lemma {:induction false} ValueIsShorter(line: string)
    ensures FieldOf(line) == "data" ==> |ValueOf(line)| < |line|
  {
    hide IndexOf;
  }

  lemma {:induction false} ClosedAppend(lines: seq<string>, last: string)
    ensures |Closed(lines + [last])| == |Closed(lines)| + |last| + 1
  {
    if lines == [] {
      assert [last][1..] == [];
    } else {
      assert (lines + [last])[1..] == lines[1..] + [last];
      ClosedAppend(lines[1..], last);
    }
  }

  /** What is read from further lines is shorter than the lines. */
  lemma {:induction false} FrameIsShorter(f: Frame, lines: seq<string>)
    ensures |Closed(FrameOf(f, lines).lines)| <= |Closed(f.lines)| + |Closed(lines)|
    ensures lines != [] ==> |Closed(FrameOf(f, lines).lines)| < |Closed(f.lines)| + |Closed(lines)|
    ensures |FrameOf(f, lines).lines| >= |f.lines|
    decreases |lines|
  {
    hide FieldOf, ValueOf;
    if lines != [] {
      ValueIsShorter(lines[0]);
      ClosedAppend(f.lines, ValueOf(lines[0]));
      FrameIsShorter(FrameStep(f, lines[0]), lines[1..]);
    }
  }

  lemma {:induction false} SplitLfSize(s: string)
    ensures |Closed(SplitLf(s))| == |s| + 1
    ensures |SplitLf(s)| == 1 <==> '\n' !in s
    ensures '\n' !in s ==> SplitLf(s) == [s]
    decreases |s|
  {
    hide IndexOf;
    var i := IndexOf(s, '\n');
    if i == -1 {
      assert [s][1..] == [];
    } else {
      SplitLfSize(s[i + 1..]);
      assert ([s[..i]] + SplitLf(s[i + 1..]))[1..] == SplitLf(s[i + 1..]);
    }
  }

  lemma {:induction false} SplitLfPrefix(prefix: string, s: string)
    requires '\n' !in prefix
    ensures SplitLf(prefix + s) == [prefix + SplitLf(s)[0]] + SplitLf(s)[1..]
  {
    hide IndexOf;
    var i := IndexOf(s, '\n');
    if i == -1 {
      SplitLfSize(s);
      SplitLfSize(prefix + s);
    } else {
      assert '\n' !in s[..i] && '\n' !in prefix + s[..i];
      assert s == s[..i] + "\n" + s[i + 1..];
      assert prefix + s == (prefix + s[..i]) + "\n" + s[i + 1..];
      SplitLfLine(s[..i], s[i + 1..]);
      SplitLfLine(prefix + s[..i], s[i + 1..]);
    }
  }

  /** A rebuilt frame gives its data back when they are on one line; otherwise some are lost. */
  lemma {:induction false} RewrapParses(name: string, data: string)
    requires name != "" && '\n' !in name
    ensures var r := ParseFrame(Rewrap(name, data));
            r.Some? && (if '\n' in data then |r.value.data| < |data| else r == Some(Event(name, data)))
  {
    hide FrameStep, SplitLf, Closed, Join;
    var parts := SplitLf(data);
    var first, start := Frame("message", []), Frame(name, [parts[0]]);
    assert Rewrap(name, data) == ("event: " + name) + "\n" + ("data: " + data);
    SplitLfLine("event: " + name, "data: " + data);
    SplitLfPrefix("data: ", data);
    assert SplitLf(Rewrap(name, data)) == ["event: " + name] + (["data: " + parts[0]] + parts[1..]);
    FrameOfAppend(first, ["event: " + name], ["data: " + parts[0]] + parts[1..]);
    FrameOfAppend(Frame(name, []), ["data: " + parts[0]], parts[1..]);
    EventLineStep(first, name);
    OneLine(first, "event: " + name);
    DataLineStep(Frame(name, []), parts[0]);
    OneLine(Frame(name, []), "data: " + parts[0]);
    assert [] + [parts[0]] == [parts[0]];
    SplitLfSize(data);
    RewrapFinishes(start, parts);
  }

  lemma {:induction false} RewrapFinishes(start: Frame, parts: seq<string>)
    requires parts != [] && start.lines == [parts[0]]
    ensures var r := Finish(FrameOf(start, parts[1..]));
            r.Some? && (if |parts| == 1 then r == Some(Event(start.name, parts[0])) else |r.value.data| + 1 < |Closed(parts)|)
  {
    hide FrameStep;
    var lines := FrameOf(start, parts[1..]).lines;
    FrameIsShorter(start, parts[1..]);
    assert Closed([parts[0]]) == parts[0] + "\n" + "" by { assert [parts[0]][1..] == []; }
    assert Closed(parts) == parts[0] + "\n" + Closed(parts[1..]);
    JoinIsClosed(lines);
    if |parts| == 1 { assert parts[1..] == []; }
  }

  lemma {:induction false} OneLineComesBack(data: string)
    requires HasNoBreak(data)
    ensures Join(DataLines(data), "\n") == data
  {
    Text.SplitLine(data, "");
  }

  lemma ReceivedIsShort(data: string)
    ensures |Join(DataLines(data), "\n")| <= |data|
  {
    hide Join, SplitLines;
    JoinIsShort(data);
    JoinOfOne("");
  }

  lemma JoinOfOne(line: string)
    ensures Join([line], "\n") == line
  {
  }

  lemma FaithfulLine(data: string)
    requires '\n' !in data
    ensures IsFaithful(data) <==> HasNoBreak(data)
  {
    if IsFaithful(data) {
      forall i | 0 <= i < |data| ensures !IsBreak(data[i]) {
        assert data[i] in data;
      }
    }
  }

  /** An event that was printed, dispatched by the browser and parsed again by the page is the
      original one if and only if its data have no line break at all, of whatever kind. */
  lemma {:induction false} PageSees(name: string, data: string)
    requires name != "" && IsLine(name)
    ensures ParseFrame(Rewrap(name, Join(DataLines(data), "\n"))) == Some(Event(name, data)) <==> HasNoBreak(data)
  {
    hide Join, DataLines, ParseFrame, Rewrap, HasNoBreak, IsFaithful;
    var received := Join(DataLines(data), "\n");
    LineHasNoLf(name);
    RewrapParses(name, received);
    ReceivedIsShort(data);
    JoinGivesBack(data);
    if HasNoBreak(data) {
      OneLineComesBack(data);
      NoBreakNoLf(data);
    } else if '\n' !in received && received == data {
      FaithfulLine(data);
    }
  }

  lemma LineHasNoLf(name: string)
    requires IsLine(name)
    ensures '\n' !in name
  {
  }

  lemma NoBreakNoLf(data: string)
    requires HasNoBreak(data)
    ensures '\n' !in data
  {
  }

  /** What the page reads from the events of a stream. */
  function Parsed(events: seq<Event>): seq<Option<Event>> {
    if events == [] then [] else [ParseFrame(Rewrap(events[0].name, events[0].data))] + Parsed(events[1..])
  }

  function Somes(events: seq<Event>): seq<Option<Event>> {
    if events == [] then [] else [Some(events[0])] + Somes(events[1..])
  }

  /** From printer to page: all events arrive as they were sent if and only if none of their
      data has a line break. */
  lemma {:induction false} PageSeesAll(events: seq<Event>)
    requires AreNamed(events)
    ensures Parsed(Dispatch(StreamLines(PrintAll(events)), "", "")) == Somes(events)
       <==> forall i | 0 <= i < |events| :: HasNoBreak(events[i].data)
  {
    hide Dispatch, StreamLines, PrintAll, HasNoBreak, Parsed;
    StreamRoundTrip(events);
    ParsedBack(events);
  }

  lemma {:induction false} ParsedBack(events: seq<Event>)
    requires AreNamed(events)
    ensures Parsed(Received(events)) == Somes(events) <==> forall i | 0 <= i < |events| :: HasNoBreak(events[i].data)
  {
    hide HasNoBreak, DataLines, Join, ParseFrame, Rewrap, IsLine;
    if events != [] {
      var rest, all := events[1..], Received(events);
      PageSees(events[0].name, events[0].data);
      ParsedBack(rest);
      assert events == [events[0]] + rest && all[1..] == Received(rest);
      assert Parsed(all)[1..] == Parsed(Received(rest)) && Somes(events)[1..] == Somes(rest);
      assert Parsed(all) == [Parsed(all)[0]] + Parsed(Received(rest));
      assert forall i | 0 <= i < |rest| :: rest[i] == events[i + 1];
      if Parsed(all) == Somes(events) {
        assert Parsed(all)[0] == Somes(events)[0];
        forall i | 0 <= i < |events| ensures HasNoBreak(events[i].data) {
          if i > 0 { assert events[i] == rest[i - 1]; }
        }
      }
    }
  }
}
