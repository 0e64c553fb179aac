/**
 Server-sent events as the response parsers read them: lines of `bufio.Scanner`, of which `event: ` sets
 the current event name and `data: ` delivers one item under it; everything else is skipped. This is
 the subset of the WHATWG HTML Living Standard, sections 9.2.5 and 9.2.6, that the providers use: one
 data line per event, with a space after the colon, and a name that stays until it is replaced.

 A `string` is a Go string here: each `char` stands for one byte.
 */
module Sse {
  import opened Wrappers

  /** The longest line the scanner's 64 KiB buffer can return. */
  const MAX_LINE: nat := 65535

  const EVENT_PREFIX := "event: "
  const DATA_PREFIX := "data: "

  datatype Event = Event(name: string, data: string)

  // ---- bufio.Scanner ----------------------------------------------------------------------------

  /** Where the first line of the text ends. */
  function LineEnd(s: string): (n: nat)
    ensures n <= |s| && '\n' !in s[..n] && (n < |s| ==> s[n] == '\n')
  {
    if s == "" || s[0] == '\n' then 0
    else
      var n := 1 + LineEnd(s[1..]);
      assert s[..n] == [s[0]] + s[1..][..n - 1];
      n
  }

  function DropCR(s: string): string {
    if s != "" && s[|s| - 1] == '\r' then s[..|s| - 1] else s
  }

  /** The scanner stops silently at a line that does not fit its buffer. */
  function Lines(s: string): seq<string>
    decreases |s|
  {
    if s == "" then []
    else
      var n := LineEnd(s);
      if n > MAX_LINE then []
      else if n == |s| then [DropCR(s)]
      else [DropCR(s[..n])] + Lines(s[n + 1..])
  }

  // ---- The line loop ----------------------------------------------------------------------------

  predicate HasPrefix(s: string, prefix: string) {
    prefix <= s
  }

  function TrimPrefix(s: string, prefix: string): string {
    if prefix <= s then s[|prefix|..] else s
  }

  /** The data items seen by the loop, each with the event name in force. */
  function Dispatch(lines: seq<string>, current: string): seq<Event>
    decreases |lines|
  {
    if lines == [] then []
    else if HasPrefix(lines[0], EVENT_PREFIX) then Dispatch(lines[1..], TrimPrefix(lines[0], EVENT_PREFIX))
    else if !HasPrefix(lines[0], DATA_PREFIX) then Dispatch(lines[1..], current)
    else [Event(current, TrimPrefix(lines[0], DATA_PREFIX))] + Dispatch(lines[1..], current)
  }

  function EventsOf(body: string): seq<Event> {
    Dispatch(Lines(body), "")
  }

  /** The line loop of both parsers. */
  method ScanEvents(body: string) returns (events: seq<Event>)
    ensures events == EventsOf(body)
  {
    events := [];
    var current := "";
    var lines := Lines(body);
    for i := 0 to |lines|
      invariant EventsOf(body) == events + Dispatch(lines[i..], current)
    {
      var line := lines[i];
      assert lines[i..][1..] == lines[i + 1..];
      if HasPrefix(line, EVENT_PREFIX) {
        current := TrimPrefix(line, EVENT_PREFIX);
        continue;
      }
      if !HasPrefix(line, DATA_PREFIX) {
        continue;
      }
      ConsSnoc(events, Event(current, TrimPrefix(line, DATA_PREFIX)), Dispatch(lines[i + 1..], current));
      events := events + [Event(current, TrimPrefix(line, DATA_PREFIX))];
    }
  }

  /** The name of the last event line so far, or the one from before. */
  ghost predicate IsNameInForce(lines: seq<string>, current: string, name: string) {
    || (name == current && forall j :: 0 <= j < |lines| ==> !("event: " <= lines[j]))
    || exists k :: 0 <= k < |lines| && lines[k] == "event: " + name
                   && forall j :: k < j < |lines| ==> !("event: " <= lines[j])
  }

  /** Line by line: just a data line delivers something, namely what follows its prefix, under the name in force. */
  lemma {:induction false} DispatchSnoc(lines: seq<string>, line: string, current: string, name: string)
    requires IsNameInForce(lines, current, name)
    ensures Dispatch(lines + [line], current)
         == Dispatch(lines, current) + if "data: " <= line then [Event(name, line[6..])] else []
    decreases |lines|
  {
    var all := lines + [line];
    if lines == [] {
      assert all[1..] == [];
      if "data: " <= line {
        assert line[0] == 'd';
      }
    } else {
      assert all[1..] == lines[1..] + [line];
      var next := if "event: " <= lines[0] then lines[0][7..] else current;
      NameInRest(lines, current, name);
      DispatchSnoc(lines[1..], line, next, name);
      if "data: " <= lines[0] {
        assert lines[0][0] == 'd';
      }
    }
  }

  lemma NameInRest(lines: seq<string>, current: string, name: string)
    requires lines != [] && IsNameInForce(lines, current, name)
    ensures IsNameInForce(lines[1..], if "event: " <= lines[0] then lines[0][7..] else current, name)
  {
    if k :| 0 <= k < |lines| && lines[k] == "event: " + name
            && forall j :: k < j < |lines| ==> !("event: " <= lines[j]) {
      if k == 0 {
        assert lines[0][7..] == name;
      } else {
        assert lines[1..][k - 1] == "event: " + name;
      }
    }
  }

  // ---- Printing and parsing ---------------------------------------------------------------------

  function Print(events: seq<Event>): string {
    if events == [] then ""
    else EVENT_PREFIX + events[0].name + "\n" + DATA_PREFIX + events[0].data + "\n\n" + Print(events[1..])
  }

  /** A text that survives as one line: no line feed, no carriage return at its end, within the buffer. */
  predicate OneLine(s: string) {
    '\n' !in s && |s| <= MAX_LINE && (s == "" || s[|s| - 1] != '\r')
  }

  predicate Printable(e: Event) {
    OneLine(EVENT_PREFIX + e.name) && OneLine(DATA_PREFIX + e.data)
  }

  lemma {:induction false} LineEndAt(line: string, rest: string)
    requires '\n' !in line
    ensures LineEnd(line + "\n" + rest) == |line|
    decreases |line|
  {
    var s := line + "\n" + rest;
    if line == "" {
    } else {
      assert s[1..] == line[1..] + "\n" + rest;
      LineEndAt(line[1..], rest);
    }
  }

  lemma FirstLine(line: string, rest: string)
    requires OneLine(line)
    ensures Lines(line + "\n" + rest) == [line] + Lines(rest)
  {
    LineEndAt(line, rest);
    assert (line + "\n" + rest)[..|line|] == line;
    assert (line + "\n" + rest)[|line| + 1..] == rest;
  }

  /** One carriage return before the line feed is dropped. */
  lemma CarriageReturnIsDropped(line: string, rest: string)
    requires OneLine(line) && |line| < MAX_LINE
    ensures Lines(line + "\r" + "\n" + rest) == [line] + Lines(rest)
  {
    var cr := line + "\r";
    assert cr[..|cr| - 1] == line;
    LineEndAt(cr, rest);
    assert (cr + "\n" + rest)[..|cr|] == cr && (cr + "\n" + rest)[|cr| + 1..] == rest;
  }

  /** The last line may lack its line feed, and a carriage return at its end is dropped too. */
  lemma LastLine(line: string)
    requires OneLine(line) && |line| < MAX_LINE
    ensures line != "" ==> Lines(line) == [line]
    ensures Lines(line + "\r") == [line]
  {
    var cr := line + "\r";
    assert cr[..|cr| - 1] == line;
    WholeLine(cr);
    WholeLine(line);
  }

  lemma {:induction false} WholeLine(line: string)
    requires '\n' !in line
    ensures LineEnd(line) == |line|
    decreases |line|
  {
    if line == "" {
    } else {
      WholeLine(line[1..]);
    }
  }

  lemma PrintedEvent(e: Event, rest: string, current: string)
    requires Printable(e)
    ensures Dispatch(Lines(EVENT_PREFIX + e.name + "\n" + DATA_PREFIX + e.data + "\n\n" + rest), current)
         == [e] + Dispatch(Lines(rest), e.name)
  {
    var line1, line2 := EVENT_PREFIX + e.name, DATA_PREFIX + e.data;
    var more := line2 + "\n" + ("" + "\n" + rest);
    assert line1 + "\n" + DATA_PREFIX + e.data + "\n\n" + rest == line1 + "\n" + more;
    FirstLine(line1, more);
    FirstLine(line2, "" + "\n" + rest);
    FirstLine("", rest);
    DispatchEvent(line1, Lines(more), current);
    DispatchData(line2, Lines("" + "\n" + rest), e.name);
    DispatchBlank(Lines(rest), e.name);
    assert line1[|EVENT_PREFIX|..] == e.name && line2[|DATA_PREFIX|..] == e.data;
  }

  lemma DispatchEvent(line: string, more: seq<string>, current: string)
    requires HasPrefix(line, EVENT_PREFIX)
    ensures Dispatch([line] + more, current) == Dispatch(more, line[|EVENT_PREFIX|..])
  {
    assert ([line] + more)[1..] == more;
  }

  lemma DispatchData(line: string, more: seq<string>, current: string)
    requires HasPrefix(line, DATA_PREFIX)
    ensures Dispatch([line] + more, current) == [Event(current, line[|DATA_PREFIX|..])] + Dispatch(more, current)
  {
    assert ([line] + more)[1..] == more;
    assert line[0] == 'd';
  }

  lemma DispatchBlank(more: seq<string>, current: string)
    ensures Dispatch([""] + more, current) == Dispatch(more, current)
  {
    assert ([""] + more)[1..] == more;
  }

  /** Round trip: the loop sees exactly the printed items, each with its event name. */
  lemma {:induction false} ParseInvertsPrint(events: seq<Event>, current: string)
    requires forall e <- events :: Printable(e)
    ensures Dispatch(Lines(Print(events)), current) == events
    decreases |events|
  {
    if events == [] {
    } else {
      PrintedEvent(events[0], Print(events[1..]), current);
      ParseInvertsPrint(events[1..], events[0].name);
    }
  }

  /** A line over the limit is not an error: it hides itself and everything after it. */
  lemma {:induction false} OverlongLineHidesTheRest(events: seq<Event>, current: string, long: string, rest: string)
    requires forall e <- events :: Printable(e)
    requires '\n' !in long && |long| > MAX_LINE
    ensures Dispatch(Lines(Print(events) + (long + "\n" + rest)), current) == events
    decreases |events|
  {
    var tail := long + "\n" + rest;
    if events == [] {
      assert Print(events) + tail == tail;
      LineEndAt(long, rest);
    } else {
      var e := events[0];
      assert Print(events) + tail
          == EVENT_PREFIX + e.name + "\n" + DATA_PREFIX + e.data + "\n\n" + (Print(events[1..]) + tail);
      PrintedEvent(e, Print(events[1..]) + tail, current);
      OverlongLineHidesTheRest(events[1..], e.name, long, rest);
    }
  }

  // ---- Telling a stream from a JSON document ----------------------------------------------------

  function TrimLeft(s: string): string {
    if s != "" && s[0] in {' ', '\t', '\r', '\n'} then TrimLeft(s[1..]) else s
  }

  predicate IsSse(body: string) {
    HasPrefix(TrimLeft(body), "event:") || HasPrefix(TrimLeft(body), "data:")
  }

  /** White space, and then one of the two prefixes. */
  ghost predicate EventsStartAt(body: string, k: int) {
    && 0 <= k <= |body|
    && (forall j :: 0 <= j < k ==> body[j] in {' ', '\t', '\r', '\n'})
    && ("event:" <= body[k..] || "data:" <= body[k..])
  }

  lemma {:induction false} IsSseExactlyWhen(body: string)
    ensures IsSse(body) <==> exists k :: EventsStartAt(body, k)
    decreases |body|
  {
    if body == "" {
    } else if body[0] in {' ', '\t', '\r', '\n'} {
      var rest := body[1..];
      IsSseExactlyWhen(rest);
      if k :| EventsStartAt(rest, k) {
        assert body[k + 1..] == rest[k..];
        assert EventsStartAt(body, k + 1);
      }
      if k :| EventsStartAt(body, k) {
        assert k > 0 && body[k..] == rest[k - 1..];
        assert EventsStartAt(rest, k - 1);
      }
    } else {
      assert body[0..] == body;
      assert IsSse(body) ==> EventsStartAt(body, 0);
    }
  }

  lemma PrintedIsSse(events: seq<Event>)
    requires events != []
    ensures IsSse(Print(events))
  {
    assert Print(events)[0] == 'e';
    assert EVENT_PREFIX[..6] == "event:";
    assert Print(events)[..6] == EVENT_PREFIX[..6];
  }

  // ---- Last-wins reading ------------------------------------------------------------------------

  /** The value of the last event of that name that decodes. */
  function Last<T>(events: seq<Event>, name: string, decode: string -> Option<T>): Option<T> {
    if events == [] then None
    else
      var n := |events| - 1;
      if events[n].name == name && decode(events[n].data).Some? then decode(events[n].data)
      else Last(events[..n], name, decode)
  }

  ghost predicate IsLastAt<T(!new)>(events: seq<Event>, name: string, decode: string -> Option<T>, i: int) {
    && 0 <= i < |events| && events[i].name == name && decode(events[i].data).Some?
    && forall j :: i < j < |events| ==> events[j].name != name || decode(events[j].data).None?
  }

  /** The value of the last readable event of that name, and none if there is no such event. */
  ghost predicate IsLastReadable<T(!new)>(events: seq<Event>, name: string, decode: string -> Option<T>, o: Option<T>) {
    if o.Some? then exists i :: IsLastAt(events, name, decode, i) && decode(events[i].data) == o
    else forall i :: 0 <= i < |events| ==> events[i].name != name || decode(events[i].data).None?
  }

  lemma {:induction false} LastIsLastReadable<T(!new)>(events: seq<Event>, name: string, decode: string -> Option<T>)
    ensures IsLastReadable(events, name, decode, Last(events, name, decode))
    decreases |events|
  {
    if events == [] {
    } else {
      var n := |events| - 1;
      LastIsLastReadable(events[..n], name, decode);
      if events[n].name == name && decode(events[n].data).Some? {
        assert IsLastAt(events, name, decode, n);
      } else if Last(events[..n], name, decode).Some? {
        var i :| IsLastAt(events[..n], name, decode, i)
          && decode(events[..n][i].data) == Last(events[..n], name, decode);
        assert IsLastAt(events, name, decode, i);
      } else {
        assert forall i :: 0 <= i < n ==> events[i] == events[..n][i];
      }
    }
  }

  lemma {:induction false} LastIs<T>(events: seq<Event>, name: string, decode: string -> Option<T>, i: nat)
    requires i < |events| && events[i].name == name && decode(events[i].data).Some?
    requires forall j :: i < j < |events| ==> events[j].name != name || decode(events[j].data).None?
    ensures Last(events, name, decode) == decode(events[i].data)
    decreases |events|
  {
    if i == |events| - 1 {
    } else {
      LastIs(events[..|events| - 1], name, decode, i);
    }
  }
}
