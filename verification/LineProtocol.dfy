/** The serial line protocol in both directions: the device's byte-at-a-time line
    assembler (device_protocol.c, device_link.c) and the host's search for the last
    protocol prefix on a line (device.rs). */
module LineProtocol {
  import opened Options
  import opened Sequences

  const PREFIX: string := "@esp32dash "

  /** What the assembler reports at one byte. */
  datatype Event = NoLine | Ready(line: string) | Overflow(size: nat)

  // -------------------------------------------------- what a byte stream should mean

  function Strip(s: string): string {
    if s == [] then [] else Strip(s[..|s| - 1]) + (if s[|s| - 1] == '\r' then [] else [s[|s| - 1]])
  }

  /** Index of the first newline, or the length when there is none. */
  function FirstNewline(s: string): (i: nat)
    ensures i <= |s|
    ensures forall j :: 0 <= j < i ==> s[j] != '\n'
    ensures i < |s| ==> s[i] == '\n'
  {
    if s == [] || s[0] == '\n' then 0 else 1 + FirstNewline(s[1..])
  }

  /** What follows the first newline. */
  function AfterFirst(s: string): string
    requires FirstNewline(s) < |s|
  {
    s[FirstNewline(s) + 1..]
  }

  /** The newline-terminated lines of s, in order. */
  function Lines(s: string): seq<string> {
    if FirstNewline(s) == |s| then [] else [s[..FirstNewline(s)]] + Lines(AfterFirst(s))
  }

  /** What follows the last newline. */
  function Tail(s: string): string {
    if FirstNewline(s) == |s| then s else Tail(AfterFirst(s))
  }

  /** A buffer of `max` bytes keeps a terminator, so it delivers lines below max. */
  function Report(max: nat, line: string): Event {
    if line == [] then NoLine else if |line| < max then Ready(line) else Overflow(|line|)
  }

  function Reports(max: nat, lines: seq<string>): seq<Event> {
    if lines == [] then []
    else
      var n := |lines| - 1;
      Reports(max, lines[..n]) + Told(max, lines[n])
  }

  lemma SnocSlices(s: string, c: char, i: nat)
    requires i <= |s|
    ensures (s + [c])[..i] == s[..i] && (s + [c])[i..] == s[i..] + [c]
    ensures i == |s| ==> (s + [c])[..i] == s
  {
  }

  lemma LinesUnfold(s: string)
    requires FirstNewline(s) < |s|
    ensures Lines(s) == [s[..FirstNewline(s)]] + Lines(AfterFirst(s))
  {
  }

  lemma TailUnfold(s: string)
    requires FirstNewline(s) < |s|
    ensures Tail(s) == Tail(AfterFirst(s))
  {
  }

  /** Cutting at the first newline. */
  lemma LinesCut(s: string, i: nat)
    requires i < |s| && FirstNewline(s) == i
    ensures Lines(s) == [s[..i]] + Lines(s[i + 1..])
  {
    var rest := AfterFirst(s);
    assert rest == s[i + 1..];
    LinesUnfold(s);
  }

  lemma TailCut(s: string, i: nat)
    requires i < |s| && FirstNewline(s) == i
    ensures Tail(s) == Tail(s[i + 1..])
  {
    var rest := AfterFirst(s);
    assert rest == s[i + 1..];
    TailUnfold(s);
  }

  lemma LinesSnocEnd(s: string, c: char)
    requires FirstNewline(s) == |s|
    ensures Lines(s + [c]) == if c == '\n' then Lines(s) + [Tail(s)] else Lines(s)
    ensures Tail(s + [c]) == if c == '\n' then [] else Tail(s) + [c]
  {
    if c == '\n' {
      FirstNewlineIs(s + [c], |s|);
      SnocSlices(s, c, |s|);
      LinesCut(s + [c], |s|);
      TailCut(s + [c], |s|);
      assert (s + [c])[|s| + 1..] == [];
    }
  }

  lemma {:induction false} LinesSnoc(s: string, c: char)
    ensures Lines(s + [c]) == if c == '\n' then Lines(s) + [Tail(s)] else Lines(s)
    ensures Tail(s + [c]) == if c == '\n' then [] else Tail(s) + [c]
    decreases |s|
  {
    var i := FirstNewline(s);
    if i < |s| {
      LinesSnoc(s[i + 1..], c);
      LinesSnocLater(s, c, i);
    } else {
      LinesSnocEnd(s, c);
    }
  }

  lemma LinesSnocLater(s: string, c: char, i: nat)
    requires i < |s| && FirstNewline(s) == i
    requires var rest := s[i + 1..];
      && Lines(rest + [c]) == (if c == '\n' then Lines(rest) + [Tail(rest)] else Lines(rest))
      && Tail(rest + [c]) == (if c == '\n' then [] else Tail(rest) + [c])
    ensures Lines(s + [c]) == if c == '\n' then Lines(s) + [Tail(s)] else Lines(s)
    ensures Tail(s + [c]) == if c == '\n' then [] else Tail(s) + [c]
  {
    FirstNewlineIs(s + [c], i);
    SnocSlices(s, c, i);
    SnocSlices(s, c, i + 1);
    LinesCut(s, i);
    LinesCut(s + [c], i);
    TailCut(s, i);
    TailCut(s + [c], i);
    Associate([s[..i]], Lines(s[i + 1..]), [Tail(s[i + 1..])]);
  }

  lemma FirstNewlineIs(s: string, i: nat)
    requires i < |s| && s[i] == '\n' && forall j :: 0 <= j < i ==> s[j] != '\n'
    ensures FirstNewline(s) == i
  {
    var k := FirstNewline(s);
  }

  /** The reference: strip carriage returns, cut at newlines, report every line. */
  function Meaning(max: nat, stream: string): seq<Event> {
    Reports(max, Lines(Strip(stream)))
  }

  function Told(max: nat, line: string): seq<Event> {
    if line == [] then [] else [Report(max, line)]
  }

  /** What one more byte adds to the meaning of a stream. */
  lemma MeaningSnoc(max: nat, past: string, c: char)
    ensures c == '\r' ==> Tail(Strip(past + [c])) == Tail(Strip(past)) && Meaning(max, past + [c]) == Meaning(max, past)
    ensures c == '\n' ==> Tail(Strip(past + [c])) == []
    ensures c == '\n' ==> Meaning(max, past + [c]) == Meaning(max, past) + Told(max, Tail(Strip(past)))
    ensures c != '\r' && c != '\n' ==>
      Tail(Strip(past + [c])) == Tail(Strip(past)) + [c] && Meaning(max, past + [c]) == Meaning(max, past)
  {
    assert (past + [c])[..|past|] == past;
    if c == '\r' {
      assert Strip(past + [c]) == Strip(past);
    } else {
      var s := Strip(past);
      assert Strip(past + [c]) == s + [c];
      LinesSnoc(s, c);
      if c == '\n' {
        var lines := Lines(s);
        assert (lines + [Tail(s)])[..|lines|] == lines;
      }
    }
  }

  /** The assembler's progress: the current segment and the events so far. */
  datatype Progress = Progress(segment: string, events: seq<Event>)

  function Advance(max: nat, p: Progress, c: char): Progress {
    if c == '\r' then p
    else if c == '\n' then Progress([], p.events + Told(max, p.segment))
    else p.(segment := p.segment + [c])
  }

  function After(max: nat, stream: string): Progress {
    if stream == [] then Progress([], [])
    else Advance(max, After(max, stream[..|stream| - 1]), stream[|stream| - 1])
  }

  lemma AfterSnoc(max: nat, past: string, c: char)
    ensures After(max, past + [c]) == Advance(max, After(max, past), c)
  {
    assert (past + [c])[..|past|] == past;
  }

  /** Byte-at-a-time progress is the meaning of the stream. */
  lemma {:induction false} AfterIsMeaning(max: nat, stream: string)
    ensures After(max, stream).events == Meaning(max, stream)
    ensures After(max, stream).segment == Tail(Strip(stream))
    decreases |stream|
  {
    if stream != [] {
      var past, c := stream[..|stream| - 1], stream[|stream| - 1];
      AfterIsMeaning(max, past);
      MeaningSnoc(max, past, c);
      assert stream == past + [c];
    }
  }

  // ------------------------------------------------------------------ the assembler

  class LineAssembler {
    var line: array<char>
    var len: nat
    var dropped: nat
    var discarding: bool
    /** The current line as received so far, however long. */
    ghost var segment: string

    ghost predicate Valid()
      reads this, line
    {
      && 1 <= line.Length
      && if discarding
         then len == 0 && dropped == |segment| && line.Length <= |segment|
         else len < line.Length && dropped == 0 && segment == line[..len]
    }

    constructor (max: nat)
      requires 1 <= max
      ensures Valid() && fresh(line) && line.Length == max && segment == []
    {
      line := new char[max];
      len, dropped, discarding := 0, 0, false;
      segment := [];
    }

    /** One received byte. The event's text is what line holds at that moment. */
    method Feed(ch: char) returns (event: Event)
      requires Valid()
      modifies this, line
      ensures Valid() && line == old(line)
      ensures ch == '\r' ==> event == NoLine && segment == old(segment)
      ensures ch == '\n' ==> event == Report(line.Length, old(segment)) && segment == []
      ensures ch != '\r' && ch != '\n' ==> event == NoLine && segment == old(segment) + [ch]
    {
      event := NoLine;
      if ch == '\r' {
        return;
      }
      if ch == '\n' {
        if discarding {
          event := Overflow(dropped);
        } else if len > 0 {
          line[len] := '\0';
          event := Ready(line[..len]);
        }
        len, dropped, discarding := 0, 0, false;
        segment := [];
        return;
      }
      segment := segment + [ch];
      if discarding {
        dropped := dropped + 1;
      } else if len + 1 < line.Length {
        line[len] := ch;
        len := len + 1;
      } else {
        dropped := len + 1;
        discarding := true;
        len := 0;
      }
    }
  }

  function Concat(chunks: seq<string>): string {
    if chunks == [] then [] else Concat(chunks[..|chunks| - 1]) + chunks[|chunks| - 1]
  }

  /** The byte loop of the reader task, over one driver read. */
  method FeedChunk(a: LineAssembler, chunk: string, ghost past: string, events0: seq<Event>)
    returns (events: seq<Event>)
    requires a.Valid() && After(a.line.Length, past) == Progress(a.segment, events0)
    modifies a, a.line
    ensures a.Valid() && a.line == old(a.line)
    ensures After(a.line.Length, past + chunk) == Progress(a.segment, events)
  {
    events := events0;
    assert past + chunk[..0] == past;
    for i := 0 to |chunk|
      invariant a.Valid() && a.line == old(a.line)
      invariant After(a.line.Length, past + chunk[..i]) == Progress(a.segment, events)
    {
      assert past + chunk[..i + 1] == (past + chunk[..i]) + [chunk[i]];
      AfterSnoc(a.line.Length, past + chunk[..i], chunk[i]);
      var event := a.Feed(chunk[i]);
      if !event.NoLine? {
        events := events + [event];
      }
    }
    assert past + chunk[..|chunk|] == past + chunk;
  }

  /** The reader task over any way of cutting the stream into driver reads. */
  method ReadAll(max: nat, chunks: seq<string>) returns (events: seq<Event>)
    requires 1 <= max
    ensures events == Meaning(max, Concat(chunks))
  {
    var a := new LineAssembler(max);
    events := [];
    for k := 0 to |chunks|
      invariant a.Valid() && fresh(a) && fresh(a.line) && a.line.Length == max
      invariant After(max, Concat(chunks[..k])) == Progress(a.segment, events)
    {
      assert chunks[..k + 1][..k] == chunks[..k];
      events := FeedChunk(a, chunks[k], Concat(chunks[..k]), events);
    }
    assert chunks[..|chunks|] == chunks;
    AfterIsMeaning(max, Concat(chunks));
  }

  // ------------------------------------------------------------ host frames arriving

  predicate Plain(text: string) {
    forall c :: c in text ==> c != '\r' && c != '\n' && c != '\0'
  }

  /** encode_frame_line, for the frame's JSON text. */
  function EncodeLine(json: string): string {
    PREFIX + json + "\n"
  }

  function Wire(frames: seq<string>): string {
    if frames == [] then [] else Wire(frames[..|frames| - 1]) + EncodeLine(frames[|frames| - 1])
  }

  /** The C string a line buffer holds: it ends at the first NUL. */
  function CString(line: string): string {
    if line == [] || line[0] == '\0' then [] else [line[0]] + CString(line[1..])
  }

  /** process_protocol_line up to JSON parsing: the text it hands to the parser. */
  function Dispatch(line: string): Option<string> {
    var text := CString(line);
    if |PREFIX| <= |text| && text[..|PREFIX|] == PREFIX then Some(text[|PREFIX|..]) else None
  }

  /** The texts parsed for a list of events, in order. */
  function Dispatched(events: seq<Event>): seq<string> {
    if events == [] then []
    else
      var e := events[|events| - 1];
      Dispatched(events[..|events| - 1])
      + (if e.Ready? && Dispatch(e.line).Some? then [Dispatch(e.line).value] else [])
  }

  function Overflows(events: seq<Event>): seq<nat> {
    if events == [] then []
    else
      var e := events[|events| - 1];
      Overflows(events[..|events| - 1]) + (if e.Overflow? then [e.size] else [])
  }

  function Fitting(max: nat, frames: seq<string>): seq<string> {
    if frames == [] then []
    else
      var f := frames[|frames| - 1];
      Fitting(max, frames[..|frames| - 1]) + (if |PREFIX| + |f| < max then [f] else [])
  }

  function Oversized(max: nat, frames: seq<string>): seq<nat> {
    if frames == [] then []
    else
      var f := frames[|frames| - 1];
      Oversized(max, frames[..|frames| - 1]) + (if |PREFIX| + |f| < max then [] else [|PREFIX| + |f|])
  }

  lemma {:induction false} CStringPlain(s: string)
    requires '\0' !in s
    ensures CString(s) == s
    decreases |s|
  {
    if s != [] {
      CStringPlain(s[1..]);
    }
  }

  /** A line's bytes, fed one by one, only grow the current segment. */
  lemma {:induction false} LineGrows(max: nat, past: string, line: string)
    requires '\r' !in line && '\n' !in line
    ensures After(max, past + line) == After(max, past).(segment := After(max, past).segment + line)
    decreases |line|
  {
    if line == [] {
      assert past + line == past;
    } else {
      var u, c := line[..|line| - 1], line[|line| - 1];
      LineGrows(max, past, u);
      assert line == u + [c] && c in line;
      LineGrowsOne(max, past, u, c, After(max, past));
    }
  }

  lemma LineGrowsOne(max: nat, past: string, u: string, c: char, p: Progress)
    requires c != '\r' && c != '\n'
    requires After(max, past + u) == p.(segment := p.segment + u)
    ensures After(max, past + (u + [c])) == p.(segment := p.segment + (u + [c]))
  {
    Associate(past, u, [c]);
    Associate(p.segment, u, [c]);
    AfterSnoc(max, past + u, c);
  }

  /** One host frame, sent when the assembler is between lines. */
  lemma FrameEvent(max: nat, past: string, json: string)
    requires After(max, past).segment == [] && Plain(json)
    ensures After(max, past + EncodeLine(json)) == Progress([], After(max, past).events + [Report(max, PREFIX + json)])
  {
    var line := PREFIX + json;
    LineGrows(max, past, line);
    AfterSnoc(max, past + line, '\n');
    assert past + EncodeLine(json) == (past + line) + ['\n'];
    assert After(max, past).segment + line == line;
  }

  lemma DispatchFrame(json: string)
    requires Plain(json)
    ensures Dispatch(PREFIX + json) == Some(json)
  {
    CStringPlain(PREFIX + json);
    assert (PREFIX + json)[..|PREFIX|] == PREFIX && (PREFIX + json)[|PREFIX|..] == json;
  }

  lemma ReportedSnoc(max: nat, events: seq<Event>, json: string)
    requires Plain(json)
    ensures Dispatched(events + [Report(max, PREFIX + json)])
         == Dispatched(events) + (if |PREFIX| + |json| < max then [json] else [])
    ensures Overflows(events + [Report(max, PREFIX + json)])
         == Overflows(events) + (if |PREFIX| + |json| < max then [] else [|PREFIX| + |json|])
  {
    var e := Report(max, PREFIX + json);
    assert (events + [e])[..|events|] == events;
    DispatchFrame(json);
  }

  ghost predicate Arrived(before: Progress, after: Progress, max: nat, frames: seq<string>) {
    && after.segment == []
    && Dispatched(after.events) == Dispatched(before.events) + Fitting(max, frames)
    && Overflows(after.events) == Overflows(before.events) + Oversized(max, frames)
  }

  lemma ArrivedSnoc(before: Progress, after: Progress, max: nat, frames: seq<string>, f: string)
    requires Arrived(before, after, max, frames) && Plain(f)
    ensures Arrived(before, Progress([], after.events + [Report(max, PREFIX + f)]), max, frames + [f])
  {
    ReportedSnoc(max, after.events, f);
    assert (frames + [f])[..|frames|] == frames;
    assert Fitting(max, frames + [f]) == Fitting(max, frames) + (if |PREFIX| + |f| < max then [f] else []);
    assert Oversized(max, frames + [f]) ==
      Oversized(max, frames) + (if |PREFIX| + |f| < max then [] else [|PREFIX| + |f|]);
  }

  lemma WireSnoc(past: string, frames: seq<string>, f: string)
    ensures past + Wire(frames + [f]) == (past + Wire(frames)) + EncodeLine(f)
  {
    assert (frames + [f])[..|frames|] == frames;
  }

  lemma NoneArrive(max: nat, past: string, frames: seq<string>)
    requires After(max, past).segment == [] && frames == []
    ensures Arrived(After(max, past), After(max, past + Wire(frames)), max, frames)
  {
    assert past + Wire(frames) == past;
  }

  lemma {:induction false} FramesArrive(max: nat, past: string, frames: seq<string>)
    requires After(max, past).segment == []
    requires forall i :: 0 <= i < |frames| ==> Plain(frames[i])
    ensures Arrived(After(max, past), After(max, past + Wire(frames)), max, frames)
    decreases |frames|
  {
    if frames == [] {
      NoneArrive(max, past, frames);
    } else {
      FramesArrive(max, past, frames[..|frames| - 1]);
      OneMoreArrives(max, past, frames);
    }
  }

  lemma OneMoreArrives(max: nat, past: string, frames: seq<string>)
    requires frames != [] && Plain(frames[|frames| - 1])
    requires var fs := frames[..|frames| - 1]; Arrived(After(max, past), After(max, past + Wire(fs)), max, fs)
    ensures Arrived(After(max, past), After(max, past + Wire(frames)), max, frames)
  {
    var fs, f := frames[..|frames| - 1], frames[|frames| - 1];
    assert frames == fs + [f];
    WireSnoc(past, fs, f);
    ArrivesAfter(max, After(max, past), past + Wire(fs), fs, f);
  }

  lemma ArrivesAfter(max: nat, before: Progress, sent: string, fs: seq<string>, f: string)
    requires Plain(f) && Arrived(before, After(max, sent), max, fs)
    ensures Arrived(before, After(max, sent + EncodeLine(f)), max, fs + [f])
  {
    FrameEvent(max, sent, f);
    ArrivedSnoc(before, After(max, sent), max, fs, f);
  }

  /** Host frames sent after a newline arrive whole and in order, whatever bytes came
      before it and however many neighbours were too long; each of those is reported
      once with its exact size. */
  lemma HostFramesArrive(max: nat, before: string, frames: seq<string>)
    requires forall i :: 0 <= i < |frames| ==> Plain(frames[i])
    ensures Dispatched(Meaning(max, before + "\n" + Wire(frames))) ==
      Dispatched(Meaning(max, before + "\n")) + Fitting(max, frames)
    ensures Overflows(Meaning(max, before + "\n" + Wire(frames))) ==
      Overflows(Meaning(max, before + "\n")) + Oversized(max, frames)
  {
    var past := before + "\n";
    AfterSnoc(max, before, '\n');
    FramesArrive(max, past, frames);
    AfterIsMeaning(max, past);
    AfterIsMeaning(max, past + Wire(frames));
  }

  // ----------------------------------------------------- the host reading a line

  predicate OccursAt(s: string, i: int) {
    0 <= i <= |s| - |PREFIX| && s[i..i + |PREFIX|] == PREFIX
  }

  ghost predicate Occurs(s: string) {
    exists i :: OccursAt(s, i)
  }

  /** rfind: the last occurrence that starts at or before i. */
  function RFind(s: string, i: int): (pos: Option<nat>)
    requires i <= |s|
    ensures pos.None? ==> forall j :: j <= i ==> !OccursAt(s, j)
    ensures pos.Some? ==> OccursAt(s, pos.value) && pos.value <= i && forall j :: pos.value < j <= i ==> !OccursAt(s, j)
    decreases i + 1
  {
    if i < 0 then None else if OccursAt(s, i) then Some(i) else RFind(s, i - 1)
  }

  function TrimEnd(s: string, c: char): string {
    if s != [] && s[|s| - 1] == c then TrimEnd(s[..|s| - 1], c) else s
  }

  /** Unicode White_Space, which str::trim removes. */
  predicate IsSpace(c: char) {
    var u := c as int;
    9 <= u <= 13 || u in {0x20, 0x85, 0xA0, 0x1680, 0x2028, 0x2029, 0x202F, 0x205F, 0x3000} || 0x2000 <= u <= 0x200A
  }

  predicate Blank(s: string) {
    forall c :: c in s ==> IsSpace(c)
  }

  /** decode_frame_line up to JSON parsing: the text it hands to the parser. */
  function PayloadOf(line: string): Option<string> {
    var trimmed := TrimEnd(TrimEnd(line, '\n'), '\r');
    var pos := RFind(trimmed, |trimmed|);
    if pos.None? then None
    else
      var payload := trimmed[pos.value + |PREFIX|..];
      if Blank(payload) then None else Some(payload)
  }

  /** The prefix cannot overlap itself: '@' is only its first character. */
  lemma OccurrenceAfterPrefix(noise: string, text: string, j: int)
    requires OccursAt(noise + PREFIX + text, j) && j > |noise|
    ensures OccursAt(text, j - |noise| - |PREFIX|)
  {
    var s := noise + PREFIX + text;
    assert s[j] == s[j..j + |PREFIX|][0] == '@';
    assert forall i :: |noise| < i < |noise| + |PREFIX| ==> s[i] == PREFIX[i - |noise|] != '@';
    if j >= |noise| + |PREFIX| {
      var k := j - |noise| - |PREFIX|;
      assert s[j..j + |PREFIX|] == text[k..k + |PREFIX|];
    }
  }

  lemma OccurrenceInText(noise: string, text: string, k: int)
    requires OccursAt(text, k)
    ensures OccursAt(noise + PREFIX + text, |noise| + |PREFIX| + k)
  {
    var s, j := noise + PREFIX + text, |noise| + |PREFIX| + k;
    assert s[j..j + |PREFIX|] == text[k..k + |PREFIX|];
  }

  /** A device frame is recovered from its line, behind any log noise, exactly when its
      text does not itself contain the prefix, is not blank and does not end in a line
      ending. */
  lemma DeviceFrameRecovered(noise: string, text: string)
    ensures PayloadOf(noise + PREFIX + text + "\n") == Some(text)
       <==> !Occurs(text) && !Blank(text) && text[|text| - 1] !in {'\r', '\n'}
  {
    var s := noise + PREFIX + text;
    var line := s + "\n";
    assert line[..|line| - 1] == s;
    var trimmed := TrimEnd(TrimEnd(line, '\n'), '\r');
    TrimIsPrefix(s, '\n');
    TrimIsPrefix(TrimEnd(s, '\n'), '\r');
    assert |s| > 0 && s[|s| - 1] == if text == [] then ' ' else text[|text| - 1];
    if text != [] && text[|text| - 1] in {'\r', '\n'} {
      assert s[|noise| + |PREFIX| - 1] == ' ';
      assert |noise| + |PREFIX| - 1 < |trimmed| < |s|;
      assert trimmed == s[..|trimmed|];
      PrefixSurvives(noise, text, trimmed);
    } else {
      assert trimmed == s;
      LastPrefix(noise, text);
    }
  }

  lemma PrefixSurvives(noise: string, text: string, trimmed: string)
    requires var s := noise + PREFIX + text; |noise| + |PREFIX| <= |trimmed| <= |s| && trimmed == s[..|trimmed|]
    ensures RFind(trimmed, |trimmed|).Some? && RFind(trimmed, |trimmed|).value >= |noise|
  {
    var s := noise + PREFIX + text;
    assert s[|noise|..|noise| + |PREFIX|] == PREFIX;
    assert trimmed[|noise|..|noise| + |PREFIX|] == s[|noise|..|noise| + |PREFIX|];
    assert OccursAt(trimmed, |noise|);
  }

  /** What follows the last prefix is the text exactly when the text has no prefix in it. */
  lemma LastPrefix(noise: string, text: string)
    ensures var s := noise + PREFIX + text;
      RFind(s, |s|).Some? && (s[RFind(s, |s|).value + |PREFIX|..] == text <==> !Occurs(text))
  {
    var s := noise + PREFIX + text;
    assert OccursAt(s, |noise|) by {
      assert s[|noise|..|noise| + |PREFIX|] == PREFIX;
    }
    var pos := RFind(s, |s|).value;
    if Occurs(text) {
      var k :| OccursAt(text, k);
      OccurrenceInText(noise, text, k);
      assert pos > |noise|;
      assert |s[pos + |PREFIX|..]| < |text|;
    } else {
      if pos > |noise| {
        OccurrenceAfterPrefix(noise, text, pos);
      }
      assert pos == |noise|;
      assert s[pos + |PREFIX|..] == text;
    }
  }

  lemma {:induction false} TrimIsPrefix(s: string, c: char)
    ensures |TrimEnd(s, c)| <= |s| && TrimEnd(s, c) == s[..|TrimEnd(s, c)|]
    ensures s != [] && s[|s| - 1] == c ==> |TrimEnd(s, c)| < |s|
    ensures s != [] && s[|s| - 1] != c ==> TrimEnd(s, c) == s
    ensures forall k :: 0 <= k < |s| && s[k] != c ==> k < |TrimEnd(s, c)|
    decreases |s|
  {
    if s != [] && s[|s| - 1] == c {
      TrimIsPrefix(s[..|s| - 1], c);
    }
  }

  // ------------------------------------------------------------ the protocol, told plainly

  lemma {:induction false} StripAppend(a: string, b: string)
    ensures Strip(a + b) == Strip(a) + Strip(b)
    decreases |b|
  {
    if b == [] {
      assert a + b == a;
    } else {
      var u, c := b[..|b| - 1], b[|b| - 1];
      StripAppend(a, u);
      assert (a + b)[..|a + b| - 1] == a + u;
    }
  }

  /** Carriage returns make no difference, wherever they are. */
  lemma CarriageReturnsIgnored(max: nat, a: string, b: string)
    ensures Meaning(max, a + "\r" + b) == Meaning(max, a + b)
  {
    StripAppend(a + "\r", b);
    StripAppend(a, "\r");
    StripAppend(a, b);
    assert Strip("\r") == [];
    assert Strip(a) + [] == Strip(a);
  }

  /** An empty line is no event. */
  lemma EmptyLinesSilent(max: nat, a: string)
    ensures Meaning(max, a + "\n" + "\n") == Meaning(max, a + "\n")
  {
    AfterSnoc(max, a, '\n');
    AfterSnoc(max, a + "\n", '\n');
    AfterIsMeaning(max, a + "\n");
    AfterIsMeaning(max, a + "\n" + "\n");
  }

  lemma {:induction false} CStringCuts(s: string, rest: string)
    requires '\0' !in s
    ensures CString(s + "\0" + rest) == s
    decreases |s|
  {
    var all := s + "\0" + rest;
    if s == [] {
      assert all[0] == '\0';
    } else {
      assert all[0] == s[0] && all[1..] == s[1..] + "\0" + rest;
      CStringCuts(s[1..], rest);
    }
  }

  /** A line reaches the parser exactly if it starts with the prefix, and then without it; a
      NUL ends the line. */
  lemma DispatchExactly(line: string, rest: string, text: string)
    requires '\0' !in line
    ensures Dispatch(line) == Some(text) <==> line == "@esp32dash " + text
    ensures Dispatch(line + "\0" + rest) == Dispatch(line)
  {
    CStringPlain(line);
    CStringCuts(line, rest);
    if Dispatch(line) == Some(text) {
      assert line == line[..|PREFIX|] + line[|PREFIX|..];
    }
    if line == "@esp32dash " + text {
      assert line[..|PREFIX|] == PREFIX && line[|PREFIX|..] == text;
    }
  }

  /** In plain text the white space is the blank and the characters from tab to carriage
      return. */
  lemma PlainSpaces(c: char)
    requires c as int < 128
    ensures IsSpace(c) <==> c == ' ' || '\t' <= c <= '\r'
  {
  }
}
