/**
 Reading replies of the Tor control protocol (section 2.3 of the Tor control specification)
 from a socket that delivers the stream in arbitrary pieces
 (server/src/utils/TorControl.cpp, lines 451 to 502).
 */
module TorReply {
  import opened Wrappers

  const MAX_LINE_BYTES: nat := 8192
  const MAX_REPLY_BYTES: nat := 64 * 1024
  const CHUNK_BYTES: nat := 2048

  /** The longest line that every segmentation delivers. */
  const SAFE_LINE_BYTES: nat := MAX_LINE_BYTES - 2

  /** One call of `recv`: some bytes, a call to repeat, or an error. A closed stream has no more. */
  datatype Event = Data(chunk: string) | Interrupted | Broken

  datatype Error = LineTooLong | SocketError | Closed | Malformed | Framing

  datatype LineResult = Line(text: string) | Failed(error: Error)

  datatype Reply = Reply(status: nat, lines: seq<string>)

  ghost predicate Deliverable(incoming: seq<Event>) {
    forall i :: 0 <= i < |incoming| && incoming[i].Data? ==> 0 < |incoming[i].chunk| <= CHUNK_BYTES
  }

  /** The bytes still to arrive, up to an error or the end. */
  ghost function Stream(incoming: seq<Event>): string {
    if incoming == [] then ""
    else
      match incoming[0]
      case Data(chunk) => chunk + Stream(incoming[1..])
      case Interrupted => Stream(incoming[1..])
      case Broken => ""
  }

  /** What stands at the end of the stream. */
  ghost function Ending(incoming: seq<Event>): Error {
    if incoming == [] then Closed
    else if incoming[0].Broken? then SocketError
    else Ending(incoming[1..])
  }

  // ---------- Line breaks ----------

  predicate BreakAt(s: string, k: nat) {
    k + 1 < |s| && s[k] == '\r' && s[k + 1] == '\n'
  }

  /** The place of the first line break. */
  function FindBreak(s: string): (found: Option<nat>)
    ensures found.Some? ==> BreakAt(s, found.value) && forall j :: 0 <= j < found.value ==> !BreakAt(s, j)
    ensures found.None? ==> forall j :: 0 <= j ==> !BreakAt(s, j)
  {
    FindFrom(s, 0)
  }

  function FindFrom(s: string, from: nat): (found: Option<nat>)
    requires from <= |s| && forall j :: 0 <= j < from ==> !BreakAt(s, j)
    ensures found.Some? ==> BreakAt(s, found.value) && forall j :: 0 <= j < found.value ==> !BreakAt(s, j)
    ensures found.None? ==> forall j :: 0 <= j ==> !BreakAt(s, j)
    decreases |s| - from
  {
    if from == |s| then None
    else if BreakAt(s, from) then Some(from)
    else FindFrom(s, from + 1)
  }

  lemma FirstBreakIs(s: string, k: nat)
    requires BreakAt(s, k) && forall j :: 0 <= j < k ==> !BreakAt(s, j)
    ensures FindBreak(s) == Some(k)
  {
  }

  /** A break in the front part is a break of the whole, and the first one. */
  lemma BreakOfPrefix(front: string, rest: string)
    ensures FindBreak(front).Some? ==> FindBreak(front + rest) == FindBreak(front)
    ensures FindBreak(front).None? && FindBreak(front + rest).Some? ==> FindBreak(front + rest).value + 2 > |front|
  {
    var all := front + rest;
    if FindBreak(front).Some? {
      var k := FindBreak(front).value;
      forall j | 0 <= j < k ensures !BreakAt(all, j) {
        assert !BreakAt(front, j);
      }
      FirstBreakIs(all, k);
    } else if FindBreak(all).Some? {
      assert !BreakAt(front, FindBreak(all).value);
    }
  }

  // ---------- Reading one line ----------

  /** Where a read leaves the connection. */
  datatype LineOutcome = LineOutcome(result: LineResult, buffer: string, incoming: seq<Event>)

  /** Take a line from the buffer, receiving until there is one. */
  function ReceiveLine(buffer: string, incoming: seq<Event>): LineOutcome
    decreases |incoming|
  {
    var lineEnd := FindBreak(buffer);
    if lineEnd.Some? then LineOutcome(Line(buffer[..lineEnd.value]), buffer[lineEnd.value + 2..], incoming)
    else if |buffer| >= MAX_LINE_BYTES then LineOutcome(Failed(LineTooLong), buffer, incoming)
    else if incoming == [] then LineOutcome(Failed(Closed), buffer, incoming)
    else
      match incoming[0]
      case Interrupted => ReceiveLine(buffer, incoming[1..])
      case Broken => LineOutcome(Failed(SocketError), buffer, incoming)
      case Data(chunk) => ReceiveLine(buffer + chunk, incoming[1..])
  }

  /** What one line of the whole stream should give, whatever pieces the stream comes in. */
  ghost function LineOf(stream: string, ending: Error): LineResult {
    var lineEnd := FindBreak(stream);
    if lineEnd.Some? then Line(stream[..lineEnd.value])
    else Failed(if |stream| >= MAX_LINE_BYTES then LineTooLong else ending)
  }

  ghost predicate Fits(stream: string) {
    FindBreak(stream).Some? ==> FindBreak(stream).value <= SAFE_LINE_BYTES
  }

  /** What should be left of the stream behind the line. */
  ghost function AfterLine(stream: string): string {
    var lineEnd := FindBreak(stream);
    if lineEnd.Some? then stream[lineEnd.value + 2..] else stream
  }

  lemma StreamSplit(buffer: string, incoming: seq<Event>)
    requires incoming != []
    ensures incoming[0].Data? ==>
              (buffer + incoming[0].chunk) + Stream(incoming[1..]) == buffer + Stream(incoming)
    ensures incoming[0].Interrupted? ==> Stream(incoming[1..]) == Stream(incoming)
  {
  }

  /** Reading loses, adds and reorders nothing: the line, its break and what is left are the stream. */
  lemma {:induction false} LineIsPrefix(buffer: string, incoming: seq<Event>)
    ensures var r := ReceiveLine(buffer, incoming);
            && Ending(r.incoming) == Ending(incoming)
            && r.buffer + Stream(r.incoming)
               == if r.result.Line? then AfterLine(buffer + Stream(incoming)) else buffer + Stream(incoming)
    ensures var r := ReceiveLine(buffer, incoming);
            r.result.Line? ==> r.result == LineOf(buffer + Stream(incoming), Ending(incoming))
    ensures Deliverable(incoming) ==> Deliverable(ReceiveLine(buffer, incoming).incoming)
    decreases |incoming|
  {
    var stream := buffer + Stream(incoming);
    BreakOfPrefix(buffer, Stream(incoming));
    if FindBreak(buffer).Some? {
      var k := FindBreak(buffer).value;
      assert stream[..k] == buffer[..k];
      assert stream[k + 2..] == buffer[k + 2..] + Stream(incoming);
    } else if |buffer| < MAX_LINE_BYTES && incoming != [] && !incoming[0].Broken? {
      StreamSplit(buffer, incoming);
      LineIsPrefix(if incoming[0].Data? then buffer + incoming[0].chunk else buffer, incoming[1..]);
    }
  }

  /**
   With a line of at most 8190 bytes, or none, the result is that of the whole stream, whatever
   pieces the stream comes in.
   */
  lemma {:induction false} LineIsIndependent(buffer: string, incoming: seq<Event>)
    requires Fits(buffer + Stream(incoming))
    ensures ReceiveLine(buffer, incoming).result == LineOf(buffer + Stream(incoming), Ending(incoming))
    decreases |incoming|
  {
    var stream := buffer + Stream(incoming);
    BreakOfPrefix(buffer, Stream(incoming));
    if FindBreak(buffer).Some? {
      assert stream[..FindBreak(buffer).value] == buffer[..FindBreak(buffer).value];
    } else if |buffer| >= MAX_LINE_BYTES {
      assert FindBreak(stream).None?;
    } else if incoming == [] || incoming[0].Broken? {
      assert stream == buffer;
    } else {
      StreamSplit(buffer, incoming);
      LineIsIndependent(if incoming[0].Data? then buffer + incoming[0].chunk else buffer, incoming[1..]);
    }
  }

  // ---------- Exactly when the pieces matter ----------

  /** The longest line that some segmentation still delivers to an empty buffer. */
  const LUCKY_LINE_BYTES: nat := MAX_LINE_BYTES - 1 + CHUNK_BYTES - 2

  lemma {:induction false} HopelessLine(buffer: string, incoming: seq<Event>)
    requires Deliverable(incoming) && |buffer| < MAX_LINE_BYTES + CHUNK_BYTES
    requires FindBreak(buffer + Stream(incoming)).Some?
    requires FindBreak(buffer + Stream(incoming)).value > LUCKY_LINE_BYTES
    ensures ReceiveLine(buffer, incoming).result == Failed(LineTooLong)
    decreases |incoming|
  {
    var stream := buffer + Stream(incoming);
    BreakOfPrefix(buffer, Stream(incoming));
    if |buffer| < MAX_LINE_BYTES {
      assert incoming == [] || incoming[0].Broken? ==> stream == buffer;
      StreamSplit(buffer, incoming);
      HopelessLine(if incoming[0].Data? then buffer + incoming[0].chunk else buffer, incoming[1..]);
    }
  }

  /** Full chunks meet the limit exactly, one break short of the line. */
  function Unlucky(stream: string): seq<Event>
    requires |stream| > 8192
  {
    [Data(stream[..2048]), Data(stream[2048..4096]), Data(stream[4096..6144]), Data(stream[6144..8192])]
  }

  /** One byte less before the last chunk, and the line arrives before the limit is checked again. */
  function Lucky(stream: string): seq<Event>
    requires |stream| > 8191
  {
    [Data(stream[..2047]), Data(stream[2047..4095]), Data(stream[4095..6143]), Data(stream[6143..8191]),
     Data(stream[8191..])]
  }

  /** One more chunk that does not complete the line and does not reach the limit. */
  lemma ReceiveMore(stream: string, from: nat, to: nat, rest: seq<Event>)
    requires from < to <= |stream| && from < MAX_LINE_BYTES
    requires FindBreak(stream).Some? && from < FindBreak(stream).value + 2
    ensures ReceiveLine(stream[..from], [Data(stream[from..to])] + rest) == ReceiveLine(stream[..to], rest)
  {
    assert stream == stream[..from] + stream[from..];
    BreakOfPrefix(stream[..from], stream[from..]);
    assert stream[..from] + stream[from..to] == stream[..to];
    assert ([Data(stream[from..to])] + rest)[1..] == rest;
  }

  lemma UnluckyFails(stream: string)
    requires FindBreak(stream).Some? && FindBreak(stream).value > SAFE_LINE_BYTES
    ensures ReceiveLine("", Unlucky(stream) + [Data(stream[8192..])]).result == Failed(LineTooLong)
  {
    var last := [Data(stream[8192..])];
    var d := [Data(stream[6144..8192])] + last;
    var c := [Data(stream[4096..6144])] + d;
    var b := [Data(stream[2048..4096])] + c;
    assert Unlucky(stream) + last == [Data(stream[0..2048])] + b;
    ReceiveMore(stream, 0, 2048, b);
    ReceiveMore(stream, 2048, 4096, c);
    ReceiveMore(stream, 4096, 6144, d);
    ReceiveMore(stream, 6144, 8192, last);
    assert stream == stream[..8192] + stream[8192..];
    BreakOfPrefix(stream[..8192], stream[8192..]);
    assert stream[..0] == "";
  }

  lemma LuckyReads(stream: string)
    requires FindBreak(stream).Some? && SAFE_LINE_BYTES < FindBreak(stream).value <= LUCKY_LINE_BYTES
    requires |stream| == FindBreak(stream).value + 2
    ensures ReceiveLine("", Lucky(stream)).result == Line(stream[..FindBreak(stream).value])
    ensures Deliverable(Lucky(stream))
  {
    var e := [Data(stream[8191..|stream|])];
    var d := [Data(stream[6143..8191])] + e;
    var c := [Data(stream[4095..6143])] + d;
    var b := [Data(stream[2047..4095])] + c;
    assert stream[8191..|stream|] == stream[8191..] && stream[0..2047] == stream[..2047];
    assert Lucky(stream) == [Data(stream[0..2047])] + b;
    ReceiveMore(stream, 0, 2047, b);
    ReceiveMore(stream, 2047, 4095, c);
    ReceiveMore(stream, 4095, 6143, d);
    ReceiveMore(stream, 6143, 8191, e);
    assert e + [] == e;
    ReceiveMore(stream, 8191, |stream|, []);
    assert stream[..|stream|] == stream && stream[..0] == "";
  }

  ghost predicate Splits(incoming: seq<Event>, stream: string) {
    Deliverable(incoming) && Stream(incoming) == stream
  }

  /** All ways to deliver a stream to an empty buffer give the same first line. */
  ghost predicate Independent(stream: string) {
    forall a, b :: Splits(a, stream) && Splits(b, stream) && Ending(a) == Ending(b) ==>
                     ReceiveLine("", a).result == ReceiveLine("", b).result
  }

  lemma StreamOfChunks(incoming: seq<Event>, chunk: string)
    ensures Stream([Data(chunk)] + incoming) == chunk + Stream(incoming)
    ensures Ending([Data(chunk)] + incoming) == Ending(incoming)
  {
    assert ([Data(chunk)] + incoming)[1..] == incoming;
  }

  lemma UnluckyStream(stream: string)
    requires 8192 < |stream| <= 8192 + CHUNK_BYTES
    ensures var all := Unlucky(stream) + [Data(stream[8192..])];
            Deliverable(all) && Stream(all) == stream && Ending(all) == Closed
  {
    var last := [Data(stream[8192..])];
    var d := [Data(stream[6144..8192])] + last;
    var c := [Data(stream[4096..6144])] + d;
    var b := [Data(stream[2048..4096])] + c;
    assert Unlucky(stream) + last == [Data(stream[..2048])] + b;
    assert last + [] == last;
    StreamOfChunks([], stream[8192..]);
    StreamOfChunks(last, stream[6144..8192]);
    StreamOfChunks(d, stream[4096..6144]);
    StreamOfChunks(c, stream[2048..4096]);
    StreamOfChunks(b, stream[..2048]);
    assert Stream(last) == stream[8192..];
    assert Stream(d) == stream[6144..] && Stream(c) == stream[4096..] && Stream(b) == stream[2048..];
  }

  lemma LuckyStream(stream: string)
    requires 8191 < |stream| <= 8191 + CHUNK_BYTES
    ensures Stream(Lucky(stream)) == stream && Ending(Lucky(stream)) == Closed
  {
    var e := [Data(stream[8191..])];
    var d := [Data(stream[6143..8191])] + e;
    var c := [Data(stream[4095..6143])] + d;
    var b := [Data(stream[2047..4095])] + c;
    assert Lucky(stream) == [Data(stream[..2047])] + b;
    assert e + [] == e;
    StreamOfChunks([], stream[8191..]);
    StreamOfChunks(e, stream[6143..8191]);
    StreamOfChunks(d, stream[4095..6143]);
    StreamOfChunks(c, stream[2047..4095]);
    StreamOfChunks(b, stream[..2047]);
    assert Stream(e) == stream[8191..];
    assert Stream(d) == stream[6143..] && Stream(c) == stream[4095..] && Stream(b) == stream[2047..];
  }

  /**
   For one complete line, the pieces do not matter exactly when it is at most 8190 bytes long
   (it is always delivered) or longer than 10237 (it never is). Between the two, it depends on
   where the chunks end.
   */
  lemma IndependentIffShortOrHopeless(stream: string)
    requires FindBreak(stream).Some? && |stream| == FindBreak(stream).value + 2
    ensures Independent(stream)
       <==> FindBreak(stream).value <= SAFE_LINE_BYTES || FindBreak(stream).value > LUCKY_LINE_BYTES
  {
    hide FindBreak, ReceiveLine, Unlucky, Lucky;
    var n := FindBreak(stream).value;
    assert "" + stream == stream;
    if n <= SAFE_LINE_BYTES {
      forall a | Splits(a, stream) ensures ReceiveLine("", a).result == Line(stream[..n]) {
        LineIsIndependent("", a);
      }
    } else if n > LUCKY_LINE_BYTES {
      forall a | Splits(a, stream) ensures ReceiveLine("", a).result == Failed(LineTooLong) {
        HopelessLine("", a);
      }
    } else {
      var a, b := Unlucky(stream) + [Data(stream[8192..])], Lucky(stream);
      UnluckyFails(stream);
      UnluckyStream(stream);
      LuckyReads(stream);
      LuckyStream(stream);
      assert Splits(a, stream) && Splits(b, stream);
    }
  }

  // ---------- Reading a reply ----------

  datatype ReplyResult = Got(reply: Reply) | Lost(error: Error)

  datatype ReplyOutcome = ReplyOutcome(result: ReplyResult, buffer: string, incoming: seq<Event>)

  predicate IsDigit(c: char) {
    '0' <= c <= '9'
  }

  function DigitValue(c: char): nat
    requires IsDigit(c)
  {
    c as nat - '0' as nat
  }

  predicate HasStatus(line: string) {
    |line| >= 4 && IsDigit(line[0]) && IsDigit(line[1]) && IsDigit(line[2])
  }

  function StatusOf(line: string): nat
    requires HasStatus(line)
  {
    DigitValue(line[0]) * 100 + DigitValue(line[1]) * 10 + DigitValue(line[2])
  }

  /** What one line does to a reply: it ends it, continues it, or is refused. */
  datatype LineEffect = Last(reply: Reply) | More(reply: Reply) | Refused(error: Error)

  function TakeLine(reply: Reply, total: nat, line: string): LineEffect {
    if total + |line| > MAX_REPLY_BYTES || !HasStatus(line) then Refused(Malformed)
    else
      var status := StatusOf(line);
      var known := if reply.status == 0 then status else reply.status;
      if status != known || (line[3] != '-' && line[3] != ' ') then Refused(Framing)
      else
        var next := Reply(known, reply.lines + [line[4..]]);
        if line[3] == ' ' then Last(next) else More(next)
  }

  /** The reply that a whole stream should give, line by line. */
  datatype Parse = Parse(result: ReplyResult, rest: string)

  lemma AfterIsShorter(stream: string)
    requires FindBreak(stream).Some?
    ensures |AfterLine(stream)| < |stream|
  {
  }

  ghost function ParseReply(stream: string, ending: Error, reply: Reply, total: nat): Parse
    decreases |stream|
  {
    var line := LineOf(stream, ending);
    if line.Failed? then Parse(Lost(line.error), stream)
    else
      AfterIsShorter(stream);
      match TakeLine(reply, total, line.text)
      case Refused(error) => Parse(Lost(error), AfterLine(stream))
      case Last(next) => Parse(Got(next), AfterLine(stream))
      case More(next) => ParseReply(AfterLine(stream), ending, next, total + |line.text|)
  }

  /** Every line that the parser looks at is at most 8190 bytes long. */
  ghost predicate ShortLines(stream: string, reply: Reply, total: nat)
    decreases |stream|
  {
    && Fits(stream)
    && (FindBreak(stream).Some? ==>
          var text := stream[..FindBreak(stream).value];
          var effect := TakeLine(reply, total, text);
          AfterIsShorter(stream);
          effect.More? ==> ShortLines(AfterLine(stream), effect.reply, total + |text|))
  }

  /** Take lines until one ends the reply. */
  ghost function ReceiveReply(buffer: string, incoming: seq<Event>, reply: Reply, total: nat): ReplyOutcome
    decreases |buffer + Stream(incoming)|
  {
    var r := ReceiveLine(buffer, incoming);
    LineIsPrefix(buffer, incoming);
    if r.result.Failed? then ReplyOutcome(Lost(r.result.error), r.buffer, r.incoming)
    else
      AfterIsShorter(buffer + Stream(incoming));
      match TakeLine(reply, total, r.result.text)
      case Refused(error) => ReplyOutcome(Lost(error), r.buffer, r.incoming)
      case Last(next) => ReplyOutcome(Got(next), r.buffer, r.incoming)
      case More(next) => ReceiveReply(r.buffer, r.incoming, next, total + |r.result.text|)
  }

  lemma ParseLine(stream: string, ending: Error, reply: Reply, total: nat)
    ensures var p, line := ParseReply(stream, ending, reply, total), LineOf(stream, ending);
            if line.Failed? then p == Parse(Lost(line.error), stream)
            else
              match TakeLine(reply, total, line.text)
              case Refused(error) => p == Parse(Lost(error), AfterLine(stream))
              case Last(next) => p == Parse(Got(next), AfterLine(stream))
              case More(next) => p == ParseReply(AfterLine(stream), ending, next, total + |line.text|)
  {
    hide TakeLine, FindBreak, ReceiveLine, ReceiveReply, LineOf, AfterLine;
  }

  lemma ShortLine(stream: string, ending: Error, reply: Reply, total: nat)
    ensures ShortLines(stream, reply, total) <==>
            (Fits(stream)
             && (LineOf(stream, ending).Line? && TakeLine(reply, total, LineOf(stream, ending).text).More? ==>
                   ShortLines(AfterLine(stream), TakeLine(reply, total, LineOf(stream, ending).text).reply,
                              total + |LineOf(stream, ending).text|)))
  {
    hide TakeLine, FindBreak;
  }

  lemma TakeReceived(buffer: string, incoming: seq<Event>, reply: Reply, total: nat)
    ensures var r, o := ReceiveLine(buffer, incoming), ReceiveReply(buffer, incoming, reply, total);
            if r.result.Failed? then o == ReplyOutcome(Lost(r.result.error), r.buffer, r.incoming)
            else
              match TakeLine(reply, total, r.result.text)
              case Refused(error) => o == ReplyOutcome(Lost(error), r.buffer, r.incoming)
              case Last(next) => o == ReplyOutcome(Got(next), r.buffer, r.incoming)
              case More(next) => o == ReceiveReply(r.buffer, r.incoming, next, total + |r.result.text|)
  {
    hide TakeLine, ReceiveLine;
  }

  /**
   With lines of at most 8190 bytes, a reply and what it leaves unread are those of the whole
   stream, whatever pieces the stream comes in.
   */
  lemma {:induction false} ReplyIsIndependent(buffer: string, incoming: seq<Event>, reply: Reply, total: nat)
    requires ShortLines(buffer + Stream(incoming), reply, total)
    ensures var r := ReceiveReply(buffer, incoming, reply, total);
            Parse(r.result, r.buffer + Stream(r.incoming))
            == ParseReply(buffer + Stream(incoming), Ending(incoming), reply, total)
    decreases |buffer + Stream(incoming)|
  {
    hide FindBreak, TakeLine, ReceiveLine, Ending, Stream, ParseReply, ReceiveReply, ShortLines, LineOf, AfterLine, Fits;
    var stream := buffer + Stream(incoming);
    ParseLine(stream, Ending(incoming), reply, total);
    ShortLine(stream, Ending(incoming), reply, total);
    TakeReceived(buffer, incoming, reply, total);
    LineIsPrefix(buffer, incoming);
    LineIsIndependent(buffer, incoming);
    var r := ReceiveLine(buffer, incoming);
    if r.result.Line? {
      LineNeedsBreak(stream, Ending(incoming));
      AfterIsShorter(stream);
      var effect := TakeLine(reply, total, r.result.text);
      if effect.More? {
        ReplyIsIndependent(r.buffer, r.incoming, effect.reply, total + |r.result.text|);
      }
    }
  }

  lemma LineNeedsBreak(stream: string, ending: Error)
    requires LineOf(stream, ending).Line?
    ensures FindBreak(stream).Some?
  {
    hide FindBreak;
  }

  // ---------- Printing and reading back ----------

  const BREAK: string := ['\r', '\n']

  function StatusText(status: nat): (text: string)
    requires status < 1000
    ensures |text| == 3
  {
    [('0' as int + status / 100) as char, ('0' as int + status / 10 % 10) as char, ('0' as int + status % 10) as char]
  }

  function LineText(status: nat, last: bool, text: string): string
    requires status < 1000
  {
    StatusText(status) + [if last then ' ' else '-'] + text
  }

  /** A reply as the server prints it: every line but the last is marked with a hyphen. */
  function Print(status: nat, lines: seq<string>): string
    requires status < 1000
  {
    if lines == [] then ""
    else LineText(status, |lines| == 1, lines[0]) + BREAK + Print(status, lines[1..])
  }

  ghost function Size(lines: seq<string>): nat {
    if lines == [] then 0 else 4 + |lines[0]| + Size(lines[1..])
  }

  ghost predicate Printable(lines: seq<string>) {
    forall i :: 0 <= i < |lines| ==> FindBreak(lines[i]).None? && 4 + |lines[i]| <= SAFE_LINE_BYTES
  }

  lemma StatusRoundTrip(status: nat, last: bool, text: string)
    requires status < 1000
    ensures var line := LineText(status, last, text);
            HasStatus(line) && StatusOf(line) == status && line[4..] == text && |line| == 4 + |text|
            && line[3] == if last then ' ' else '-'
  {
  }

  lemma NoBreakInLine(status: nat, last: bool, text: string, rest: string)
    requires status < 1000 && FindBreak(text).None?
    ensures var line := LineText(status, last, text);
            FindBreak(line + (BREAK + rest)) == Some(|line|)
  {
    var line := LineText(status, last, text);
    var all := line + (BREAK + rest);
    StatusRoundTrip(status, last, text);
    assert all[|line|] == '\r' && all[|line| + 1] == '\n';
    forall j | 0 <= j < |line| ensures !BreakAt(all, j) {
      assert j >= 4 ==> !BreakAt(text, j - 4);
      assert forall k :: 4 <= k < |line| ==> all[k] == text[k - 4];
      assert j < 4 ==> all[j] != '\r';
    }
    FirstBreakIs(all, |line|);
  }

  /** Reading back a printed reply is the identity, and leaves exactly what followed it. */
  lemma {:induction false} PrintRoundTrip(status: nat, lines: seq<string>, rest: string, ending: Error,
                                          reply: Reply, total: nat)
    requires 0 < status < 1000 && lines != [] && Printable(lines) && total + Size(lines) <= MAX_REPLY_BYTES
    requires reply.status == status || reply.status == 0
    ensures ParseReply(Print(status, lines) + rest, ending, reply, total)
         == Parse(Got(Reply(status, reply.lines + lines)), rest)
    ensures ShortLines(Print(status, lines) + rest, reply, total)
    decreases |lines|
  {
    hide FindBreak, LineText, ParseReply, ShortLines, TakeLine, Print, Printable;
    var last, text := |lines| == 1, lines[0];
    var line, more := LineText(status, last, text), Print(status, lines[1..]) + rest;
    var stream := Print(status, lines) + rest;
    PrintStep(status, lines, rest);
    NoBreakInLine(status, last, text, more);
    TakePrinted(status, last, text, reply, total);
    assert stream[..|line|] == line && stream[|line| + 2..] == more;
    assert LineOf(stream, ending) == Line(line) && AfterLine(stream) == more;
    ParseLine(stream, ending, reply, total);
    ShortLine(stream, ending, reply, total);
    if last {
      assert lines == [text] && more == rest;
    } else {
      PrintRoundTrip(status, lines[1..], rest, ending, Reply(status, reply.lines + [text]), total + |line|);
      assert reply.lines + [text] + lines[1..] == reply.lines + lines;
    }
  }

  lemma PrintStep(status: nat, lines: seq<string>, rest: string)
    requires 0 < status < 1000 && lines != [] && Printable(lines)
    ensures var line := LineText(status, |lines| == 1, lines[0]);
            Print(status, lines) + rest == line + (BREAK + (Print(status, lines[1..]) + rest))
    ensures FindBreak(lines[0]).None? && 4 + |lines[0]| <= SAFE_LINE_BYTES && Printable(lines[1..])
    ensures |lines| == 1 ==> Print(status, lines[1..]) + rest == rest
  {
    hide FindBreak, LineText;
    assert |lines| == 1 ==> Print(status, lines[1..]) == "";
  }

  lemma TakePrinted(status: nat, last: bool, text: string, reply: Reply, total: nat)
    requires 0 < status < 1000 && (reply.status == status || reply.status == 0)
    requires total + 4 + |text| <= MAX_REPLY_BYTES
    ensures var line, next := LineText(status, last, text), Reply(status, reply.lines + [text]);
            |line| == 4 + |text| && TakeLine(reply, total, line) == if last then Last(next) else More(next)
  {
    hide LineText;
    StatusRoundTrip(status, last, text);
  }

  /** A printed reply, sent in any pieces behind anything else unread, comes back as it was. */
  lemma PrintedReplyArrives(status: nat, lines: seq<string>, rest: string, buffer: string, incoming: seq<Event>)
    requires 0 < status < 1000 && lines != [] && Printable(lines) && Size(lines) <= MAX_REPLY_BYTES
    requires buffer + Stream(incoming) == Print(status, lines) + rest
    ensures var r := ReceiveReply(buffer, incoming, Reply(0, []), 0);
            r.result == Got(Reply(status, lines)) && r.buffer + Stream(r.incoming) == rest
  {
    PrintRoundTrip(status, lines, rest, Ending(incoming), Reply(0, []), 0);
    ReplyIsIndependent(buffer, incoming, Reply(0, []), 0);
    assert Reply(0, []).lines + lines == lines;
  }

  // ---------- Whatever is read was printed ----------

  /** A status that is not zero stays; the zeros before it are what the reader takes for none. */
  ghost predicate Steady(statuses: seq<nat>) {
    forall i, j :: 0 <= i < j < |statuses| && statuses[i] != 0 ==> statuses[j] == statuses[i]
  }

  lemma SteadyStep(known: nat, statuses: seq<nat>)
    requires statuses != []
    ensures Steady([known] + statuses) <==> (known != 0 ==> statuses[0] == known) && Steady(statuses)
  {
    var all := [known] + statuses;
    assert forall i :: 0 <= i < |statuses| ==> all[i + 1] == statuses[i];
    if Steady(all) {
      forall i, j | 0 <= i < j < |statuses| && statuses[i] != 0 ensures statuses[j] == statuses[i] {
        assert all[j + 1] == all[i + 1];
      }
      assert known != 0 ==> all[1] == all[0];
    }
    if Steady(statuses) && (known != 0 ==> statuses[0] == known) {
      forall i, j | 0 <= i < j < |all| && all[i] != 0 ensures all[j] == all[i] {
        assert i > 0 ==> statuses[j - 1] == statuses[i - 1];
        assert i == 0 && j > 1 ==> statuses[j - 1] == statuses[0];
      }
    }
  }

  function PrintAll(statuses: seq<nat>, lines: seq<string>): string
    requires |statuses| == |lines| && forall i :: 0 <= i < |statuses| ==> statuses[i] < 1000
  {
    if lines == [] then ""
    else LineText(statuses[0], |lines| == 1, lines[0]) + (BREAK + PrintAll(statuses[1..], lines[1..]))
  }

  /** A printed reply, of at most 64 KiB, in front of the rest of a stream. */
  ghost predicate IsPrinted(stream: string, known: nat, total: nat, statuses: seq<nat>, lines: seq<string>, rest: string) {
    && |statuses| == |lines| > 0 && Steady([known] + statuses) && total + Size(lines) <= 65536
    && (forall i :: 0 <= i < |statuses| ==> statuses[i] < 1000)
    && (forall i :: 0 <= i < |lines| ==> FindBreak(lines[i]).None?)
    && stream == PrintAll(statuses, lines) + rest
  }

  lemma ThreeDigits(a: nat, b: nat, c: nat)
    requires a < 10 && b < 10 && c < 10
    ensures var n := a * 100 + b * 10 + c; n < 1000 && n / 100 == a && n / 10 % 10 == b && n % 10 == c
  {
    var tens := a * 10 + b;
    assert a * 100 + b * 10 + c == tens * 10 + c;
    assert (tens * 10 + c) / 10 == tens;
  }

  lemma LineIsText(line: string)
    requires HasStatus(line) && (line[3] == '-' || line[3] == ' ')
    ensures |line| >= 4 && StatusOf(line) < 1000 && line == LineText(StatusOf(line), line[3] == ' ', line[4..])
  {
    var status := StatusOf(line);
    ThreeDigits(DigitValue(line[0]), DigitValue(line[1]), DigitValue(line[2]));
    assert StatusText(status) == line[..3];
    hide StatusOf, StatusText;
    assert line == line[..3] + [line[3]] + line[4..];
  }

  lemma NoBreakInTail(line: string, k: nat)
    requires FindBreak(line).None? && k <= |line|
    ensures FindBreak(line[k..]).None?
  {
    hide FindFrom;
    forall j: nat ensures !BreakAt(line[k..], j) {
      assert !BreakAt(line, j + k);
    }
  }

  lemma LineHasNoBreak(stream: string, ending: Error)
    requires LineOf(stream, ending).Line?
    ensures FindBreak(LineOf(stream, ending).text).None?
    ensures stream == LineOf(stream, ending).text + (BREAK + AfterLine(stream))
  {
    var n := FindBreak(stream).value;
    var line := stream[..n];
    forall j: nat ensures !BreakAt(line, j) {
      assert !BreakAt(stream, j) || j >= n;
    }
    assert stream == stream[..n] + (stream[n..n + 2] + stream[n + 2..]);
  }

  /** What a line that is taken looks like, and what it does. */
  lemma TakenIs(reply: Reply, total: nat, line: string)
    ensures var effect := TakeLine(reply, total, line);
            if HasStatus(line) && (line[3] == '-' || line[3] == ' ') && total + |line| <= 65536
               && (reply.status != 0 ==> StatusOf(line) == reply.status)
            then
              var next := Reply(StatusOf(line), reply.lines + [line[4..]]);
              effect == if line[3] == ' ' then Last(next) else More(next)
            else effect.Refused?
  {
  }

  lemma PrintOneMore(status: nat, text: string, statuses: seq<nat>, lines: seq<string>)
    requires status < 1000 && |statuses| == |lines| && forall i :: 0 <= i < |statuses| ==> statuses[i] < 1000
    ensures PrintAll([status] + statuses, [text] + lines)
         == LineText(status, lines == [], text) + (BREAK + PrintAll(statuses, lines))
    ensures Size([text] + lines) == 4 + |text| + Size(lines)
  {
    assert ([status] + statuses)[1..] == statuses && ([text] + lines)[1..] == lines;
  }

  lemma {:induction false} GotIsPrinted(stream: string, ending: Error, reply: Reply, total: nat)
      returns (statuses: seq<nat>, lines: seq<string>)
    requires ParseReply(stream, ending, reply, total).result.Got?
    ensures var p := ParseReply(stream, ending, reply, total);
            && IsPrinted(stream, reply.status, total, statuses, lines, p.rest)
            && p.result.reply == Reply(statuses[|statuses| - 1], reply.lines + lines)
    decreases |stream|
  {
    hide FindBreak, TakeLine, LineOf, AfterLine, LineText, Steady, HasStatus, StatusOf, Size, ParseReply;
    ParseLine(stream, ending, reply, total);
    LineNeedsBreak(stream, ending);
    AfterIsShorter(stream);
    LineHasNoBreak(stream, ending);
    var line := LineOf(stream, ending).text;
    TakenIs(reply, total, line);
    LineIsText(line);
    NoBreakInTail(line, 4);
    var status, text := StatusOf(line), line[4..];
    var after := AfterLine(stream);
    PrintOneMore(status, text, [], []);
    assert [status] + [] == [status] && [text] + [] == [text];
    if line[3] == ' ' {
      statuses, lines := [status], [text];
      NothingPrinted();
      SteadyStep(reply.status, statuses);
      SteadyOne(status);
      assert stream == (line + (BREAK + "")) + after;
    } else {
      var more, others := GotIsPrinted(after, ending, Reply(status, reply.lines + [text]), total + |line|);
      statuses, lines := [status] + more, [text] + others;
      PrintOneMore(status, text, more, others);
      SteadyStep(reply.status, statuses);
      var rest := ParseReply(stream, ending, reply, total).rest;
      assert stream == line + (BREAK + (PrintAll(more, others) + rest));
      assert stream == (line + (BREAK + PrintAll(more, others))) + rest;
      assert reply.lines + [text] + others == reply.lines + ([text] + others);
    }
  }

  lemma NothingPrinted()
    ensures PrintAll([], []) == "" && Size([]) == 0
  {
  }

  lemma SteadyOne(status: nat)
    ensures Steady([status])
  {
  }

  lemma {:induction false} PrintedIsGot(stream: string, ending: Error, reply: Reply, total: nat,
                                        statuses: seq<nat>, lines: seq<string>, rest: string)
    requires IsPrinted(stream, reply.status, total, statuses, lines, rest)
    ensures ParseReply(stream, ending, reply, total)
         == Parse(Got(Reply(statuses[|statuses| - 1], reply.lines + lines)), rest)
    decreases |lines|
  {
    hide FindBreak, TakeLine, LineOf, AfterLine, LineText, Steady, HasStatus, StatusOf, Size, ParseReply;
    var status, text, more, others := statuses[0], lines[0], statuses[1..], lines[1..];
    var line, tail := LineText(status, |lines| == 1, text), PrintAll(more, others) + rest;
    assert statuses == [status] + more && lines == [text] + others;
    PrintOneMore(status, text, more, others);
    assert stream == line + (BREAK + tail);
    NoBreakInLine(status, |lines| == 1, text, tail);
    FirstLineIs(stream, ending, line, tail);
    StatusRoundTrip(status, |lines| == 1, text);
    SteadyStep(reply.status, statuses);
    TakenIs(reply, total, line);
    ParseLine(stream, ending, reply, total);
    if |lines| == 1 {
      NothingPrinted();
      assert more == [] && others == [] && tail == rest && lines == [text] && statuses == [status];
    } else {
      PrintedIsGot(tail, ending, Reply(status, reply.lines + [text]), total + |line|, more, others, rest);
      assert reply.lines + [text] + others == reply.lines + lines;
    }
  }

  lemma FirstLineIs(stream: string, ending: Error, line: string, tail: string)
    requires stream == line + (BREAK + tail) && FindBreak(stream) == Some(|line|)
    ensures LineOf(stream, ending) == Line(line) && AfterLine(stream) == tail
  {
    hide FindBreak;
  }

  /**
   What the whole stream gives is a reply exactly when the stream begins with that reply as
   printed, three digits, a mark and a text on every line, with one status all through once
   there is one that is not zero, and at most 64 KiB; and then the rest is what follows.
   */
  lemma ReplyIsPrinted(stream: string, ending: Error, status: nat, lines: seq<string>, rest: string)
    ensures ParseReply(stream, ending, Reply(0, []), 0) == Parse(Got(Reply(status, lines)), rest)
       <==> exists statuses :: IsPrinted(stream, 0, 0, statuses, lines, rest) && statuses[|statuses| - 1] == status
  {
    hide FindBreak, ParseReply, PrintAll, Steady, Size;
    if ParseReply(stream, ending, Reply(0, []), 0) == Parse(Got(Reply(status, lines)), rest) {
      var statuses, texts := GotIsPrinted(stream, ending, Reply(0, []), 0);
      assert [] + texts == texts;
    }
    forall statuses | IsPrinted(stream, 0, 0, statuses, lines, rest) && statuses[|statuses| - 1] == status
      ensures ParseReply(stream, ending, Reply(0, []), 0) == Parse(Got(Reply(status, lines)), rest)
    {
      PrintedIsGot(stream, ending, Reply(0, []), 0, statuses, lines, rest);
      assert [] + lines == lines;
    }
  }

  // ---------- The connection ----------

  class OnionService {
    var readBuffer: string
    var incoming: seq<Event>

    constructor (events: seq<Event>)
      ensures readBuffer == "" && incoming == events
    {
      readBuffer, incoming := "", events;
    }

    /** What has been received or will be, and has not been read. */
    ghost function Unread(): string
      reads this
    {
      readBuffer + Stream(incoming)
    }

    method ReadLine() returns (result: LineResult)
      modifies this
      ensures LineOutcome(result, readBuffer, incoming) == ReceiveLine(old(readBuffer), old(incoming))
    {
      while true
        invariant ReceiveLine(readBuffer, incoming) == ReceiveLine(old(readBuffer), old(incoming))
        decreases |incoming|
      {
        var lineEnd := FindBreak(readBuffer);
        if lineEnd.Some? {
          result := Line(readBuffer[..lineEnd.value]);
          readBuffer := readBuffer[lineEnd.value + 2..];
          return;
        }
        if |readBuffer| >= MAX_LINE_BYTES {
          return Failed(LineTooLong);
        }
        if incoming == [] {
          return Failed(Closed);
        }
        match incoming[0]
        case Interrupted => incoming := incoming[1..];
        case Broken => return Failed(SocketError);
        case Data(chunk) => readBuffer, incoming := readBuffer + chunk, incoming[1..];
      }
    }

    /** Add one line to a reply, in the order of the checks. */
    method AddLine(started: Reply, total: nat, line: string) returns (effect: LineEffect)
      ensures effect == TakeLine(started, total, line)
    {
      var reply := started;
      if total + |line| > MAX_REPLY_BYTES || |line| < 4
         || !IsDigit(line[0]) || !IsDigit(line[1]) || !IsDigit(line[2]) {
        return Refused(Malformed);
      }
      var status := DigitValue(line[0]) * 100 + DigitValue(line[1]) * 10 + DigitValue(line[2]);
      if reply.status == 0 {
        reply := reply.(status := status);
      }
      if status != reply.status || (line[3] != '-' && line[3] != ' ') {
        return Refused(Framing);
      }
      reply := reply.(lines := reply.lines + [line[4..]]);
      return if line[3] == ' ' then Last(reply) else More(reply);
    }

    method ReadReply() returns (result: ReplyResult)
      modifies this
      ensures ReplyOutcome(result, readBuffer, incoming)
           == ReceiveReply(old(readBuffer), old(incoming), Reply(0, []), 0)
    {
      hide FindBreak, ReceiveLine, ReceiveReply, Stream, TakeLine, LineOf, AfterLine, Ending;
      var reply, total: nat := Reply(0, []), 0;
      while true
        invariant ReceiveReply(readBuffer, incoming, reply, total)
               == ReceiveReply(old(readBuffer), old(incoming), Reply(0, []), 0)
        decreases |Unread()|
      {
        ghost var before, ending := Unread(), Ending(incoming);
        LineIsPrefix(readBuffer, incoming);
        TakeReceived(readBuffer, incoming, reply, total);
        var read := ReadLine();
        if read.Failed? {
          return Lost(read.error);
        }
        LineNeedsBreak(before, ending);
        AfterIsShorter(before);
        var effect := AddLine(reply, total, read.text);
        match effect
        case Refused(error) => return Lost(error);
        case Last(next) => return Got(next);
        case More(next) => reply, total := next, total + |read.text|;
      }
    }
  }
}
