/** Newline framing of a syslog byte stream (the trailer framing of section 3.4.2 of RFC 6587). */
module SyslogFraming {
  import opened Common

  newtype Byte = x: int | 0 <= x < 256

  type Bytes = seq<Byte>

  const NEWLINE: Byte := 10

  // ---------------------------------------------------------------- lines and messages of a whole stream

  /** Position of the first newline, or the length when there is none. */
  function FirstNewline(s: Bytes): (k: nat)
    ensures k <= |s| && (k < |s| ==> s[k] == NEWLINE) && forall j :: 0 <= j < k ==> s[j] != NEWLINE
  {
    if s == [] || s[0] == NEWLINE then 0 else 1 + FirstNewline(s[1..])
  }

  /** The newline-terminated lines of a stream, without their newlines. */
  function Lines(s: Bytes): seq<Bytes>
    decreases |s|
  {
    var k := FirstNewline(s);
    if k == |s| then [] else [s[..k]] + Lines(s[k + 1..])
  }

  /** What comes after the last newline. */
  function Tail(s: Bytes): Bytes
    decreases |s|
  {
    var k := FirstNewline(s);
    if k == |s| then s else Tail(s[k + 1..])
  }

  predicate IsPadding(c: char) { c == '\0' || c == '\r' }

  /** Text without NUL and carriage return at either end. */
  function StripEnds(text: string): string
    decreases |text|
  {
    if text == "" then ""
    else if IsPadding(text[0]) then StripEnds(text[1..])
    else if IsPadding(text[|text| - 1]) then StripEnds(text[..|text| - 1])
    else text
  }

  lemma {:induction false} StripEndsTrims(text: string)
    ensures Trims(text, StripEnds(text), IsPadding)
    decreases |text|
  {
    if text != "" && IsPadding(text[0]) {
      StripEndsTrims(text[1..]);
      TrimsFirst(text, StripEnds(text), IsPadding);
    } else if text != "" && IsPadding(text[|text| - 1]) {
      StripEndsTrims(text[..|text| - 1]);
      TrimsLast(text, StripEnds(text), IsPadding);
    } else {
      TrimsNothing(text, IsPadding);
    }
  }

  /** The messages of a list of lines: decoded, stripped, and dropped when nothing is left. */
  function Texts(lines: seq<Bytes>, decode: Bytes -> string): seq<string> {
    if lines == [] then []
    else
      var text := StripEnds(decode(lines[0]));
      (if text == "" then [] else [text]) + Texts(lines[1..], decode)
  }

  function Messages(s: Bytes, decode: Bytes -> string): seq<string> { Texts(Lines(s), decode) }

  // ---------------------------------------------------------------- cutting a stream

  lemma FirstNewlineIs(s: Bytes, k: nat)
    requires k < |s| && s[k] == NEWLINE && forall j :: 0 <= j < k ==> s[j] != NEWLINE
    ensures FirstNewline(s) == k
  {
  }

  /** A stream that begins with a line. */
  lemma LineFirst(line: Bytes, rest: Bytes)
    requires NEWLINE !in line
    ensures Lines(line + [NEWLINE] + rest) == [line] + Lines(rest)
    ensures Tail(line + [NEWLINE] + rest) == Tail(rest)
  {
    var s := line + [NEWLINE] + rest;
    FirstNewlineIs(s, |line|);
    assert s[..|line|] == line && s[|line| + 1..] == rest;
  }

  /** A stream that holds a newline begins with a line. */
  lemma HasFirstLine(s: Bytes)
    requires FirstNewline(s) < |s|
    ensures var k := FirstNewline(s); NEWLINE !in s[..k] && s == s[..k] + [NEWLINE] + s[k + 1..]
  {
    Cut(s, FirstNewline(s));
  }

  lemma Cut(s: Bytes, k: nat)
    requires k < |s|
    ensures s == s[..k] + [s[k]] + s[k + 1..]
  {
  }

  /** The lines of `a + b` are those of `a`, then those of the tail of `a` joined to `b`. */
  ghost predicate SplitsAt(a: Bytes, b: Bytes) {
    Lines(a + b) == Lines(a) + Lines(Tail(a) + b) && Tail(a + b) == Tail(Tail(a) + b)
  }

  lemma LineKeepsSplit(line: Bytes, rest: Bytes, b: Bytes)
    requires NEWLINE !in line && SplitsAt(rest, b)
    ensures SplitsAt(line + [NEWLINE] + rest, b)
  {
    LineFirst(line, rest);
    LineFirst(line, rest + b);
    Rejoined(line + [NEWLINE], rest, b);
    Rejoined([line], Lines(rest), Lines(Tail(rest) + b));
  }

  /** A stream can be cut anywhere. */
  lemma {:induction false} LinesSplit(a: Bytes, b: Bytes)
    ensures SplitsAt(a, b)
    decreases |a|
  {
    var k := FirstNewline(a);
    if k < |a| {
      HasFirstLine(a);
      LinesSplit(a[k + 1..], b);
      LineKeepsSplit(a[..k], a[k + 1..], b);
    } else {
      assert Lines(a) == [] && Tail(a) == a;
    }
  }

  lemma {:induction false} TextsJoin(xs: seq<Bytes>, ys: seq<Bytes>, decode: Bytes -> string)
    ensures Texts(xs + ys, decode) == Texts(xs, decode) + Texts(ys, decode)
  {
    if xs == [] {
      assert xs + ys == ys;
    } else {
      TextsJoin(xs[1..], ys, decode);
      assert (xs + ys)[1..] == xs[1..] + ys;
      var text := StripEnds(decode(xs[0]));
      Rejoined(if text == "" then [] else [text], Texts(xs[1..], decode), Texts(ys, decode));
    }
  }

  /** A line gives its decoded text, without NUL and CR at either end, as a message, or none when nothing is left. */
  lemma OneLineOneMessage(line: Bytes, decode: Bytes -> string, text: string)
    requires Trims(decode(line), text, c => c == '\0' || c == '\r')
    ensures Texts([line], decode) == if text == "" then [] else [text]
  {
    TrimsAlike(decode(line), text, c => c == '\0' || c == '\r', IsPadding);
    StripEndsTrims(decode(line));
    TrimsOnce(decode(line), text, StripEnds(decode(line)), IsPadding);
    assert [line][1..] == [];
  }

  lemma MessagesSplit(a: Bytes, b: Bytes, decode: Bytes -> string)
    ensures Messages(a + b, decode) == Messages(a, decode) + Messages(Tail(a) + b, decode)
    ensures Tail(a + b) == Tail(Tail(a) + b)
  {
    LinesSplit(a, b);
    TextsJoin(Lines(a), Lines(Tail(a) + b), decode);
  }

  // ---------------------------------------------------------------- the receiver

  /** The bytes read before the connection ends: an empty read is the end of the stream. */
  function Received(chunks: seq<Bytes>): Bytes {
    if chunks == [] || chunks[0] == [] then [] else chunks[0] + Received(chunks[1..])
  }

  /** One read: the messages completed by it, then those of the leftover and all later reads. */
  lemma NextRead(buffer: Bytes, chunks: seq<Bytes>, decode: Bytes -> string, ingested: seq<string>)
    requires chunks != [] && chunks[0] != []
    ensures ingested + Messages(buffer + Received(chunks), decode)
            == ingested + Messages(buffer + chunks[0], decode)
               + Messages(Tail(buffer + chunks[0]) + Received(chunks[1..]), decode)
  {
    var upTo, later := buffer + chunks[0], Received(chunks[1..]);
    Rejoined(buffer, chunks[0], later);
    MessagesSplit(upTo, later, decode);
    Rejoined(ingested, Messages(upTo, decode), Messages(Tail(upTo) + later, decode));
  }

  /** What is handed to ingestion when the attempt number `failAt`, if any, raises and ends the connection. */
  function Attempted(messages: seq<string>, failAt: Option<nat>): seq<string> {
    if failAt.Some? && failAt.value < |messages| then messages[..failAt.value + 1] else messages
  }

  /** The messages up to the one whose attempt raises, that one included. */
  lemma AttemptedIsPrefix(messages: seq<string>, failAt: Option<nat>)
    ensures var attempted := Attempted(messages, failAt);
            && attempted <= messages && (failAt.Some? ==> |attempted| <= failAt.value + 1)
            && (attempted != messages ==> failAt.Some? && |attempted| == failAt.value + 1)
  {
  }

  /** A failure within the first messages is not affected by later ones. */
  lemma AttemptedPrefix(xs: seq<string>, ys: seq<string>, failAt: Option<nat>)
    requires failAt.Some? && failAt.value < |xs|
    ensures Attempted(xs + ys, failAt) == Attempted(xs, failAt)
  {
  }

  /** Cuts a buffer at its first newline. */
  method TakeLine(buffer: Bytes) returns (line: Bytes, rest: Bytes)
    requires NEWLINE in buffer
    ensures NEWLINE !in line && buffer == line + [NEWLINE] + rest
  {
    var k := FirstNewline(buffer);
    ghost var j :| 0 <= j < |buffer| && buffer[j] == NEWLINE;
    assert k <= j;
    line, rest := buffer[..k], buffer[k + 1..];
    HasFirstLine(buffer);
  }

  lemma NoLineLeft(buffer: Bytes, decode: Bytes -> string)
    requires NEWLINE !in buffer
    ensures Messages(buffer, decode) == [] && Tail(buffer) == buffer
  {
    assert FirstNewline(buffer) == |buffer|;
  }

  /** The first line of a buffer: its message, if any, then those of the rest. */
  lemma NextLine(line: Bytes, rest: Bytes, decode: Bytes -> string, ingested: seq<string>)
    requires NEWLINE !in line
    ensures var text, buffer := StripEnds(decode(line)), line + [NEWLINE] + rest;
            && Tail(buffer) == Tail(rest)
            && ingested + Messages(buffer, decode)
               == (if text == "" then ingested else ingested + [text]) + Messages(rest, decode)
  {
    LineFirst(line, rest);
    FirstText(line, Lines(rest), decode, ingested);
  }

  lemma FirstText(line: Bytes, lines: seq<Bytes>, decode: Bytes -> string, ingested: seq<string>)
    ensures var text := StripEnds(decode(line));
            ingested + Texts([line] + lines, decode)
            == (if text == "" then ingested else ingested + [text]) + Texts(lines, decode)
  {
    assert ([line] + lines)[1..] == lines;
  }

  /** What was handed on and what the buffer still holds make up `all`; the unfinished line is `tail`. */
  ghost predicate MakesUp(ingested: seq<string>, buffer: Bytes, decode: Bytes -> string, all: seq<string>, tail: Bytes) {
    ingested + Messages(buffer, decode) == all && Tail(buffer) == tail
  }

  /** One round: the first line leaves the buffer and its message, if any, is handed on. */
  lemma RoundMakesUp(ingested: seq<string>, line: Bytes, rest: Bytes, decode: Bytes -> string, all: seq<string>,
                     tail: Bytes)
    requires NEWLINE !in line && MakesUp(ingested, line + [NEWLINE] + rest, decode, all, tail)
    ensures var text := StripEnds(decode(line));
            MakesUp(if text == "" then ingested else ingested + [text], rest, decode, all, tail)
  {
    NextLine(line, rest, decode, ingested);
  }

  lemma RaisesHere(ingested: seq<string>, buffer: Bytes, decode: Bytes -> string, all: seq<string>, tail: Bytes,
                   failAt: Option<nat>)
    requires MakesUp(ingested, buffer, decode, all, tail)
    requires ingested != [] && failAt == Some(|ingested| - 1)
    ensures failAt.value < |all| && ingested == Attempted(all, failAt)
  {
    AttemptedPrefix(ingested, Messages(buffer, decode), failAt);
  }

  lemma NothingLeft(ingested: seq<string>, buffer: Bytes, decode: Bytes -> string, all: seq<string>, tail: Bytes)
    requires MakesUp(ingested, buffer, decode, all, tail) && NEWLINE !in buffer
    ensures ingested == all && buffer == tail && Messages(buffer, decode) == []
  {
    NoLineLeft(buffer, decode);
  }

  /** Takes complete lines off the buffer and ingests them. */
  method Drain(buffer0: Bytes, decode: Bytes -> string, failAt: Option<nat>, ingested0: seq<string>)
    returns (buffer: Bytes, ingested: seq<string>, raised: bool)
    requires failAt.Some? ==> |ingested0| <= failAt.value
    ensures raised <==> failAt.Some? && failAt.value < |ingested0 + Messages(buffer0, decode)|
    ensures ingested == Attempted(ingested0 + Messages(buffer0, decode), failAt)
    ensures !raised ==> buffer == Tail(buffer0) && Messages(buffer, decode) == []
  {
    ghost var all, tail := ingested0 + Messages(buffer0, decode), Tail(buffer0);
    buffer, ingested := buffer0, ingested0;
    while NEWLINE in buffer
      invariant MakesUp(ingested, buffer, decode, all, tail)
      invariant failAt.Some? ==> |ingested| <= failAt.value
      decreases |buffer|
    {
      var line, rest := TakeLine(buffer);
      RoundMakesUp(ingested, line, rest, decode, all, tail);
      buffer := rest;
      var text := StripEnds(decode(line));
      if text != "" {
        ingested := ingested + [text];
        if failAt == Some(|ingested| - 1) {
          RaisesHere(ingested, buffer, decode, all, tail, failAt);
          return buffer, ingested, true;
        }
      }
    }
    NothingLeft(ingested, buffer, decode, all, tail);
    raised := false;
  }

  /** However the stream is cut into reads, the messages handed on are those of the whole stream, in order. */
  method HandleStreamClient(chunks: seq<Bytes>, decode: Bytes -> string, failAt: Option<nat>)
    returns (ingested: seq<string>)
    ensures ingested == Attempted(Messages(Received(chunks), decode), failAt)
  {
    var buffer: Bytes := [];
    ingested := [];
    var unread := chunks;
    assert buffer + Received(chunks) == Received(chunks);
    while unread != [] && unread[0] != []
      invariant ingested + Messages(buffer + Received(unread), decode) == Messages(Received(chunks), decode)
      invariant Messages(buffer, decode) == []
      invariant failAt.Some? ==> |ingested| <= failAt.value
      decreases |unread|
    {
      NextRead(buffer, unread, decode, ingested);
      ghost var later := Messages(Tail(buffer + unread[0]) + Received(unread[1..]), decode);
      ghost var upTo := ingested + Messages(buffer + unread[0], decode);
      var raised;
      buffer, ingested, raised := Drain(buffer + unread[0], decode, failAt, ingested);
      unread := unread[1..];
      if raised {
        AttemptedPrefix(upTo, later, failAt);
        return;
      }
    }
    assert buffer + Received(unread) == buffer;
  }

  // ---------------------------------------------------------------- what the framing promises

  /** The bytes a sender writes: every line followed by a newline. */
  function Framed(lines: seq<Bytes>): Bytes {
    if lines == [] then [] else lines[0] + [NEWLINE] + Framed(lines[1..])
  }

  /** Lines without newlines come back exactly, and an unterminated rest is dropped. */
  lemma {:induction false} FramingRoundTrip(lines: seq<Bytes>, rest: Bytes)
    requires forall k :: 0 <= k < |lines| ==> NEWLINE !in lines[k]
    requires NEWLINE !in rest
    ensures Lines(Framed(lines) + rest) == lines && Tail(Framed(lines) + rest) == rest
  {
    if lines == [] {
      assert Framed(lines) + rest == rest;
      assert FirstNewline(rest) == |rest|;
    } else {
      LineFirst(lines[0], Framed(lines[1..]) + rest);
      assert Framed(lines) + rest == lines[0] + [NEWLINE] + (Framed(lines[1..]) + rest);
      FramingRoundTrip(lines[1..], rest);
    }
  }

  /** Every stream is its lines, framed, followed by its tail. */
  lemma {:induction false} StreamIsFramedLines(s: Bytes)
    ensures s == Framed(Lines(s)) + Tail(s) && NEWLINE !in Tail(s)
    ensures forall k :: 0 <= k < |Lines(s)| ==> NEWLINE !in Lines(s)[k]
    decreases |s|
  {
    var k := FirstNewline(s);
    if k < |s| {
      var line, rest := s[..k], s[k + 1..];
      HasFirstLine(s);
      LineFirst(line, rest);
      StreamIsFramedLines(rest);
      Rejoined(line + [NEWLINE], Framed(Lines(rest)), Tail(rest));
    }
  }
}
